/** The community page: the feed's paging state with its Previous and Next
    buttons and its two sort orders, and the excerpt shown on each card. */
module CommunityPage {
  import opened Wrappers
  import opened Db
  import Social

  const PageSize: nat := 12
  const ExcerptLength: nat := 150

  /** The excerpt: markdown marks removed, the first 150 characters, then
      an ellipsis. */
  function Excerpt(content: string): (e: string)
    ensures 3 <= |e| <= ExcerptLength + 3
    ensures |e| - 3 == if |StripMarks(content)| <= ExcerptLength then |StripMarks(content)| else ExcerptLength
    ensures e[|e| - 3..] == "..."
    ensures e[..|e| - 3] <= StripMarks(content)
    ensures forall i :: 0 <= i < |e| ==> e[i] != '#'
  {
    var stripped := StripMarks(content);
    var kept := if |stripped| <= ExcerptLength then stripped else stripped[..ExcerptLength];
    kept + "..."
  }

  /** One left-to-right pass removing every `**`, `__` and `#` (the
      alternatives tried in that order at each position, matches not
      overlapping). */
  function StripMarks(s: string): (r: string)
    ensures |r| <= |s|
    ensures forall i :: 0 <= i < |r| ==> r[i] != '#'
    decreases |s|
  {
    if s == [] then []
    else if |s| >= 2 && s[..2] == "**" then StripMarks(s[2..])
    else if |s| >= 2 && s[..2] == "__" then StripMarks(s[2..])
    else if s[0] == '#' then StripMarks(s[1..])
    else [s[0]] + StripMarks(s[1..])
  }

  /** A mark after plain text is removed and the text before it kept. */
  lemma {:induction false} MarkRemoved(a: string, m: string, b: string)
    requires m == "**" || m == "__" || m == "#"
    requires forall i :: 0 <= i < |a| ==> !IsMarkChar(a[i])
    ensures StripMarks(a + m + b) == a + StripMarks(b)
    decreases |a|
  {
    if a == [] {
      assert a + m + b == m + b;
      MarkFirst(m, b);
    } else {
      var t := a[1..] + m + b;
      calc {
        StripMarks(a + m + b);
        { assert a + m + b == [a[0]] + t; }
        StripMarks([a[0]] + t);
        { PlainFirst(a[0], t); }
        [a[0]] + StripMarks(t);
        { MarkRemoved(a[1..], m, b); }
        [a[0]] + (a[1..] + StripMarks(b));
        { assert a == [a[0]] + a[1..]; }
        a + StripMarks(b);
      }
    }
  }

  /** A mark at the front is dropped. */
  lemma MarkFirst(m: string, b: string)
    requires m == "**" || m == "__" || m == "#"
    ensures StripMarks(m + b) == StripMarks(b)
  {
    var s := m + b;
    if m == "#" {
      assert s[0] == '#' && s[1..] == b;
      if |s| >= 2 {
        assert s[..2][0] == '#';
      }
    } else {
      assert s[..2] == m && s[2..] == b;
    }
  }

  /** A plain character at the front is kept. */
  lemma PlainFirst(c: char, t: string)
    requires !IsMarkChar(c)
    ensures StripMarks([c] + t) == [c] + StripMarks(t)
  {
    var s := [c] + t;
    assert s[0] == c && s[1..] == t;
    if |s| >= 2 {
      assert s[..2][0] == c;
    }
  }

  predicate IsMarkChar(c: char) {
    c == '*' || c == '_' || c == '#'
  }

  /** Text without mark characters passes unchanged. */
  lemma {:induction false} PlainTextUnchanged(s: string)
    requires forall i :: 0 <= i < |s| ==> !IsMarkChar(s[i])
    ensures StripMarks(s) == s
    decreases |s|
  {
    if s != [] {
      assert s[0] != '*' && s[0] != '_';
      PlainTextUnchanged(s[1..]);
      assert s == [s[0]] + s[1..];
    }
  }

  /** Only mark characters are removed: every other character survives,
      in order. */
  lemma {:induction false} OnlyMarksRemoved(s: string)
    ensures NonMarks(StripMarks(s)) == NonMarks(s)
    decreases |s|
  {
    if s != [] {
      if |s| >= 2 && (s[..2] == "**" || s[..2] == "__") {
        OnlyMarksRemoved(s[2..]);
        assert s == s[..2] + s[2..];
        NonMarksAppend(s[..2], s[2..]);
        assert s[..2] == [s[0]] + [s[1]];
        NonMarksAppend([s[0]], [s[1]]);
      } else {
        OnlyMarksRemoved(s[1..]);
        assert s == [s[0]] + s[1..];
        NonMarksAppend([s[0]], s[1..]);
        if s[0] != '#' {
          NonMarksAppend([s[0]], StripMarks(s[1..]));
        }
      }
    }
  }

  /** The characters of `s` other than the mark characters, in order. */
  function NonMarks(s: string): string
    decreases |s|
  {
    if s == [] then [] else NonMarks(s[..|s| - 1]) + (if IsMarkChar(s[|s| - 1]) then [] else [s[|s| - 1]])
  }

  lemma {:induction false} NonMarksAppend(a: string, b: string)
    ensures NonMarks(a + b) == NonMarks(a) + NonMarks(b)
    decreases |b|
  {
    if b == [] {
      assert a + b == a;
    } else {
      var init := b[..|b| - 1];
      assert (a + b)[..|a + b| - 1] == a + init;
      assert (a + b)[|a + b| - 1] == b[|b| - 1];
      NonMarksAppend(a, init);
    }
  }

  /** A single pass: removing a `#` can bring two `*` together, and the
      pair it forms stays. */
  lemma SinglePass()
    ensures StripMarks("*#*") == "**"
    ensures StripMarks(StripMarks("*#*")) == ""
  {
    assert "*#*"[..2] == "*#";
    assert "*#*"[1..] == "#*";
    assert "#*"[..2] == "#*";
    assert "#*"[1..] == "*";
    assert "**"[..2] == "**";
  }

  // ---------------------------------------------------------------------
  // Paging

  /** What Previous sets the page to. */
  function PreviousPage(page: int): (p: int)
    ensures p >= 1
    ensures page > 1 ==> p == page - 1
    ensures page <= 1 ==> p == 1
  {
    if page - 1 > 1 then page - 1 else 1
  }

  /** What Next sets the page to. */
  function NextPage(page: int, totalPages: int): (p: int)
    ensures p <= totalPages
    ensures page < totalPages ==> p == page + 1
    ensures page >= totalPages ==> p == totalPages
  {
    if totalPages < page + 1 then totalPages else page + 1
  }

  /** The buttons keep the page within `[1, totalPages]`. */
  lemma PagingStaysInRange(page: int, totalPages: int)
    requires 1 <= page <= totalPages
    ensures 1 <= PreviousPage(page) <= totalPages
    ensures 1 <= NextPage(page, totalPages) <= totalPages
  {
  }

  /** The page count the page keeps from a feed reply: 1 when the reply
      has none or 0. */
  function TotalPagesOf(pages: Option<nat>): (t: int)
    ensures t >= 1
    ensures pages.Some? && pages.value != 0 ==> t == pages.value
  {
    if pages.Some? && pages.value != 0 then pages.value else 1
  }

  /** The reply of `getPublicFeed` as the page sees it; `None` when the call
      threw. */
  datatype FeedReply = FeedReply(stories: Option<seq<Id>>, pages: Option<nat>)

  /** The reply the page receives for a feed page the action returned. */
  function FeedReplyOf(f: Social.FeedPage): (r: FeedReply)
    ensures r.stories == Some(f.stories) && r.pages == f.pages
  {
    FeedReply(Some(f.stories), f.pages)
  }

  class Page {
    var stories: seq<Id>
    var loading: bool
    var page: int
    var totalPages: int
    var sortBy: Social.SortOrder

    ghost predicate Valid()
      reads this
    {
      page >= 1 && totalPages >= 1
    }

    constructor ()
      ensures Valid()
      ensures stories == [] && loading && page == 1 && totalPages == 1 && sortBy == Social.Recent
    {
      stories, loading, page, totalPages, sortBy := [], true, 1, 1, Social.Recent;
    }

    /** The pagination controls are shown only when there is more than one
        page. */
    predicate PaginationVisible()
      reads this
    {
      totalPages > 1
    }

    predicate PreviousDisabled()
      reads this
    {
      page == 1
    }

    predicate NextDisabled()
      reads this
    {
      page == totalPages
    }

    /** `loadStories`, once the feed answered (`None`: it threw). The reply
        is page `page` of the public feed of `db`, 12 stories a page, in the
        chosen order. */
    method LoadStories(ghost db: Database, reply: Option<FeedReply>)
      requires Valid()
      requires reply.Some? ==> Social.GetPublicFeed(db, page, PageSize, sortBy).Some?
                               && reply.value == FeedReplyOf(Social.GetPublicFeed(db, page, PageSize, sortBy).value)
      modifies this`stories, this`totalPages, this`loading
      ensures Valid()
      ensures !loading
      ensures reply.None? ==> stories == old(stories) && totalPages == old(totalPages)
      ensures reply.Some? ==>
                && stories == (if reply.value.stories.Some? then reply.value.stories.value else [])
                && totalPages == TotalPagesOf(reply.value.pages)
      ensures reply.Some? ==>
                && stories == Social.GetPublicFeed(db, page, PageSize, sortBy).value.stories
                && totalPages == TotalPagesOf(Social.GetPublicFeed(db, page, PageSize, sortBy).value.pages)
    {
      loading := true;
      if reply.Some? {
        stories := if reply.value.stories.Some? then reply.value.stories.value else [];
        totalPages := TotalPagesOf(reply.value.pages);
      }
      loading := false;
    }

    /** A click on Previous; a disabled or hidden button does nothing. */
    method ClickPrevious()
      requires Valid()
      modifies this`page
      ensures Valid()
      ensures PaginationVisible() && !old(PreviousDisabled()) ==> page == PreviousPage(old(page))
      ensures !PaginationVisible() || old(PreviousDisabled()) ==> page == old(page)
      ensures old(page) <= totalPages ==> page <= totalPages
    {
      if PaginationVisible() && !PreviousDisabled() {
        page := PreviousPage(page);
      }
    }

    /** A click on Next; a disabled or hidden button does nothing. */
    method ClickNext()
      requires Valid()
      modifies this`page
      ensures Valid()
      ensures PaginationVisible() && !old(NextDisabled()) ==> page == NextPage(old(page), totalPages)
      ensures !PaginationVisible() || old(NextDisabled()) ==> page == old(page)
      ensures old(page) <= totalPages ==> 1 <= page <= totalPages
    {
      if PaginationVisible() && !NextDisabled() {
        page := NextPage(page, totalPages);
      }
    }

    /** Choosing a sort order starts again from the first page. */
    method ChooseSort(order: Social.SortOrder)
      requires Valid()
      modifies this`sortBy, this`page
      ensures Valid()
      ensures sortBy == order && page == 1
    {
      sortBy := order;
      page := 1;
    }
  }
}
