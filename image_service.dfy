/** Image generation through the image API: prompt composition, the 404
    retry schedule, the precedence in which an image is extracted from a
    successful reply, and the placeholder returned on every other path.
    The HTTP exchange is abstract: `reply(k)` is what the API answers to the
    request made with retry counter `k`. */
module ImageService {
  import opened Wrappers
  import Text

  const Placeholder: string := "https://placehold.co/600x400?text="
  const NoApiKeyUrl: string := Placeholder + "No+API+Key+For+Image"
  const ModelUnavailableUrl: string := Placeholder + "Model+Unavailable"
  const FormatErrorUrl: string := Placeholder + "Format+Error"
  const SystemErrorUrl: string := Placeholder + "System+Error"

  /** The placeholder for an unexpected HTTP status. */
  function StatusErrorUrl(status: int): (url: string)
    ensures Placeholder <= url
    ensures url[|Placeholder|..] == "Error+" + Text.IntToString(status)
  {
    var tail := "Error+" + Text.IntToString(status);
    assert (Placeholder + tail)[|Placeholder|..] == tail;
    Placeholder + tail
  }

  /** The prompt sent: the scene, followed by the things to avoid when there
      are any. */
  function FullPrompt(prompt: string, negative: string): (p: string)
    ensures |p| >= |prompt| && p[..|prompt|] == prompt
    ensures p == prompt <==> negative == []
    ensures negative != [] ==> p[|prompt|..] == " [Avoid: " + negative + "]"
  {
    if negative != [] then prompt + " [Avoid: " + negative + "]" else prompt
  }

  // ---------------------------------------------------------------------
  // The reply, as far as extraction looks at it

  /** The first element of `message.images`: a dictionary with an
      `image_url` entry (whose `url` may be missing, which raises), another
      dictionary, a string, or any other value. */
  datatype ImageEntry =
    | ImageUrlEntry(url: Option<string>)
    | OtherDict
    | StringEntry(text: string)
    | OtherValue

  /** `message.content`: absent, JSON null, or a string. */
  datatype Content = NoContent | NullContent | TextContent(text: string)

  /** `choices[i].message`; an empty `images` list stands for an absent,
      null or empty one. */
  datatype Message = Message(images: seq<ImageEntry>, content: Content) | MissingMessage

  /** An HTTP reply (its status and, for a 200, its parsed `choices`; an
      absent list is empty), or an exception (network error, timeout,
      unparseable body). */
  datatype Reply = Reply(status: int, choices: seq<Message>) | Raised

  datatype Extraction = Found(url: string) | NotFound | Raises

  // ---------------------------------------------------------------------
  // The search `(data:image/[^;]+;base64,[^\s\)\\"]+)`

  const DataPrefix: string := "data:image/"
  const Base64Marker: string := ";base64,"

  /** The characters the payload may contain. */
  predicate PayloadChar(c: char) {
    !Text.IsPySpace(c) && c != ')' && c != '\\' && c != '"'
  }

  /** The index of the first `';'` at or after `i`, or `|s|`. */
  function NextSemicolon(s: string, i: nat): (j: nat)
    requires i <= |s|
    ensures i <= j <= |s|
    ensures j < |s| ==> s[j] == ';'
    ensures forall k :: i <= k < j ==> s[k] != ';'
    decreases |s| - i
  {
    if i == |s| || s[i] == ';' then i else NextSemicolon(s, i + 1)
  }

  /** The end of the longest run of payload characters starting at `i`. */
  function PayloadEnd(s: string, i: nat): (j: nat)
    requires i <= |s|
    ensures i <= j <= |s|
    ensures j < |s| ==> !PayloadChar(s[j])
    ensures forall k :: i <= k < j ==> PayloadChar(s[k])
    decreases |s| - i
  {
    if i == |s| || !PayloadChar(s[i]) then i else PayloadEnd(s, i + 1)
  }

  /** The match starting exactly at `i`, if there is one. `[^;]+` cannot
      cross a `';'`, so the media type runs to the first `';'` after the
      prefix, which must open `";base64,"`; the greedy payload then takes
      every payload character that follows. */
  function MatchAt(s: string, i: nat): (m: Option<string>)
    requires i <= |s|
    ensures m.Some? ==> DataPrefix <= m.value && Text.Contains(m.value, Base64Marker)
    ensures m.Some? ==> i + |m.value| <= |s| && m.value == s[i..i + |m.value|]
    ensures m.Some? ==> PayloadChar(m.value[|m.value| - 1])
    ensures m.Some? ==> i + |m.value| == |s| || !PayloadChar(s[i + |m.value|])
  {
    if !(DataPrefix <= s[i..]) then None
    else
      var j := NextSemicolon(s, i + |DataPrefix|);
      if j == i + |DataPrefix| || !(Base64Marker <= s[j..]) then None
      else
        var e := PayloadEnd(s, j + |Base64Marker|);
        if e == j + |Base64Marker| then None
        else
          MatchFacts(s, i, j, e);
          Some(s[i..e])
  }

  /** A data URL at `i` is matched there: after the prefix, a media type of
      `t > 0` characters other than `';'`, the base64 marker and at least one
      payload character, the match runs to the end of the payload. */
  lemma MatchAtFinds(s: string, i: nat, t: nat)
    requires i <= |s| && DataPrefix <= s[i..]
    requires t > 0 && i + |DataPrefix| + t <= |s|
    requires forall k :: i + |DataPrefix| <= k < i + |DataPrefix| + t ==> s[k] != ';'
    requires Base64Marker <= s[i + |DataPrefix| + t..]
    requires i + |DataPrefix| + t + |Base64Marker| < |s| && PayloadChar(s[i + |DataPrefix| + t + |Base64Marker|])
    ensures MatchAt(s, i) == Some(s[i..PayloadEnd(s, i + |DataPrefix| + t + |Base64Marker|)])
  {
    var j := i + |DataPrefix| + t;
    assert s[j] == Base64Marker[0] == ';';
    assert NextSemicolon(s, i + |DataPrefix|) == j;
  }

  /** What the three parts of a match make of `s[i..e]`. */
  lemma MatchFacts(s: string, i: nat, j: nat, e: nat)
    requires i + |DataPrefix| <= j && j + |Base64Marker| < e <= |s|
    requires DataPrefix <= s[i..] && Base64Marker <= s[j..]
    requires forall k :: j + |Base64Marker| <= k < e ==> PayloadChar(s[k])
    ensures DataPrefix <= s[i..e] && Text.Contains(s[i..e], Base64Marker)
    ensures PayloadChar(s[i..e][e - i - 1])
  {
    var m := s[i..e];
    assert m[j - i..] == s[j..e];
    assert Base64Marker <= m[j - i..];
    ContainsSuffix(m, j - i, Base64Marker);
    assert m[e - i - 1] == s[e - 1];
  }

  lemma ContainsSuffix(hay: string, k: nat, needle: string)
    requires k <= |hay| && needle <= hay[k..]
    ensures Text.Contains(hay, needle)
  {
    assert hay[k..k + |needle|] == needle;
    assert Text.OccursAt(hay, needle, k);
  }

  /** Where `re.search` finds its match: the leftmost position at or after
      `i` that has one. */
  function SearchFrom(s: string, i: nat): (k: Option<nat>)
    requires i <= |s|
    ensures k.Some? ==> i <= k.value <= |s| && MatchAt(s, k.value).Some?
    ensures k.Some? ==> forall j :: i <= j < k.value ==> MatchAt(s, j).None?
    ensures k.None? ==> forall j :: i <= j <= |s| ==> MatchAt(s, j).None?
    decreases |s| - i
  {
    if MatchAt(s, i).Some? then Some(i)
    else if i == |s| then None
    else SearchFrom(s, i + 1)
  }

  /** The first data URL in `content`: it starts with `"data:image/"`,
      contains `";base64,"` and occurs in `content`. */
  function FindDataUrl(content: string): (m: Option<string>)
    ensures m.Some? ==> DataPrefix <= m.value && Text.Contains(m.value, Base64Marker)
    ensures m.Some? ==> Text.Contains(content, m.value)
    ensures m.Some? ==> SearchFrom(content, 0).Some? && m == MatchAt(content, SearchFrom(content, 0).value)
    ensures m.None? <==> forall j :: 0 <= j <= |content| ==> MatchAt(content, j).None?
  {
    match SearchFrom(content, 0)
    case None => None
    case Some(k) =>
      MatchInside(content, k);
      Some(MatchAt(content, k).value)
  }

  /** A data URL anywhere in the content is found: the search returns the
      match at that position or at an earlier one. */
  lemma DataUrlFound(content: string, i: nat, t: nat)
    requires i <= |content| && DataPrefix <= content[i..]
    requires t > 0 && i + |DataPrefix| + t <= |content|
    requires forall k :: i + |DataPrefix| <= k < i + |DataPrefix| + t ==> content[k] != ';'
    requires Base64Marker <= content[i + |DataPrefix| + t..]
    requires i + |DataPrefix| + t + |Base64Marker| < |content| && PayloadChar(content[i + |DataPrefix| + t + |Base64Marker|])
    ensures FindDataUrl(content).Some?
    ensures SearchFrom(content, 0).Some? && SearchFrom(content, 0).value <= i
  {
    MatchAtFinds(content, i, t);
  }

  /** A match is a part of the text it was found in. */
  lemma MatchInside(s: string, k: nat)
    requires k <= |s| && MatchAt(s, k).Some?
    ensures Text.Contains(s, MatchAt(s, k).value)
  {
    var m := MatchAt(s, k).value;
    ContainsAt(s, k, m);
  }

  /** The image extracted from the reply's `choices`, in the source's order
      of precedence. Logging the message slices `content`, which raises when
      it is JSON null, before any image is looked at. */
  function Extract(choices: seq<Message>): (r: Extraction)
    ensures choices == [] ==> r == NotFound
    ensures choices != [] && choices[0].MissingMessage? ==> r == Raises
  {
    if choices == [] then NotFound
    else match choices[0]
      case MissingMessage => Raises
      case Message(images, content) =>
        if content.NullContent? then Raises
        else
          var c := if content.TextContent? then content.text else "";
          if images != [] && images[0].ImageUrlEntry? then
            (if images[0].url.Some? then Found(images[0].url.value) else Raises)
          else if images != [] && images[0].StringEntry? then Found(images[0].text)
          else if c != [] && Text.StartsWith(c, "data:image") then Found(c)
          else if Text.Contains(c, "data:image") && FindDataUrl(c).Some? then Found(FindDataUrl(c).value)
          else NotFound
  }

  /** Without an image entry, what is found is found inside the content. */
  lemma FoundInContent(choices: seq<Message>)
    requires Extract(choices).Found? && choices[0].Message?
    requires choices[0].images == [] || choices[0].images[0].OtherDict? || choices[0].images[0].OtherValue?
    ensures choices[0].content.TextContent? && Text.Contains(choices[0].content.text, Extract(choices).url)
  {
    var c := choices[0].content.text;
    var u := Extract(choices).url;
    if Text.StartsWith(c, "data:image") {
      ContainsSuffix(c, 0, c);
    }
  }

  lemma ContainsAt(hay: string, k: nat, needle: string)
    requires k + |needle| <= |hay| && hay[k..k + |needle|] == needle
    ensures Text.Contains(hay, needle)
  {
    assert Text.OccursAt(hay, needle, k);
  }

  /** The precedence: an `image_url` entry wins over everything, then a
      string entry, then content that is itself a data URL, then the first
      data URL inside the content. */
  lemma ExtractPrecedence(images: seq<ImageEntry>, content: string)
    ensures (images != [] && images[0].ImageUrlEntry? && images[0].url.Some?)
              ==> Extract([Message(images, TextContent(content))]) == Found(images[0].url.value)
    ensures (images != [] && images[0].StringEntry?)
              ==> Extract([Message(images, TextContent(content))]) == Found(images[0].text)
    ensures ((images == [] || images[0].OtherDict? || images[0].OtherValue?) && Text.StartsWith(content, "data:image"))
              ==> Extract([Message(images, TextContent(content))]) == Found(content)
    ensures ((images == [] || images[0].OtherDict? || images[0].OtherValue?) && !Text.StartsWith(content, "data:image"))
              ==> Extract([Message(images, TextContent(content))]) ==
                    (if FindDataUrl(content).Some? then Found(FindDataUrl(content).value) else NotFound)
  {
    if images != [] && (images[0].ImageUrlEntry? || images[0].StringEntry?) {
    } else if Text.StartsWith(content, "data:image") {
    } else if FindDataUrl(content).Some? {
      PrefixContains(content, FindDataUrl(content).value);
    }
  }

  /** A data URL begins with `"data:image"`, so content holding one
      contains `"data:image"`. */
  lemma PrefixContains(s: string, m: string)
    requires DataPrefix <= m && Text.Contains(s, m)
    ensures Text.Contains(s, "data:image")
  {
    var k :| Text.OccursAt(s, m, k);
    assert Text.OccursAt(s, m, k);
    assert |m| >= |DataPrefix| == 11;
    assert m[..10] == DataPrefix[..10] == "data:image";
    assert s[k..k + 10] == s[k..k + |m|][..10];
    assert Text.OccursAt(s, "data:image", k);
  }

  /** A null `content` makes extraction raise, whatever the images hold. */
  lemma NullContentRaises(images: seq<ImageEntry>, rest: seq<Message>)
    ensures Extract([Message(images, NullContent)] + rest) == Raises
  {
  }

  // ---------------------------------------------------------------------
  // `generate_image`

  /** The outcome of `generate_image`: the URL returned, the prompt of each
      request made, in order, and the waits (seconds) before each retry. */
  datatype ImageCall = ImageCall(url: string, requests: seq<string>, waits: seq<int>)

  function GenerateImage(apiKey: string, prompt: string, negative: string, retryCount: int, reply: int -> Reply): (r: ImageCall)
    ensures apiKey == [] ==> r == ImageCall(NoApiKeyUrl, [], [])
    ensures apiKey != [] ==> |r.requests| >= 1 && |r.waits| == |r.requests| - 1
    ensures forall q :: 0 <= q < |r.requests| ==> r.requests[q] == FullPrompt(prompt, negative)
    ensures forall q :: 0 <= q < |r.waits| ==> r.waits[q] == (retryCount + q + 1) * 2
    ensures |r.requests| <= if retryCount < 2 then 3 - retryCount else 1
    ensures apiKey != [] && reply(retryCount).Raised? ==> r.url == SystemErrorUrl && |r.requests| == 1
    ensures apiKey != [] && retryCount >= 2 && reply(retryCount).Reply? && reply(retryCount).status == 404 ==>
              r.url == ModelUnavailableUrl && |r.requests| == 1
    ensures apiKey != [] && retryCount < 2 && reply(retryCount).Reply? && reply(retryCount).status == 404 ==>
              |r.requests| >= 2
    ensures apiKey != [] && reply(retryCount).Reply? && reply(retryCount).status == 200 ==>
              && |r.requests| == 1
              && r.url == match Extract(reply(retryCount).choices)
                          case Found(u) => u
                          case NotFound => FormatErrorUrl
                          case Raises => SystemErrorUrl
    decreases if retryCount < 2 then 2 - retryCount else 0
  {
    if apiKey == [] then ImageCall(NoApiKeyUrl, [], [])
    else
      var sent := FullPrompt(prompt, negative);
      match reply(retryCount)
      case Raised => ImageCall(SystemErrorUrl, [sent], [])
      case Reply(status, choices) =>
        if status == 404 then
          if retryCount < 2 then
            var rest := GenerateImage(apiKey, prompt, negative, retryCount + 1, reply);
            ImageCall(rest.url, [sent] + rest.requests, [(retryCount + 1) * 2] + rest.waits)
          else ImageCall(ModelUnavailableUrl, [sent], [])
        else if status != 200 then ImageCall(StatusErrorUrl(status), [sent], [])
        else
          match Extract(choices)
          case Found(url) => ImageCall(url, [sent], [])
          case NotFound => ImageCall(FormatErrorUrl, [sent], [])
          case Raises => ImageCall(SystemErrorUrl, [sent], [])
  }

  /** Started at 0, at most three requests are made and the waits are a
      prefix of 2 s then 4 s. */
  lemma RetrySchedule(apiKey: string, prompt: string, negative: string, reply: int -> Reply)
    ensures var r := GenerateImage(apiKey, prompt, negative, 0, reply);
            |r.requests| <= 3 && r.waits <= [2, 4]
  {
    var r := GenerateImage(apiKey, prompt, negative, 0, reply);
    assert |r.waits| <= 2;
    if |r.waits| == 2 {
      assert r.waits == [2, 4];
    } else if |r.waits| == 1 {
      assert r.waits == [2];
    }
  }

  /** When every request is answered 404, three requests are made, with
      waits of 2 s and 4 s, and the "Model+Unavailable" placeholder is
      returned. */
  lemma PersistentNotFound(apiKey: string, prompt: string, negative: string, reply: int -> Reply)
    requires apiKey != []
    requires forall k :: reply(k).Reply? && reply(k).status == 404
    ensures var r := GenerateImage(apiKey, prompt, negative, 0, reply);
            r.url == ModelUnavailableUrl && |r.requests| == 3 && r.waits == [2, 4]
  {
    assert reply(0).status == 404 && reply(1).status == 404 && reply(2).status == 404;
    var r2 := GenerateImage(apiKey, prompt, negative, 2, reply);
    assert r2.url == ModelUnavailableUrl && |r2.requests| == 1;
    var r1 := GenerateImage(apiKey, prompt, negative, 1, reply);
    assert r1.url == ModelUnavailableUrl && |r1.requests| == 2;
  }

  /** A 404 followed by success: the image of the second reply, after one
      wait of 2 s. */
  lemma RetryThenSuccess(apiKey: string, prompt: string, negative: string, reply: int -> Reply, url: string)
    requires apiKey != []
    requires reply(0).Reply? && reply(0).status == 404
    requires reply(1) == Reply(200, [Message([StringEntry(url)], NoContent)])
    ensures GenerateImage(apiKey, prompt, negative, 0, reply) ==
              ImageCall(url, [FullPrompt(prompt, negative), FullPrompt(prompt, negative)], [2])
  {
  }

  /** Any status other than 200 and 404 is reported by the placeholder that
      names it, after a single request. */
  lemma OtherStatusReported(apiKey: string, prompt: string, negative: string, retryCount: int, reply: int -> Reply)
    requires apiKey != []
    requires reply(retryCount).Reply? && reply(retryCount).status != 200 && reply(retryCount).status != 404
    ensures GenerateImage(apiKey, prompt, negative, retryCount, reply) ==
              ImageCall(StatusErrorUrl(reply(retryCount).status), [FullPrompt(prompt, negative)], [])
  {
  }
}
