/** The community actions: publishing, likes, comments, views, forks, the
    public feed and the public profile. The signed-in user is an input (`None`
    when nobody is signed in). */
module Social {
  import opened Wrappers
  import Text
  import opened Db
  import Ranking

  const UnauthorizedMessage: string := "Unauthorized"
  const UserNotFoundMessage: string := "User not found"
  const StoryNotFoundMessage: string := "Story not found"
  const NotOwnerMessage: string := "You do not own this story"
  const EmptyCommentMessage: string := "Comment cannot be empty"
  const RemixSuffix: string := " (Remix)"

  // ---------------------------------------------------------------------
  // Profile sync

  /** A user row without a name or a picture is filled in from the identity
      provider before its owner appears in public. */
  predicate NeedsSync(u: User): (b: bool)
    ensures b <==> u.name == None || u.name == Some("") || u.image == None || u.image == Some("")
  {
    !Truthy(u.name) || !Truthy(u.image)
  }

  /** The row after the sync: the provider's first and last name when it
      has a first name, its picture when it has one, the row's own values
      otherwise. */
  function Synced(u: User, clerk: ClerkUser): (v: User)
    ensures v.(name := u.name, image := u.image) == u
    ensures Truthy(clerk.firstName) ==>
              v.name == Some(clerk.firstName.value + " " + (if Truthy(clerk.lastName) then clerk.lastName.value else ""))
    ensures !Truthy(clerk.firstName) ==> v.name == u.name
    ensures v.image == if Truthy(clerk.imageUrl) then clerk.imageUrl else u.image
  {
    var name := if Truthy(clerk.firstName) then
                  Some(clerk.firstName.value + " " + (if Truthy(clerk.lastName) then clerk.lastName.value else ""))
                else u.name;
    u.(name := name, image := if Truthy(clerk.imageUrl) then clerk.imageUrl else u.image)
  }

  /** A provider profile with a first name and a picture fills the row in:
      it needs no further sync. */
  lemma SyncCompletes(u: User, clerk: ClerkUser)
    requires Truthy(clerk.firstName) && Truthy(clerk.imageUrl)
    ensures !NeedsSync(Synced(u, clerk))
  {
    var name := clerk.firstName.value + " " + (if Truthy(clerk.lastName) then clerk.lastName.value else "");
    assert |name| > 0;
  }

  /** Syncing twice is syncing once. */
  lemma SyncedIdempotent(u: User, clerk: ClerkUser)
    ensures Synced(Synced(u, clerk), clerk) == Synced(u, clerk)
  {
  }

  // ---------------------------------------------------------------------
  // Publishing

  datatype PublishResult = PublishToggled(isPublic: bool) | PublishError(error: string)

  /** The signed-in user has a row and owns the story. */
  predicate Owns(users: map<string, User>, stories: map<Id, Story>, clerk: Option<ClerkUser>, storyId: Id) {
    clerk.Some? && clerk.value.id in users && storyId in stories && stories[storyId].userId == users[clerk.value.id].id
  }

  /** `togglePublishStory`; `now` is the time of the call. */
  method TogglePublishStory(db: Database, clerk: Option<ClerkUser>, storyId: Id, now: int) returns (r: PublishResult)
    requires db.Valid()
    modifies db`users, db`stories
    ensures db.Valid()
    ensures clerk.None? ==> r == PublishError(UnauthorizedMessage)
    ensures clerk.Some? && clerk.value.id !in old(db.users) ==> r == PublishError(UserNotFoundMessage)
    ensures clerk.Some? && clerk.value.id in old(db.users) && storyId !in old(db.stories) ==> r == PublishError(StoryNotFoundMessage)
    ensures clerk.Some? && clerk.value.id in old(db.users) && storyId in old(db.stories) && !old(Owns(db.users, db.stories, clerk, storyId)) ==>
              r == PublishError(NotOwnerMessage)
    ensures r.PublishToggled? <==> old(Owns(db.users, db.stories, clerk, storyId))
    ensures r.PublishError? ==> db.users == old(db.users) && db.stories == old(db.stories)
    ensures r.PublishToggled? ==>
              var s := old(db.stories[storyId]);
              var u := old(db.users[clerk.value.id]);
              && r.isPublic == !s.isPublic
              && db.stories == old(db.stories)[storyId := s.(isPublic := !s.isPublic,
                                                              publishedAt := if !s.isPublic then Some(now) else s.publishedAt)]
              && db.users == if !s.isPublic && NeedsSync(u) then old(db.users)[clerk.value.id := Synced(u, clerk.value)] else old(db.users)
  {
    if clerk.None? {
      return PublishError(UnauthorizedMessage);
    }
    var user := clerk.value;
    if user.id !in db.users {
      return PublishError(UserNotFoundMessage);
    }
    var dbUser := db.users[user.id];
    if storyId !in db.stories {
      return PublishError(StoryNotFoundMessage);
    }
    var story := db.stories[storyId];
    if story.userId != dbUser.id {
      return PublishError(NotOwnerMessage);
    }
    var newStatus := !story.isPublic;
    if newStatus && NeedsSync(dbUser) {
      db.users := db.users[user.id := Synced(dbUser, user)];
    }
    db.stories := db.stories[storyId := story.(isPublic := newStatus, publishedAt := if newStatus then Some(now) else story.publishedAt)];
    r := PublishToggled(newStatus);
  }

  /** Toggling twice restores the visibility; a story that was public keeps
      the publication time it got when it was published. */
  method TogglePublishTwice(db: Database, clerk: Option<ClerkUser>, storyId: Id, now1: int, now2: int)
    returns (first: PublishResult, second: PublishResult)
    requires db.Valid() && Owns(db.users, db.stories, clerk, storyId)
    modifies db`users, db`stories
    ensures first.PublishToggled? && second.PublishToggled? && second.isPublic == !first.isPublic
    ensures storyId in db.stories && db.stories[storyId].isPublic == old(db.stories[storyId].isPublic)
    ensures old(db.stories[storyId].isPublic) ==> db.stories[storyId].publishedAt == Some(now2)
    ensures !old(db.stories[storyId].isPublic) ==> db.stories[storyId].publishedAt == Some(now1)
    ensures db.stories - {storyId} == old(db.stories) - {storyId}
  {
    first := TogglePublishStory(db, clerk, storyId, now1);
    second := TogglePublishStory(db, clerk, storyId, now2);
  }

  // ---------------------------------------------------------------------
  // Likes

  /** `LikeThrown`: the database refuses a like of a story that does not
      exist, and the action throws. */
  datatype LikeResult = LikeToggled(liked: bool) | LikeError(error: string) | LikeThrown

  /** `toggleLikeStory`. */
  method ToggleLikeStory(db: Database, clerk: Option<ClerkUser>, storyId: Id) returns (r: LikeResult)
    requires db.Valid()
    modifies db`likes
    ensures db.Valid()
    ensures clerk.None? ==> r == LikeError(UnauthorizedMessage) && db.likes == old(db.likes)
    ensures clerk.Some? && clerk.value.id !in db.users ==> r == LikeError(UserNotFoundMessage) && db.likes == old(db.likes)
    ensures clerk.Some? && clerk.value.id in db.users ==>
              var like := Like(db.users[clerk.value.id].id, storyId);
              if like in old(db.likes) then r == LikeToggled(false) && db.likes == old(db.likes) - {like}
              else if storyId !in db.stories then r == LikeThrown && db.likes == old(db.likes)
              else r == LikeToggled(true) && db.likes == old(db.likes) + {like}
  {
    if clerk.None? {
      return LikeError(UnauthorizedMessage);
    }
    if clerk.value.id !in db.users {
      return LikeError(UserNotFoundMessage);
    }
    var like := Like(db.users[clerk.value.id].id, storyId);
    if like in db.likes {
      db.likes := db.likes - {like};
      r := LikeToggled(false);
    } else if storyId !in db.stories {
      r := LikeThrown;
    } else {
      db.likes := db.likes + {like};
      r := LikeToggled(true);
    }
  }

  /** A like toggle moves the story's like count by exactly one. */
  lemma LikeToggleCount(likes: set<Like>, like: Like)
    ensures like !in likes ==> |LikesOn(likes + {like}, like.storyId)| == |LikesOn(likes, like.storyId)| + 1
    ensures like in likes ==> |LikesOn(likes - {like}, like.storyId)| == |LikesOn(likes, like.storyId)| - 1
    ensures forall other :: other != like.storyId ==>
              LikesOn(likes + {like}, other) == LikesOn(likes, other) && LikesOn(likes - {like}, other) == LikesOn(likes, other)
  {
    if like !in likes {
      assert LikesOn(likes + {like}, like.storyId) == LikesOn(likes, like.storyId) + {like};
    } else {
      assert LikesOn(likes - {like}, like.storyId) == LikesOn(likes, like.storyId) - {like};
    }
  }

  /** Liking twice is not liking at all. */
  method ToggleLikeTwice(db: Database, clerk: Option<ClerkUser>, storyId: Id) returns (first: LikeResult, second: LikeResult)
    requires db.Valid() && clerk.Some? && clerk.value.id in db.users && storyId in db.stories
    modifies db`likes
    ensures first.LikeToggled? && second.LikeToggled? && second.liked == !first.liked
    ensures db.likes == old(db.likes)
  {
    first := ToggleLikeStory(db, clerk, storyId);
    second := ToggleLikeStory(db, clerk, storyId);
  }

  // ---------------------------------------------------------------------
  // Comments

  /** `CommentThrown`: the database refuses a comment on a story that does
      not exist, after the profile sync was written. */
  datatype CommentResult =
    | Commented(comment: Comment, authorName: Option<string>, authorImage: Option<string>)
    | CommentError(error: string)
    | CommentThrown

  /** `addComment`; `now` is the time of the insert. */
  method AddComment(db: Database, clerk: Option<ClerkUser>, storyId: Id, content: string, now: int) returns (r: CommentResult)
    requires db.Valid()
    modifies db`users, db`comments, db`nextId
    ensures db.Valid()
    ensures clerk.None? ==>
              r == CommentError(UnauthorizedMessage) && db.users == old(db.users) && db.comments == old(db.comments)
    ensures clerk.Some? && Text.JsTrim(content) == [] ==>
              r == CommentError(EmptyCommentMessage) && db.users == old(db.users) && db.comments == old(db.comments)
    ensures clerk.Some? && Text.JsTrim(content) != [] && clerk.value.id !in old(db.users) ==>
              r == CommentError(UserNotFoundMessage) && db.users == old(db.users) && db.comments == old(db.comments)
    ensures clerk.Some? && Text.JsTrim(content) != [] && clerk.value.id in old(db.users) ==>
              var u := old(db.users[clerk.value.id]);
              var author := if NeedsSync(u) then Synced(u, clerk.value) else u;
              && db.users == old(db.users)[clerk.value.id := author]
              && if storyId !in db.stories then
                   r == CommentThrown && db.comments == old(db.comments) && db.nextId == old(db.nextId)
                 else
                   && r == Commented(Comment(old(db.nextId), content, u.id, storyId, now), author.name, author.image)
                   && db.comments == old(db.comments)[old(db.nextId) := r.comment]
                   && db.nextId == old(db.nextId) + 1
    ensures r.CommentError? ==> db.nextId == old(db.nextId)
  {
    if clerk.None? {
      return CommentError(UnauthorizedMessage);
    }
    if Text.JsTrim(content) == [] {
      return CommentError(EmptyCommentMessage);
    }
    var user := clerk.value;
    if user.id !in db.users {
      return CommentError(UserNotFoundMessage);
    }
    r := CommentAs(db, user, storyId, content, now);
  }

  /** `addComment` past its checks: the profile sync, then the insert. */
  method CommentAs(db: Database, user: ClerkUser, storyId: Id, content: string, now: int) returns (r: CommentResult)
    requires db.Valid() && user.id in db.users
    modifies db`users, db`comments, db`nextId
    ensures db.Valid()
    ensures var u := old(db.users[user.id]);
            var author := if NeedsSync(u) then Synced(u, user) else u;
            && db.users == old(db.users)[user.id := author]
            && if storyId !in db.stories then
                 r == CommentThrown && db.comments == old(db.comments) && db.nextId == old(db.nextId)
               else
                 && r == Commented(Comment(old(db.nextId), content, u.id, storyId, now), author.name, author.image)
                 && db.comments == old(db.comments)[old(db.nextId) := r.comment]
                 && db.nextId == old(db.nextId) + 1
    ensures !r.CommentError?
  {
    var author := SyncProfile(db, user);
    if storyId !in db.stories {
      return CommentThrown;
    }
    var comment := InsertComment(db, content, author.id, storyId, now);
    r := Commented(comment, author.name, author.image);
  }

  /** The update that fills in a row's missing name or picture; a complete
      row is left as it is. */
  method SyncProfile(db: Database, clerk: ClerkUser) returns (author: User)
    requires db.Valid() && clerk.id in db.users
    modifies db`users
    ensures db.Valid()
    ensures var u := old(db.users[clerk.id]);
            && author == (if NeedsSync(u) then Synced(u, clerk) else u)
            && db.users == old(db.users)[clerk.id := author]
  {
    author := db.users[clerk.id];
    if NeedsSync(author) {
      author := Synced(author, clerk);
      db.users := db.users[clerk.id := author];
    }
  }

  /** The insert of a comment under a fresh id. */
  method InsertComment(db: Database, content: string, userId: Id, storyId: Id, now: int) returns (comment: Comment)
    requires db.Valid() && storyId in db.stories
    modifies db`comments, db`nextId
    ensures db.Valid()
    ensures comment == Comment(old(db.nextId), content, userId, storyId, now)
    ensures db.comments == old(db.comments)[comment.id := comment] && db.nextId == old(db.nextId) + 1
  {
    var id := db.FreshId();
    comment := Comment(id, content, userId, storyId, now);
    db.comments := db.comments[id := comment];
  }

  // ---------------------------------------------------------------------
  // Views and forks

  /** `incrementViewCount`; `found` is false when the update throws because
      the story does not exist. */
  method IncrementViewCount(db: Database, storyId: Id) returns (found: bool)
    requires db.Valid()
    modifies db`stories
    ensures db.Valid()
    ensures found <==> storyId in old(db.stories)
    ensures !found ==> db.stories == old(db.stories)
    ensures found ==> db.stories == old(db.stories)[storyId := old(db.stories[storyId]).(viewCount := old(db.stories[storyId]).viewCount + 1)]
  {
    if storyId !in db.stories {
      return false;
    }
    var s := db.stories[storyId];
    db.stories := db.stories[storyId := s.(viewCount := s.viewCount + 1)];
    found := true;
  }

  /** The copy a fork creates: owned by the forking user, titled as a
      remix, with the original's text and images and a link back to it, and
      none of its public state. */
  function Fork(original: Story, id: Id, owner: Id, now: int): (s: Story)
    ensures s.id == id && s.userId == owner
    ensures s.title == original.title + RemixSuffix
    ensures s.content == original.content && s.topic == original.topic && s.era == original.era
    ensures s.style == original.style && s.moral == original.moral
    ensures s.timeline == original.timeline && s.events == original.events
    ensures s.forkedFromId == Some(original.id)
    ensures s.images == original.images
    ensures !s.isPublic && s.publishedAt == None && s.viewCount == 0
    ensures s.audioUrl == None && s.audioAlignment == None && s.createdAt == now
  {
    Story(id, owner, original.title + RemixSuffix, original.content, original.topic, original.era, original.style,
          original.moral, original.timeline, original.events, original.images,
          false, None, 0, Some(original.id), None, None, now)
  }

  datatype ForkResult = ForkedAs(storyId: Id) | ForkError(error: string)

  /** `forkStory`; `now` is the time of the insert. */
  method ForkStory(db: Database, clerk: Option<ClerkUser>, storyId: Id, now: int) returns (r: ForkResult)
    requires db.Valid()
    modifies db`stories, db`nextId
    ensures db.Valid()
    ensures clerk.None? ==> r == ForkError(UnauthorizedMessage)
    ensures clerk.Some? && clerk.value.id !in db.users ==> r == ForkError(UserNotFoundMessage)
    ensures clerk.Some? && clerk.value.id in db.users && storyId !in old(db.stories) ==> r == ForkError(StoryNotFoundMessage)
    ensures r.ForkError? ==> db.stories == old(db.stories) && db.nextId == old(db.nextId)
    ensures r.ForkedAs? <==> clerk.Some? && clerk.value.id in db.users && storyId in old(db.stories)
    ensures r.ForkedAs? ==>
              && r.storyId == old(db.nextId) && r.storyId !in old(db.stories)
              && db.stories == old(db.stories)[r.storyId := Fork(old(db.stories[storyId]), r.storyId, db.users[clerk.value.id].id, now)]
              && db.nextId == old(db.nextId) + 1
    ensures storyId in old(db.stories) ==> storyId in db.stories && db.stories[storyId] == old(db.stories[storyId])
  {
    if clerk.None? {
      return ForkError(UnauthorizedMessage);
    }
    if clerk.value.id !in db.users {
      return ForkError(UserNotFoundMessage);
    }
    var dbUser := db.users[clerk.value.id];
    if storyId !in db.stories {
      return ForkError(StoryNotFoundMessage);
    }
    var original := db.stories[storyId];
    var id := db.FreshId();
    db.stories := db.stories[id := Fork(original, id, dbUser.id, now)];
    r := ForkedAs(id);
  }

  // ---------------------------------------------------------------------
  // The public feed

  datatype SortOrder = Recent | Popular

  function Skip(page: int, limit: nat): int {
    (page - 1) * limit
  }

  /** `Math.ceil(total / limit)`; `None` when the quotient is not finite. */
  function PageCount(total: nat, limit: nat): (p: Option<nat>)
    ensures p.None? <==> limit == 0
    ensures p.Some? ==> (p.value - 1) * limit < total <= p.value * limit
  {
    if limit == 0 then None
    else
      CeilDivBounds(total, limit);
      Some((total + limit - 1) / limit)
  }

  lemma CeilDivBounds(total: nat, limit: nat)
    requires limit > 0
    ensures ((total + limit - 1) / limit - 1) * limit < total <= ((total + limit - 1) / limit) * limit
  {
    var q := (total + limit - 1) / limit;
    var m := (total + limit - 1) % limit;
    assert total + limit - 1 == q * limit + m;
    assert (q - 1) * limit == q * limit - limit;
  }

  /** The entries a page shows: `take` entries after skipping `skip`. */
  function Window<T>(xs: seq<T>, skip: nat, take: nat): (w: seq<T>)
    ensures |w| <= take
    ensures skip <= |xs| ==> w == xs[skip..if skip + take <= |xs| then skip + take else |xs|]
    ensures skip >= |xs| ==> w == []
  {
    var lo := if skip <= |xs| then skip else |xs|;
    var hi := if skip + take <= |xs| then skip + take else |xs|;
    xs[lo..hi]
  }

  /** Every entry sits on one page, at position `i % limit` of page
      `i / limit + 1`, and that page exists. */
  lemma EntryOnItsPage<T>(xs: seq<T>, limit: nat, i: nat)
    requires limit > 0 && i < |xs|
    ensures var page := i / limit + 1;
            && 1 <= page <= PageCount(|xs|, limit).value
            && Skip(page, limit) == i - i % limit
            && var w := Window(xs, Skip(page, limit), limit);
            && i % limit < |w| && w[i % limit] == xs[i]
  {
    var page := i / limit + 1;
    var p := PageCount(|xs|, limit).value;
    assert i == (i / limit) * limit + i % limit;
    assert Skip(page, limit) == (i / limit) * limit;
    assert (page - 1) * limit <= i < p * limit;
    MulCancel(page - 1, p, limit);
  }

  lemma MulCancel(a: nat, b: nat, c: nat)
    requires a * c < b * c
    ensures a < b
  {
  }

  lemma MulMonotone(a: nat, b: nat, c: nat)
    requires a <= b
    ensures a * c <= b * c
  {
  }

  /** The pages after the last are empty. */
  lemma PastLastPageEmpty<T>(xs: seq<T>, limit: nat, page: int)
    requires limit > 0 && page > PageCount(|xs|, limit).value
    ensures Skip(page, limit) >= |xs| && Window(xs, Skip(page, limit), limit) == []
  {
    var p := PageCount(|xs|, limit).value;
    MulMonotone(p, page - 1, limit);
  }

  /** The ids of the public stories. */
  function PublicIds(stories: map<Id, Story>): (ids: set<Id>)
    ensures forall s :: s in ids <==> s in stories && stories[s].isPublic
  {
    set s | s in stories && stories[s].isPublic
  }

  /** The feed's sort key: the publication time, or the number of likes. */
  function FeedKey(stories: map<Id, Story>, likes: set<Like>, sortBy: SortOrder): Id -> int {
    match sortBy
    case Recent => (id: Id) => if id in stories && stories[id].publishedAt.Some? then stories[id].publishedAt.value else 0
    case Popular => (id: Id) => |LikesOn(likes, id)|
  }

  datatype FeedPage = FeedPage(stories: seq<Id>, total: nat, pages: Option<nat>)

  /** `getPublicFeed`: page `page` of the public stories ordered by the
      chosen key, `limit` per page, with the number of public stories and
      of pages. `None` when the skip is negative, which the database
      refuses. */
  ghost function GetPublicFeed(db: Database, page: int, limit: nat, sortBy: SortOrder): (r: Option<FeedPage>)
    reads db
    ensures r.None? <==> Skip(page, limit) < 0
    ensures r.Some? ==>
              var all := PublicIds(db.stories);
              && r.value.total == |all|
              && r.value.pages == PageCount(|all|, limit)
              && |r.value.stories| <= limit
              && (forall i :: 0 <= i < |r.value.stories| ==> r.value.stories[i] in db.stories && db.stories[r.value.stories[i]].isPublic)
              && exists ordered: seq<nat> :: Ranking.IsTop(all, FeedKey(db.stories, db.likes, sortBy), |all|, ordered)
                                   && r.value.stories == Window(ordered, Skip(page, limit), limit)
  {
    var skip := Skip(page, limit);
    if skip < 0 then None
    else
      var all := PublicIds(db.stories);
      var ordered := Ranking.Top(all, FeedKey(db.stories, db.likes, sortBy), |all|);
      var w := Window(ordered, skip, limit);
      assert forall i :: 0 <= i < |w| ==> w[i] in all;
      Some(FeedPage(w, |all|, PageCount(|all|, limit)))
  }

  // ---------------------------------------------------------------------
  // The public profile

  /** The `reduce` of `getUserProfile`: the like counts of the stories,
      added up in order. */
  function SumLikes(likes: set<Like>, ids: seq<Id>): nat
    decreases |ids|
  {
    if ids == [] then 0 else SumLikes(likes, ids[..|ids| - 1]) + |LikesOn(likes, ids[|ids| - 1])|
  }

  /** The ids listed. */
  function Elements(ids: seq<Id>): (e: set<Id>)
    ensures forall x :: x in e <==> x in ids
  {
    set i | 0 <= i < |ids| :: ids[i]
  }

  /** The likes of any of the given stories. */
  function LikesOnAny(likes: set<Like>, ids: set<Id>): (on: set<Like>)
    ensures forall l :: l in on <==> l in likes && l.storyId in ids
  {
    set l | l in likes && l.storyId in ids
  }

  /** Adding up the like counts of distinct stories counts every like of
      those stories once. */
  lemma {:induction false} SumLikesCountsEachLike(likes: set<Like>, ids: seq<Id>)
    requires forall i, j :: 0 <= i < j < |ids| ==> ids[i] != ids[j]
    ensures SumLikes(likes, ids) == |LikesOnAny(likes, Elements(ids))|
    decreases |ids|
  {
    if ids == [] {
      assert LikesOnAny(likes, Elements(ids)) == {};
    } else {
      var init := ids[..|ids| - 1];
      var last := ids[|ids| - 1];
      SumLikesCountsEachLike(likes, init);
      assert Elements(ids) == Elements(init) + {last};
      assert last !in Elements(init);
      LikesOnAnyAdd(likes, Elements(init), last);
    }
  }

  /** One more story adds its own likes to the count. */
  lemma LikesOnAnyAdd(likes: set<Like>, before: set<Id>, last: Id)
    requires last !in before
    ensures |LikesOnAny(likes, before + {last})| == |LikesOnAny(likes, before)| + |LikesOn(likes, last)|
  {
    assert LikesOnAny(likes, before + {last}) == LikesOnAny(likes, before) + LikesOn(likes, last);
    assert LikesOnAny(likes, before) !! LikesOn(likes, last);
  }

  /** The public stories of `userId`. */
  function PublicStoriesOf(stories: map<Id, Story>, userId: Id): (ids: set<Id>)
    ensures forall s :: s in ids <==> s in stories && stories[s].userId == userId && stories[s].isPublic
  {
    set s | s in stories && stories[s].userId == userId && stories[s].isPublic
  }

  datatype Profile = Profile(user: User, publicStories: seq<Id>, storyCount: nat, likesGiven: nat, totalLikesReceived: nat)

  /** `getUserProfile`: the user, their public stories newest first, the
      numbers of their stories and of the likes they gave, and the likes
      their public stories received. */
  ghost function GetUserProfile(db: Database, userId: Id): (p: Option<Profile>)
    reads db
    ensures p.None? <==> !db.HasUserId(userId)
    ensures p.Some? ==>
              var mine := PublicStoriesOf(db.stories, userId);
              && p.value.user in db.users.Values && p.value.user.id == userId
              && Ranking.IsTop(mine, FeedKey(db.stories, db.likes, Recent), |mine|, p.value.publicStories)
              && p.value.storyCount == |StoriesOf(db.stories, userId)|
              && p.value.likesGiven == |set l | l in db.likes && l.userId == userId|
              && p.value.totalLikesReceived == |LikesOnAny(db.likes, mine)|
  {
    if !db.HasUserId(userId) then None
    else
      var mine := PublicStoriesOf(db.stories, userId);
      var listed := Ranking.Top(mine, FeedKey(db.stories, db.likes, Recent), |mine|);
      Ranking.TopOfAllIsAll(mine, FeedKey(db.stories, db.likes, Recent), listed);
      SumLikesCountsEachLike(db.likes, listed);
      assert Elements(listed) == mine;
      Some(Profile(db.UserById(userId), listed, |StoriesOf(db.stories, userId)|,
                   |set l | l in db.likes && l.userId == userId|, SumLikes(db.likes, listed)))
  }
}
