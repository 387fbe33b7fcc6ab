/** A user's story history: the newest stories of a user, one story with
    its owner and counts, and the deletion of one's own story. */
module History {
  import opened Wrappers
  import opened Db
  import Ranking

  const HistoryLimit: nat := 10

  /** The columns the history list shows. */
  datatype StorySummary = StorySummary(id: Id, title: string, topic: string, era: string, createdAt: int, isPublic: bool)

  /** The summary of the row stored under `id`. */
  function Summary(id: Id, s: Story): StorySummary {
    StorySummary(id, s.title, s.topic, s.era, s.createdAt, s.isPublic)
  }

  /** The sort key of `getUserStories`: the creation time. */
  function CreatedAt(stories: map<Id, Story>): Id -> int {
    id => if id in stories then stories[id].createdAt else 0
  }

  function Summaries(stories: map<Id, Story>, ids: seq<Id>): (r: seq<StorySummary>)
    requires forall i :: 0 <= i < |ids| ==> ids[i] in stories
    ensures |r| == |ids| && forall i :: 0 <= i < |ids| ==> r[i] == Summary(ids[i], stories[ids[i]])
  {
    seq(|ids|, i requires 0 <= i < |ids| => Summary(ids[i], stories[ids[i]]))
  }

  function Ids(r: seq<StorySummary>): (ids: seq<Id>)
    ensures |ids| == |r| && forall i :: 0 <= i < |r| ==> ids[i] == r[i].id
  {
    seq(|r|, i requires 0 <= i < |r| => r[i].id)
  }

  /** `getUserStories`: the summaries of the user's ten newest stories,
      newest first (stories created at the same time in any order); none
      for an unknown user. */
  ghost function GetUserStories(db: Database, clerkId: string): (r: seq<StorySummary>)
    reads db
    ensures clerkId !in db.users ==> r == []
    ensures clerkId in db.users ==>
              && Ranking.IsTop(StoriesOf(db.stories, db.users[clerkId].id), CreatedAt(db.stories), HistoryLimit, Ids(r))
              && forall i :: 0 <= i < |r| ==> r[i] == Summary(r[i].id, db.stories[r[i].id])
  {
    if clerkId !in db.users then []
    else
      var ids := Ranking.Top(StoriesOf(db.stories, db.users[clerkId].id), CreatedAt(db.stories), HistoryLimit);
      var r := Summaries(db.stories, ids);
      assert Ids(r) == ids;
      r
  }

  /** A story as the story page loads it: the row (with its images), its
      owner's public fields and its numbers of likes and comments. */
  datatype StoryView = StoryView(story: Story, owner: Option<User>, likes: nat, comments: nat)

  /** `getStoryById`. */
  ghost function GetStoryById(db: Database, storyId: Id): (v: Option<StoryView>)
    reads db
    ensures v.None? <==> storyId !in db.stories
    ensures v.Some? ==>
              && v.value.story == db.stories[storyId]
              && v.value.likes == db.LikeCount(storyId) && v.value.comments == db.CommentCount(storyId)
              && (v.value.owner.Some? <==> db.HasUserId(db.stories[storyId].userId))
              && (v.value.owner.Some? ==> v.value.owner.value.id == db.stories[storyId].userId && v.value.owner.value in db.users.Values)
  {
    if storyId !in db.stories then None
    else
      var s := db.stories[storyId];
      Some(StoryView(s, if db.HasUserId(s.userId) then Some(db.UserById(s.userId)) else None,
                     db.LikeCount(storyId), db.CommentCount(storyId)))
  }

  datatype DeleteResult = Deleted | DeleteError(error: string)

  const UnauthorizedMessage: string := "Unauthorized: You can only delete your own stories"

  /** `deleteStory`: only the owner may delete; the story's likes and
      comments go with it. */
  method DeleteStory(db: Database, storyId: Id, clerkId: string) returns (r: DeleteResult)
    requires db.Valid()
    modifies db`stories, db`likes, db`comments
    ensures db.Valid()
    ensures storyId !in old(db.stories) ==>
              r == DeleteError("Story not found") && db.stories == old(db.stories) && db.likes == old(db.likes) && db.comments == old(db.comments)
    ensures storyId in old(db.stories) && (clerkId !in db.users || old(db.stories[storyId]).userId != db.users[clerkId].id) ==>
              r == DeleteError(UnauthorizedMessage) && db.stories == old(db.stories) && db.likes == old(db.likes) && db.comments == old(db.comments)
    ensures r == Deleted <==> storyId in old(db.stories) && clerkId in db.users && old(db.stories[storyId]).userId == db.users[clerkId].id
    ensures r == Deleted ==>
              && db.stories == old(db.stories) - {storyId}
              && db.likes == set l | l in old(db.likes) && l.storyId != storyId
              && db.comments == map m | m in old(db.comments) && old(db.comments)[m].storyId != storyId :: old(db.comments)[m]
    ensures r == Deleted ==>
              && storyId !in db.stories
              && (forall l :: l in db.likes ==> l.storyId != storyId)
              && (forall m :: m in db.comments ==> db.comments[m].storyId != storyId)
    ensures forall l :: l in old(db.likes) && l.storyId != storyId ==> l in db.likes
    ensures forall m :: m in old(db.comments) && old(db.comments)[m].storyId != storyId ==>
              m in db.comments && db.comments[m] == old(db.comments)[m]
  {
    if storyId !in db.stories {
      return DeleteError("Story not found");
    }
    var story := db.stories[storyId];
    if clerkId !in db.users || story.userId != db.users[clerkId].id {
      return DeleteError(UnauthorizedMessage);
    }
    db.stories := db.stories - {storyId};
    db.likes := set l | l in db.likes && l.storyId != storyId;
    db.comments := map m | m in db.comments && db.comments[m].storyId != storyId :: db.comments[m];
    r := Deleted;
  }
}
