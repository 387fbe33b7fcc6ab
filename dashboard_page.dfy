/** The dashboard: the story form, the story-type override for
    contemporary topics, the call of the persisting story action, and the
    mapping of a saved story into the shape the story view expects. */
module DashboardPage {
  import opened Wrappers
  import Text
  import opened Db
  import Endpoints
  import StoryActions
  import History

  /** The topics words that mark a contemporary request as creative. */
  const CreativeKeywords: seq<string> := ["magical", "fantasy", "adventure", "kids", "dragon", "princess", "space", "alien", "robot"]

  const GuestId: string := "guest"
  const GuestEmail: string := "guest@example.com"

  /** Does the lower-cased topic contain one of the keywords? */
  predicate HasCreativeKeyword(topic: string) {
    exists k :: 0 <= k < |CreativeKeywords| && Text.Contains(Text.ToLowerAscii(topic), CreativeKeywords[k])
  }

  /** The story type sent: a historical request set in the contemporary era
      becomes creative when its topic has a creative keyword; every other
      choice is sent as chosen. */
  function EffectiveStoryType(topic: string, era: string, storyType: string): (t: string)
    ensures t == "Creative" || t == storyType
    ensures era == "Contemporary" && storyType == "Historical" ==> (t == "Creative" <==> HasCreativeKeyword(topic))
    ensures era != "Contemporary" || storyType != "Historical" ==> t == storyType
  {
    if era == "Contemporary" && storyType == "Historical" && AnyKeyword(Text.ToLowerAscii(topic), CreativeKeywords) then "Creative"
    else storyType
  }

  /** The `some` over the keywords. */
  function AnyKeyword(text: string, keywords: seq<string>): (b: bool)
    ensures b <==> exists k :: 0 <= k < |keywords| && Text.Contains(text, keywords[k])
    decreases |keywords|
  {
    if keywords == [] then false
    else Text.Contains(text, keywords[0]) || AnyKeyword(text, keywords[1..])
  }

  /** A space-themed historical topic in the contemporary era is sent as
      creative; the same topic in another era is sent as chosen. */
  lemma OverrideExample()
    ensures EffectiveStoryType("Space Race", "Contemporary", "Historical") == "Creative"
    ensures EffectiveStoryType("Space Race", "Medieval", "Historical") == "Historical"
  {
    assert Text.ToLowerAscii("Space Race") == "space race";
    assert Text.Contains("space race", "space") by {
      assert Text.OccursAt("space race", "space", 0);
    }
    assert CreativeKeywords[6] == "space";
  }

  /** The story in the shape the view expects: the row, its content,
      timeline and events under the generator's names, and its images. */
  datatype ViewResult = ViewResult(story: Story, storyContent: string, timeline: seq<Endpoints.TimelineItem>,
                                   mainEventsSummary: seq<string>, images: seq<Image>)

  function ToViewResult(s: Story): (v: ViewResult)
    ensures v.story == s && v.storyContent == s.content && v.timeline == s.timeline
    ensures v.mainEventsSummary == s.events && v.images == s.images
  {
    ViewResult(s, s.content, s.timeline, s.events, s.images)
  }

  /** The signed-in user as the page sees them. */
  datatype SignedIn = SignedIn(id: Option<string>, email: Option<string>)

  function UserIdOf(user: Option<SignedIn>): string {
    if user.Some? && Truthy(user.value.id) then user.value.id.value else GuestId
  }

  function EmailOf(user: Option<SignedIn>): string {
    if user.Some? && Truthy(user.value.email) then user.value.email.value else GuestEmail
  }

  /** A missing user or missing fields are sent as the guest. */
  lemma GuestDefaults(user: Option<SignedIn>)
    ensures user.None? ==> UserIdOf(user) == "guest" && EmailOf(user) == "guest@example.com"
    ensures user.Some? && Truthy(user.value.id) ==> UserIdOf(user) == user.value.id.value
  {
  }

  /** The story action called from the form: the caller's id and email (the
      guest's when missing) and the effective story type. */
  method Submit(db: Database, user: Option<SignedIn>, topic: string, era: string, style: string, storyType: string,
                backend: Endpoints.StoryRequest -> StoryActions.BackendReply, now: int)
    returns (r: StoryActions.StoryResult, request: Endpoints.StoryRequest)
    requires db.Valid()
    modifies db`users, db`stories, db`nextId
    ensures db.Valid()
    ensures request == Endpoints.StoryRequest(UserIdOf(user), EmailOf(user), topic, era, style,
                                              EffectiveStoryType(topic, era, storyType))
    ensures UserIdOf(user) in old(db.users) ==> db.users == old(db.users)
    ensures UserIdOf(user) !in old(db.users) ==>
              db.users == old(db.users)[UserIdOf(user) := StoryActions.NewUser(old(db.nextId), UserIdOf(user), EmailOf(user), db.defaultCredits)]
    ensures UserIdOf(user) in db.users
    ensures var reply := backend(request);
            var owner := db.users[UserIdOf(user)].id;
            var firstFree := if UserIdOf(user) in old(db.users) then old(db.nextId) else old(db.nextId) + 1;
            if reply.Success? && reply.story.Some? then
              && r == StoryActions.Saved(StoryActions.StoryRow(firstFree, owner, reply.story.value, reply.images, now))
              && db.stories == old(db.stories)[firstFree := r.story]
              && db.nextId == firstFree + 1
            else
              && db.stories == old(db.stories) && db.nextId == firstFree
    ensures var reply := backend(request);
            && (r.Saved? <==> reply.Success? && reply.story.Some?)
            && (r.Saved? ==> r.story.title == reply.story.value.title && r.story.content == reply.story.value.content)
            && (r.StoryError? ==> r.error == (if reply.Success? then StoryActions.NoStoryMessage
                                              else StoryActions.RequestError(reply)))
  {
    r, request := StoryActions.GenerateAndSaveStory(db, UserIdOf(user), EmailOf(user), topic, era, style,
                                                    EffectiveStoryType(topic, era, storyType), backend, now);
  }

  class Dashboard {
    var topic: string
    var storyType: string
    var era: string
    var style: string
    var loading: bool
    var result: Option<ViewResult>
    /** The alerts shown, oldest first. */
    var alerts: seq<string>

    constructor ()
      ensures topic == "" && storyType == "Historical" && era == "Medieval" && style == "Narrative"
      ensures !loading && result == None && alerts == []
    {
      topic, storyType, era, style := "", "Historical", "Medieval", "Narrative";
      loading, result, alerts := false, None, [];
    }

    /** `loadStoryFromHistory`, once `getStoryById` answered for `storyId`
        in `db`: the story found, or `None` when it is missing or the lookup
        threw. */
    method LoadStoryFromHistory(ghost db: Database, storyId: Id, story: Option<Story>)
      requires story.Some? ==> History.GetStoryById(db, storyId).Some?
                               && story.value == History.GetStoryById(db, storyId).value.story
      modifies this`result
      ensures story.Some? ==> result == Some(ToViewResult(story.value))
      ensures story.Some? ==> storyId in db.stories && result == Some(ToViewResult(db.stories[storyId]))
      ensures story.None? ==> result == old(result)
    {
      if story.Some? {
        result := Some(ToViewResult(story.value));
      }
    }

    /** `handleGenerate`. Returns the request the story action was sent and
        what it answered, when it was called. */
    method HandleGenerate(db: Database, user: Option<SignedIn>, backend: Endpoints.StoryRequest -> StoryActions.BackendReply, now: int)
      returns (request: Option<Endpoints.StoryRequest>, response: Option<StoryActions.StoryResult>)
      requires db.Valid()
      modifies this`loading, this`result, this`alerts, db`users, db`stories, db`nextId
      ensures db.Valid()
      ensures topic == [] ==>
                && request == None && response == None
                && loading == old(loading) && result == old(result) && alerts == old(alerts)
                && db.users == old(db.users) && db.stories == old(db.stories) && db.nextId == old(db.nextId)
      ensures topic != [] ==>
                && request == Some(Endpoints.StoryRequest(UserIdOf(user), EmailOf(user), topic, era, style,
                                                          EffectiveStoryType(topic, era, storyType)))
                && response.Some? && !loading
      ensures topic != [] && response.Some? && request.Some? ==>
                var reply := backend(request.value);
                && (response.value.Saved? <==> reply.Success? && reply.story.Some?)
                && (response.value.Saved? ==>
                      && response.value.story.title == reply.story.value.title
                      && result == Some(ToViewResult(response.value.story)) && alerts == old(alerts))
                && (response.value.StoryError? ==>
                      && result == None
                      && response.value.error == (if reply.Success? then StoryActions.NoStoryMessage
                                                  else StoryActions.RequestError(reply))
                      && alerts == old(alerts) + ["Generation failed: " + response.value.error])
    {
      if topic == [] {
        return None, None;
      }
      loading := true;
      result := None;
      var r, sent := Submit(db, user, topic, era, style, storyType, backend, now);
      request, response := Some(sent), Some(r);
      if r.Saved? {
        result := Some(ToViewResult(r.story));
      } else {
        alerts := alerts + ["Generation failed: " + r.error];
      }
      loading := false;
    }
  }
}
