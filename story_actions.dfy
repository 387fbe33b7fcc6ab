/** The persisting story action: make sure the user row exists, ask the
    story endpoint for a story and save it with its images. The endpoint is
    reached over HTTP; what it answers is a parameter. */
module StoryActions {
  import opened Wrappers
  import Text
  import opened Db
  import Endpoints

  /** What the HTTP client hands back for `POST /generate`: a 2xx body whose
      `story` may be missing, an error status with the body's `detail` (if
      any) and the client's message, or no response at all. */
  datatype BackendReply =
    | Success(story: Option<Endpoints.StoryBody>, images: seq<Endpoints.GeneratedImage>)
    | ErrorStatus(detail: Option<string>, message: string)
    | NoResponse(message: string)

  /** The HTTP client's message for an error status. */
  function StatusMessage(status: int): string {
    "Request failed with status code " + Text.IntToString(status)
  }

  /** The reply the client sees when the endpoint produced `outcome`. */
  function ReplyOf(outcome: Endpoints.HttpOutcome): (r: BackendReply)
    ensures outcome.Ok? ==> r == Success(Some(outcome.story), outcome.images)
    ensures outcome.HttpError? ==> r.ErrorStatus? && r.detail == Some(outcome.detail)
  {
    match outcome
    case Ok(story, images) => Success(Some(story), images)
    case HttpError(status, detail) => ErrorStatus(Some(detail), StatusMessage(status))
  }

  /** The error an action reports for a failed request: the body's `detail`
      when it is a non-empty string, else the client's message. */
  function RequestError(reply: BackendReply): (e: string)
    requires !reply.Success?
    ensures reply.ErrorStatus? && Truthy(reply.detail) ==> e == reply.detail.value
    ensures reply.ErrorStatus? && !Truthy(reply.detail) ==> e == reply.message
    ensures reply.NoResponse? ==> e == reply.message
  {
    if reply.ErrorStatus? && Truthy(reply.detail) then reply.detail.value else reply.message
  }

  /** The endpoint's failure reaches the action as its `detail`. */
  lemma EndpointFailureDetail(outcome: Endpoints.HttpOutcome)
    requires outcome.HttpError? && outcome.detail != []
    ensures !ReplyOf(outcome).Success? && RequestError(ReplyOf(outcome)) == outcome.detail
  {
  }

  const NoStoryMessage: string := "No story returned from AI"

  datatype StoryResult = Saved(story: Story) | StoryError(error: string)

  function SavedImage(img: Endpoints.GeneratedImage): (i: Image)
    ensures i.url == img.url && i.prompt == img.prompt
    ensures i.category == if img.category == [] then "Generated" else img.category
  {
    Image(img.url, img.prompt, if img.category == "" then "Generated" else img.category)
  }

  /** The story row saved for a generated story: its fields, its images and
      the schema's defaults (private, unpublished, never viewed, no audio). */
  function StoryRow(id: Id, userId: Id, body: Endpoints.StoryBody, images: seq<Endpoints.GeneratedImage>, now: int): (s: Story)
    ensures s.id == id && s.userId == userId && s.title == body.title && s.content == body.content
    ensures s.topic == body.topic && s.era == body.era && s.style == body.style && s.moral == body.moral
    ensures s.timeline == body.timeline && s.events == body.events
    ensures |s.images| == |images| && forall i :: 0 <= i < |images| ==> s.images[i] == SavedImage(images[i])
    ensures !s.isPublic && s.publishedAt == None && s.viewCount == 0 && s.forkedFromId == None
    ensures s.audioUrl == None && s.audioAlignment == None && s.createdAt == now
  {
    Story(id, userId, body.title, body.content, body.topic, body.era, body.style, body.moral,
          body.timeline, body.events, seq(|images|, i requires 0 <= i < |images| => SavedImage(images[i])),
          false, None, 0, None, None, None, now)
  }

  /** The user row created for an unknown identity: no name or picture, the
      schema's default balance and no history. */
  function NewUser(id: Id, clerkId: string, email: string, credits: int): User {
    User(id, clerkId, email, None, None, credits, [])
  }

  /** `generateAndSaveStory`. `backend` is the endpoint's answer to a
      request and `now` the time of the insert. The user row is created
      before the request and stays when the request fails; the story is
      saved only when one came back. */
  method GenerateAndSaveStory(db: Database, userId: string, email: string, topic: string, era: string, style: string,
                              storyType: string, backend: Endpoints.StoryRequest -> BackendReply, now: int)
    returns (r: StoryResult, request: Endpoints.StoryRequest)
    requires db.Valid()
    modifies db`users, db`stories, db`nextId
    ensures db.Valid()
    ensures request == Endpoints.StoryRequest(userId, email, topic, era, style, storyType)
    ensures userId in old(db.users) ==> db.users == old(db.users)
    ensures userId !in old(db.users) ==>
              db.users == old(db.users)[userId := NewUser(old(db.nextId), userId, email, db.defaultCredits)]
    ensures userId in db.users
    ensures var reply := backend(request);
            var owner := db.users[userId].id;
            var firstFree := if userId in old(db.users) then old(db.nextId) else old(db.nextId) + 1;
            if reply.Success? && reply.story.Some? then
              && r == Saved(StoryRow(firstFree, owner, reply.story.value, reply.images, now))
              && db.stories == old(db.stories)[firstFree := r.story]
              && db.nextId == firstFree + 1
            else
              && r == StoryError(if reply.Success? then NoStoryMessage else RequestError(reply))
              && db.stories == old(db.stories) && db.nextId == firstFree
  {
    var user := EnsureUser(db, userId, email);
    request := Endpoints.StoryRequest(userId, email, topic, era, style, storyType);
    var reply := backend(request);
    if !reply.Success? {
      return StoryError(RequestError(reply)), request;
    }
    if reply.story.None? {
      return StoryError(NoStoryMessage), request;
    }
    var row := SaveStory(db, user.id, reply.story.value, reply.images, now);
    r := Saved(row);
  }

  /** The lookup of the user row, created when missing. */
  method EnsureUser(db: Database, userId: string, email: string) returns (user: User)
    requires db.Valid()
    modifies db`users, db`nextId
    ensures db.Valid()
    ensures userId in db.users && user == db.users[userId]
    ensures userId in old(db.users) ==> db.users == old(db.users) && db.nextId == old(db.nextId)
    ensures userId !in old(db.users) ==>
              && db.users == old(db.users)[userId := NewUser(old(db.nextId), userId, email, db.defaultCredits)]
              && db.nextId == old(db.nextId) + 1
  {
    if userId !in db.users {
      var id := db.FreshId();
      db.users := db.users[userId := NewUser(id, userId, email, db.defaultCredits)];
    }
    user := db.users[userId];
  }

  /** The insert of a generated story under a fresh id. */
  method SaveStory(db: Database, owner: Id, body: Endpoints.StoryBody, images: seq<Endpoints.GeneratedImage>, now: int)
    returns (row: Story)
    requires db.Valid()
    modifies db`stories, db`nextId
    ensures db.Valid()
    ensures row == StoryRow(old(db.nextId), owner, body, images, now)
    ensures db.stories == old(db.stories)[row.id := row] && db.nextId == old(db.nextId) + 1
  {
    var id := db.FreshId();
    row := StoryRow(id, owner, body, images, now);
    db.stories := db.stories[id := row];
  }
}
