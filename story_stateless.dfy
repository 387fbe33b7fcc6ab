/** The stateless story action: the story is not saved, but generating it
    costs one credit, checked before the request and deducted after a story
    came back. */
module StoryStateless {
  import opened Wrappers
  import Text
  import opened Db
  import Endpoints
  import Credits
  import StoryActions

  datatype GenerateResult =
    | Generated(story: Endpoints.StoryBody, images: seq<Endpoints.GeneratedImage>, creditsRemaining: Option<int>)
    | GenerateError(error: string)

  function InsufficientMessage(cost: int): string {
    "Insufficient credits. You need " + Text.IntToString(cost) + " credit(s) to generate a story."
  }

  const GenerationKind: string := "STORY_GENERATION"

  /** `generateAndSaveStory` (stateless). Returns the result and the request
      sent to the endpoint, if one was sent. */
  method GenerateAndSaveStory(db: Database, userId: string, email: string, topic: string, era: string, style: string,
                              storyType: string, backend: Endpoints.StoryRequest -> StoryActions.BackendReply)
    returns (r: GenerateResult, request: Option<Endpoints.StoryRequest>)
    requires db.Valid()
    modifies db`users
    ensures db.Valid()
    ensures request.Some? <==> old(Credits.HasEnoughCredits(db, userId, Credits.StoryGenerationCost))
    ensures !old(Credits.HasEnoughCredits(db, userId, Credits.StoryGenerationCost)) ==>
              r == GenerateError(InsufficientMessage(1)) && db.users == old(db.users)
    ensures request.Some? ==>
              && request.value == Endpoints.StoryRequest(userId, email, topic, era, style, storyType)
              && var reply := backend(request.value);
              if reply.Success? && reply.story.Some? then
                && userId in old(db.users)
                && var story := reply.story.value;
                && db.users == old(db.users)[userId := Credits.Debit(old(db.users[userId]), 1, GenerationKind,
                                                                    Some("Generated story: " + story.title), None)]
                && r == Generated(story, reply.images, Some(old(db.users[userId].credits) - 1))
              else
                && db.users == old(db.users)
                && r == GenerateError(if reply.Success? then StoryActions.NoStoryMessage else StoryActions.RequestError(reply))
    ensures r.Generated? ==> r.creditsRemaining.Some? && r.creditsRemaining.value >= 0
  {
    if !Credits.HasEnoughCredits(db, userId, Credits.StoryGenerationCost) {
      return GenerateError(InsufficientMessage(Credits.StoryGenerationCost)), None;
    }
    var req := Endpoints.StoryRequest(userId, email, topic, era, style, storyType);
    request := Some(req);
    var reply := backend(req);
    if !reply.Success? {
      return GenerateError(StoryActions.RequestError(reply)), request;
    }
    if reply.story.None? {
      return GenerateError(StoryActions.NoStoryMessage), request;
    }
    var story := reply.story.value;
    var deducted := Credits.DeductCredits(db, userId, Credits.StoryGenerationCost, GenerationKind,
                                          Some("Generated story: " + story.title), None);
    // a failed deduction is tolerated: the story is returned without a balance
    var remaining := if deducted.CreditOk? then Some(deducted.newBalance) else None;
    r := Generated(story, reply.images, remaining);
  }
}
