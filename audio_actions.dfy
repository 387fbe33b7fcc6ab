/** The narration actions: a story's audio is generated once, stored on the
    story row and served from there afterwards. The audio endpoint is reached
    over HTTP; what it answers is a parameter. */
module AudioActions {
  import opened Wrappers
  import opened Db
  import AudioService

  /** What the HTTP client hands back for `POST /generate-audio`: a body
      whose `audioUrl` and `alignment` may be missing, or an error. */
  datatype AudioReply =
    | AudioBody(audioUrl: Option<string>, alignment: Option<seq<AudioService.Event>>)
    | AudioRequestFailed(message: string)

  /** What the audio actions return. `getStoredAudio` sends no `cached`
      field; its `cached` is `false` here, which is what the absent field
      reads as. */
  datatype AudioResult =
    | Audio(audioUrl: string, alignment: Option<seq<AudioService.Event>>, cached: bool)
    | AudioError(error: string)

  const NoAudioUrlMessage: string := "No audio URL returned"
  const NoAudioMessage: string := "No audio found"
  /** Stands for the database client's message when the row to update does
      not exist. */
  const MissingRecordMessage: string := "Record to update not found."

  /** A story whose row holds a non-empty audio URL and an alignment. */
  predicate HasStoredAudio(stories: map<Id, Story>, storyId: Id): (b: bool)
    ensures b <==> storyId in stories && stories[storyId].audioUrl.Some? && stories[storyId].audioUrl.value != []
                   && stories[storyId].audioAlignment.Some?
  {
    storyId in stories && Truthy(stories[storyId].audioUrl) && stories[storyId].audioAlignment.Some?
  }

  /** `getStoredAudio`. */
  function GetStoredAudio(stories: map<Id, Story>, storyId: Id): (r: AudioResult)
    ensures r.Audio? <==> HasStoredAudio(stories, storyId)
    ensures r.Audio? ==> r.audioUrl == stories[storyId].audioUrl.value && r.alignment == stories[storyId].audioAlignment
    ensures r.AudioError? ==> r.error == NoAudioMessage
  {
    if HasStoredAudio(stories, storyId) then
      Audio(stories[storyId].audioUrl.value, stories[storyId].audioAlignment, false)
    else AudioError(NoAudioMessage)
  }

  /** `generateAndSaveAudio`. `generate` is the audio endpoint's answer;
      `endpointCalled` says whether it was asked. */
  method GenerateAndSaveAudio(db: Database, storyId: Id, text: string, storyType: string,
                              generate: (string, string) -> AudioReply)
    returns (r: AudioResult, endpointCalled: bool)
    requires db.Valid()
    modifies db`stories
    ensures db.Valid()
    ensures endpointCalled <==> !old(HasStoredAudio(db.stories, storyId))
    ensures !endpointCalled ==>
              && db.stories == old(db.stories) && HasStoredAudio(db.stories, storyId)
              && r == Audio(db.stories[storyId].audioUrl.value, db.stories[storyId].audioAlignment, true)
    ensures endpointCalled ==>
              var reply := generate(text, storyType);
              if reply.AudioRequestFailed? then
                r == AudioError(reply.message) && db.stories == old(db.stories)
              else if !Truthy(reply.audioUrl) then
                r == AudioError(NoAudioUrlMessage) && db.stories == old(db.stories)
              else if storyId !in old(db.stories) then
                r == AudioError(MissingRecordMessage) && db.stories == old(db.stories)
              else
                && db.stories == old(db.stories)[storyId := old(db.stories[storyId]).(
                                   audioUrl := reply.audioUrl, audioAlignment := Some(reply.alignment.GetOr([])))]
                && r == Audio(reply.audioUrl.value, reply.alignment, false)
    ensures r.Audio? ==> HasStoredAudio(db.stories, storyId) && db.stories[storyId].audioUrl == Some(r.audioUrl)
  {
    if HasStoredAudio(db.stories, storyId) {
      var s := db.stories[storyId];
      return Audio(s.audioUrl.value, s.audioAlignment, true), false;
    }
    endpointCalled := true;
    var reply := generate(text, storyType);
    if reply.AudioRequestFailed? {
      return AudioError(reply.message), true;
    }
    if !Truthy(reply.audioUrl) {
      return AudioError(NoAudioUrlMessage), true;
    }
    if storyId !in db.stories {
      return AudioError(MissingRecordMessage), true;
    }
    var updated := db.stories[storyId].(audioUrl := reply.audioUrl, audioAlignment := Some(reply.alignment.GetOr([])));
    db.stories := db.stories[storyId := updated];
    r := Audio(reply.audioUrl.value, reply.alignment, false);
  }

  /** Once audio was saved, it is stored: `getStoredAudio` serves the saved
      URL with the alignment (an empty one when the endpoint sent none), and
      the next generation is served from the row. */
  lemma SavedAudioIsStored(stories: map<Id, Story>, storyId: Id, url: string, alignment: Option<seq<AudioService.Event>>)
    requires storyId in stories && url != []
    ensures var saved := stories[storyId := stories[storyId].(audioUrl := Some(url), audioAlignment := Some(alignment.GetOr([])))];
            && HasStoredAudio(saved, storyId)
            && GetStoredAudio(saved, storyId) == Audio(url, Some(alignment.GetOr([])), false)
  {
  }

  /** After a successful generation the next request is a cache hit for
      the same URL: of two requests, at most one reaches the endpoint. */
  method GenerateTwice(db: Database, storyId: Id, text: string, storyType: string, generate: (string, string) -> AudioReply)
    returns (first: AudioResult, second: AudioResult, calls: nat)
    requires db.Valid()
    modifies db`stories
    ensures first.Audio? ==> calls <= 1 && second.Audio? && second.cached && second.audioUrl == first.audioUrl
  {
    var called1, called2;
    first, called1 := GenerateAndSaveAudio(db, storyId, text, storyType, generate);
    second, called2 := GenerateAndSaveAudio(db, storyId, text, storyType, generate);
    calls := (if called1 then 1 else 0) + (if called2 then 1 else 0);
  }
}
