/** The stateless story endpoint `POST /generate`: the error gate on the
    story generator's result, the cap of two illustrated prompts with a pause
    between image requests, and the assembly of the response with its
    defaults. The story and prompt generators are oracles whose results are
    parameters; the image API is modelled by `ImageService`. */
module Endpoints {
  import opened Wrappers
  import ImageService

  datatype StoryRequest = StoryRequest(clerkId: string, email: string, topic: string, era: string, style: string, storyType: string)

  datatype TimelineItem = TimelineItem(date: string, event: string)

  /** What the story generator returns: nothing (or an empty object), an
      object with an `"error"` entry, or the story's fields, each of which
      may be absent. */
  datatype GeneratedStory =
    | NoStory
    | StoryFailure(error: string)
    | StoryFields(title: Option<string>, content: Option<string>, moral: Option<string>,
                  timeline: Option<seq<TimelineItem>>, events: Option<seq<string>>)

  /** One entry of `image_prompts`; either field may be absent. */
  datatype ImagePrompt = ImagePrompt(scene: Option<string>, negative: Option<string>)

  datatype GeneratedImage = GeneratedImage(url: string, prompt: string, category: string)

  datatype StoryBody = StoryBody(title: string, content: string, moral: string, timeline: seq<TimelineItem>,
                                 events: seq<string>, topic: string, era: string, style: string)

  datatype HttpOutcome = Ok(story: StoryBody, images: seq<GeneratedImage>) | HttpError(status: int, detail: string)

  /** What the endpoint does between the two generator calls and the reply,
      in order. */
  datatype Step = Sleep(seconds: int) | ImageRequest(prompt: string, negative: string)

  const MaxImages: nat := 2
  const ImagePause: int := 3

  /** The replies the image API gives to the requests for image `i`. */
  function RepliesFor(reply: (nat, int) -> ImageService.Reply, i: nat): int -> ImageService.Reply {
    k => reply(i, k)
  }

  function Scene(p: ImagePrompt): string {
    p.scene.GetOr("")
  }

  function Negative(p: ImagePrompt): string {
    p.negative.GetOr("")
  }

  /** The prompts illustrated: the first two, in order. */
  function Illustrated(prompts: seq<ImagePrompt>): (ps: seq<ImagePrompt>)
    ensures |ps| == if |prompts| < MaxImages then |prompts| else MaxImages
    ensures ps <= prompts
  {
    if |prompts| <= MaxImages then prompts else prompts[..MaxImages]
  }

  /** The story part of the reply: the generator's fields with their
      defaults, and the request's topic, era and style. */
  function Body(s: GeneratedStory, request: StoryRequest): (b: StoryBody)
    requires s.StoryFields?
    ensures b.title == (if s.title.Some? then s.title.value else "Untitled")
    ensures b.content == (if s.content.Some? then s.content.value else "")
    ensures b.moral == (if s.moral.Some? then s.moral.value else "")
    ensures b.timeline == (if s.timeline.Some? then s.timeline.value else [])
    ensures b.events == (if s.events.Some? then s.events.value else [])
    ensures b.topic == request.topic && b.era == request.era && b.style == request.style
  {
    StoryBody(s.title.GetOr("Untitled"), s.content.GetOr(""), s.moral.GetOr(""), s.timeline.GetOr([]),
              s.events.GetOr([]), request.topic, request.era, request.style)
  }

  /** The trace of requesting the chosen images: a pause before every
      request but the first. */
  function ImageTrace(chosen: seq<ImagePrompt>): (t: seq<Step>)
    requires |chosen| <= MaxImages
    ensures |chosen| == 0 ==> t == []
    ensures |chosen| == 1 ==> t == [ImageRequest(Scene(chosen[0]), Negative(chosen[0]))]
    ensures |chosen| == 2 ==> t == [ImageRequest(Scene(chosen[0]), Negative(chosen[0])), Sleep(3),
                                   ImageRequest(Scene(chosen[1]), Negative(chosen[1]))]
  {
    if |chosen| == 0 then []
    else if |chosen| == 1 then [ImageRequest(Scene(chosen[0]), Negative(chosen[0]))]
    else [ImageRequest(Scene(chosen[0]), Negative(chosen[0])), Sleep(ImagePause), ImageRequest(Scene(chosen[1]), Negative(chosen[1]))]
  }

  /** The first loop of `create_story`: one image request per chosen prompt,
      in order, with a pause between two requests. */
  method RequestImages(chosen: seq<ImagePrompt>, apiKey: string, reply: (nat, int) -> ImageService.Reply)
    returns (trace: seq<Step>, calls: seq<ImageService.ImageCall>, imageUrls: seq<string>)
    requires |chosen| <= MaxImages
    ensures |calls| == |chosen| && |imageUrls| == |chosen|
    ensures forall i :: 0 <= i < |calls| ==>
              calls[i] == ImageService.GenerateImage(apiKey, Scene(chosen[i]), Negative(chosen[i]), 0, RepliesFor(reply, i))
              && imageUrls[i] == calls[i].url
    ensures trace == ImageTrace(chosen)
  {
    imageUrls := [];
    trace, calls := [], [];
    for i := 0 to |chosen|
      invariant |calls| == i && |imageUrls| == i
      invariant forall j :: 0 <= j < i ==>
                  calls[j] == ImageService.GenerateImage(apiKey, Scene(chosen[j]), Negative(chosen[j]), 0, RepliesFor(reply, j))
                  && imageUrls[j] == calls[j].url
      invariant trace == ImageTrace(chosen[..i])
    {
      var desc := Scene(chosen[i]);
      var neg := Negative(chosen[i]);
      if i > 0 {
        trace := trace + [Sleep(ImagePause)];
      }
      trace := trace + [ImageRequest(desc, neg)];
      var call := ImageService.GenerateImage(apiKey, desc, neg, 0, RepliesFor(reply, i));
      calls := calls + [call];
      imageUrls := imageUrls + [call.url];
    }
    assert chosen[..|chosen|] == chosen;
  }

  /** The second loop of `create_story`: one entry per URL, with the
      prompt's scene (`"Unknown"` when absent). */
  method ImageEntries(imageUrls: seq<string>, imagePrompts: seq<ImagePrompt>) returns (images: seq<GeneratedImage>)
    requires |imageUrls| <= |imagePrompts|
    ensures |images| == |imageUrls|
    ensures forall i :: 0 <= i < |images| ==>
              images[i] == GeneratedImage(imageUrls[i], imagePrompts[i].scene.GetOr("Unknown"), "Generated")
  {
    images := [];
    for i := 0 to |imageUrls|
      invariant |images| == i
      invariant forall j :: 0 <= j < i ==>
                  images[j] == GeneratedImage(imageUrls[j], imagePrompts[j].scene.GetOr("Unknown"), "Generated")
    {
      images := images + [GeneratedImage(imageUrls[i], imagePrompts[i].scene.GetOr("Unknown"), "Generated")];
    }
  }

  /** `create_story`. `prompts` is the prompt generator's `image_prompts`
      (`None` when absent), `apiKey` the image API key and `reply(i, k)` the
      image API's answer to the `k`-th retry for image `i`. Besides the
      outcome it returns the story content given to the prompt generator
      (when called), the sleeps and image requests in order, and the result
      of each image request. */
  method CreateStory(request: StoryRequest, story: GeneratedStory, prompts: Option<seq<ImagePrompt>>,
                     apiKey: string, reply: (nat, int) -> ImageService.Reply)
    returns (outcome: HttpOutcome, promptInput: Option<string>, trace: seq<Step>, calls: seq<ImageService.ImageCall>)
    ensures !story.StoryFields? ==>
              && outcome == HttpError(500, "AI Story Generation failed: " + (if story.StoryFailure? then story.error else "Unknown Error"))
              && promptInput == None && trace == [] && calls == []
    ensures story.StoryFields? ==> promptInput == Some(if story.content.Some? then story.content.value else "")
    ensures story.StoryFields? ==>
              var ps := if prompts.Some? then prompts.value else [];
              var chosen := Illustrated(ps);
              && |calls| == |chosen|
              && (forall i :: 0 <= i < |calls| ==>
                    calls[i] == ImageService.GenerateImage(apiKey, Scene(chosen[i]), Negative(chosen[i]), 0, RepliesFor(reply, i)))
              && trace == ImageTrace(chosen)
              && outcome.Ok?
              && outcome.story == Body(story, request)
              && |outcome.images| == |calls|
              && (forall i :: 0 <= i < |calls| ==>
                    outcome.images[i] == GeneratedImage(calls[i].url, ps[i].scene.GetOr("Unknown"), "Generated"))
  {
    if !story.StoryFields? {
      var detail := if story.StoryFailure? then story.error else "Unknown Error";
      return HttpError(500, "AI Story Generation failed: " + detail), None, [], [];
    }
    promptInput := Some(story.content.GetOr(""));
    var imagePrompts := if prompts.Some? then prompts.value else [];
    var chosen := Illustrated(imagePrompts);
    var imageUrls;
    trace, calls, imageUrls := RequestImages(chosen, apiKey, reply);
    var generatedImages := ImageEntries(imageUrls, imagePrompts);
    outcome := Ok(Body(story, request), generatedImages);
  }
}
