# StoryNest story generation, modelled in Dafny

StoryNest generates illustrated stories with AI. The model covers the decision and state logic of its two halves:

- **The FastAPI backend.**
  - The `POST /generate` endpoint: the error gate on the story generator, the cap of two illustrated prompts with a 3 s pause between image requests, and the response defaults.
  - The image service: prompt composition, the 404 retry schedule, the precedence in which an image is extracted from a reply, and the placeholder URLs.
  - The narration service:
    - the voice table and the paragraph split;
    - the conversion of the speech engine's 100 ns ticks into seconds;
    - the merge of per-paragraph alignments with time offsets;
    - the fallback that fabricates word events from sentence events.
- **The Next.js server actions and pages.**
  - The credit ledger: balance, signup bonus, deduction with a sufficiency guard, additions, history.
  - Stripe checkout and session verification.
  - Credit-gated (stateless) and persisting story generation.
  - The read-through audio cache.
  - Publishing, likes, comments, view counts and forks.
  - The public feed and profile, and the story history with owner-checked deletion.
  - The community page's excerpt and paging.
  - The dashboard's story-type override and result mapping.
  - The credit badge.

The database is one class, `Db.Database`, with maps of users (keyed by identity-provider id), stories and comments, a set of likes and an id counter. Each server action that writes is a module-level method taking the database, with a `modifies` frame on its fields and a postcondition giving the whole new state. The read-only queries (`getPublicFeed`, `getStoryById`, `getUserProfile` and the like) are ghost functions of the database's state. Each action gets as parameters what the outside world answers: the story endpoint's reply, Stripe's session, the speech engine's stream, the image API's replies and the signed-in user.

Two facts about the code fix what is modelled:
- The dashboard calls the persisting `generateAndSaveStory` of `story.ts`, not the stateless one. `DashboardPage.Submit` calls `StoryActions.GenerateAndSaveStory`.
- A story costs `STORY_GENERATION = 1` credit (credits.ts:8). The dashboard's tip text says 10 credits (dashboard/page.tsx:237). The model follows the constant.

Times are exact reals. Every claim about durations, contiguity and coverage holds in exact arithmetic, not in Python floats.

Modules, one file each:
- `wrappers`, `text`, `ranking`: shared definitions.
  - `text` holds Python and JavaScript string operations.
  - `ranking` models `orderBy … desc` with `take`.
- `db`, `credits`, `payment`, `story_stateless`, `story_actions`, `audio_actions`, `history`, `social`: the server actions.
- `community_page`, `dashboard_page`, `credit_display`: the pages.
- `audio_service`, `image_service`, `endpoints`: the backend.

## Model

| member | source | states |
|---|---|---|
| AudioService.VoiceFor | backend/app/services/audio_service.py:15-28 | Each of the six known story types gets its mapped voice; any other type gets "en-US-ChristopherNeural" |
| AudioService.StrippedNonBlank | backend/app/services/audio_service.py:31 | The comprehension keeps at most one paragraph per piece; every paragraph is non-empty and has no whitespace at either end; with the lemmas below, its output is exactly the non-blank stripped pieces, in order |
| AudioService.StrippedAll | backend/app/services/audio_service.py:31 | One stripped text per piece, in order: the `p.strip()` of the comprehension |
| AudioService.NonBlankPiecesKept | backend/app/services/audio_service.py:31 | Every piece whose stripped text is non-empty is kept, as that stripped text |
| AudioService.KeptAreStrippedPieces | backend/app/services/audio_service.py:31 | Everything kept is the stripped text of some piece |
| AudioService.StrippedNonBlankAppend | backend/app/services/audio_service.py:31 | The comprehension works piece by piece: on two runs of pieces it is the concatenation of its results, so the order of the pieces is kept |
| AudioService.Paragraphs | backend/app/services/audio_service.py:31 | Every paragraph is non-empty and stripped; there are no more paragraphs than pieces of `text.split("\n\n")`; every non-blank piece appears stripped among the paragraphs, and every paragraph is a stripped piece |
| AudioService.BlankTextHasNoParagraphs | backend/app/services/audio_service.py:31 | A text that is only whitespace yields no paragraph |
| AudioService.BlankPiecesDropped | backend/app/services/audio_service.py:31 | Pieces that are all whitespace are all dropped |
| Text.JoinSplit | backend/app/services/audio_service.py:31 | Joining the pieces of a split with the separator gives back the text, so the split loses nothing |
| Text.Split | backend/app/services/audio_service.py:31 | `split("\n\n")` always yields at least one piece; Text.JoinSplit shows that the pieces joined with the separator are the text |
| Text.Trim | backend/app/services/audio_service.py:31 | The stripped text is no longer than the input, has no whitespace at either end, and is empty exactly when the input is all whitespace |
| Text.TrimOfTrimmed | backend/app/services/audio_service.py:31 | Stripping an already stripped text changes nothing |
| AudioService.ToEvent | backend/app/services/audio_service.py:136-141 | The event keeps the message's kind; a missing text becomes ""; start × 10^7 = offset, end × 10^7 = offset + duration, and the duration in ticks is preserved |
| AudioService.BoundaryMessages | backend/app/services/audio_service.py:131-134 | Only word and sentence boundary messages are kept, never more than the stream has |
| AudioService.StreamEventsAreConvertedBoundaries | backend/app/services/audio_service.py:131-141 | The recorded alignment has one event per boundary message, in stream order, each its converted message |
| AudioService.SynthesizeChunk | backend/app/services/audio_service.py:123-150 | A failed stream gives `None`; otherwise the chunk holds the stream's audio and its converted boundary events |
| AudioService.Shifted | backend/app/services/audio_service.py:51-53 | The shifted event keeps kind and word, and start and end both move by exactly the offset |
| AudioService.ShiftAll | backend/app/services/audio_service.py:49-54 | One shifted event per chunk event, in order |
| AudioService.AppendShifted | backend/app/services/audio_service.py:49-54 | The inner loop appends the chunk's events, each shifted by the current offset, to the accumulated alignment |
| AudioService.MergedLength | backend/app/services/audio_service.py:42-54 | The merged alignment has as many events as all chunk alignments together; failed chunks contribute nothing |
| AudioService.MergedKeepsShapes | backend/app/services/audio_service.py:42-54 | Whatever the offsets, each merged event has the kind, word and duration of the unshifted event at the same position |
| AudioService.MergedPlacesChunk | backend/app/services/audio_service.py:42-54 | Event j of chunk k sits right after the events of the chunks before k, shifted by the offset in force after them |
| AudioService.OffsetWithoutEvents | backend/app/services/audio_service.py:40-58 | While no chunk has had events, the offset stays at its initial 0 |
| AudioService.OffsetIsLastChunkEnd | backend/app/services/audio_service.py:57-58 | The source's offset is the unshifted last end of the latest chunk with events, plus 0.3; it is not a running total |
| AudioService.MergeChunk | backend/app/services/audio_service.py:43-58 | One loop iteration: a successful chunk adds its audio and shifted events; a chunk with events sets the offset to its own last end plus 0.3 |
| AudioService.MergeResults | backend/app/services/audio_service.py:38-58 | The merge loop as written: audio concatenated in paragraph order, alignment equal to the source's offset-shifted merge |
| AudioService.SourceMergeCanRunBackwards | backend/app/services/audio_service.py:56-58 | Three well-timed one-event paragraphs of 5 s, 1 s and 1 s start at 0, 5.3 and 1.3 s, so the source's merged alignment goes back in time |
| AudioService.MergeChunkRunning | backend/app/services/audio_service.py:43-58 | The corrected iteration: a chunk with events moves the offset on by its last end plus 0.3 |
| AudioService.MergeResultsRunning | backend/app/services/audio_service.py:38-58 | The corrected merge loop: the same audio, and the alignment merged with running offsets |
| AudioService.RunningMergeMatchesSource | backend/app/services/audio_service.py:38-64 | The corrected merge and the merge as written differ only in the timing: same events in the same order with the same kinds, words and durations, and the same answer to "is there a word event?" |
| AudioService.ShiftedChunkTiming | backend/app/services/audio_service.py:49-54 | A well-timed chunk shifted by o stays chronological and lies within [o, o + its last end] |
| AudioService.RunningMergeIsChronological | backend/app/services/audio_service.py:56-58 | With running offsets, well-timed chunks merge into a chronological alignment that lies within [0, final offset] |
| AudioService.OneEventWellTimed | backend/app/services/audio_service.py:136-141 | A single event with 0 ≤ start ≤ end is a well-timed chunk |
| AudioService.WordEvents | backend/app/services/audio_service.py:108-115 | One word event per word, in order, each a WordBoundary carrying its word |
| AudioService.WordEventsTiming | backend/app/services/audio_service.py:107-115 | The word events run back to back from the start, each exactly `time_per_word` long |
| AudioService.EvenSpreadCovers | backend/app/services/audio_service.py:102-115 | A sentence with n words becomes n contiguous word events from the sentence's start to its end, each lasting (end − start)/n |
| AudioService.Expand | backend/app/services/audio_service.py:85-118 | The original event always comes last; a non-sentence or blank sentence passes alone; a sentence with n words gives n word events before it |
| AudioService.NonWordsOfExpand | backend/app/services/audio_service.py:85-118 | Dropping the fabricated words from one event's output leaves exactly the event |
| AudioService.ExpandAllKeepsOriginals | backend/app/services/audio_service.py:85-118 | For an alignment without word events, dropping the fabricated words from the fallback's output gives back the alignment, in order |
| AudioService.AppendWordEvents | backend/app/services/audio_service.py:107-115 | The word loop produces exactly the back-to-back word events |
| AudioService.SplitSentence | backend/app/services/audio_service.py:102-115 | The word events of a sentence are its words spread evenly over its window |
| AudioService.ExpandEvent | backend/app/services/audio_service.py:85-118 | The loop body produces exactly the fallback's output for that event |
| AudioService.SynthesizeWordBoundaries | backend/app/services/audio_service.py:81-121 | `_synthesize_word_boundaries` is the per-event fallback applied to each event in order |
| AudioService.SynthesizeAll | backend/app/services/audio_service.py:34-35 | One synthesis result per paragraph, in paragraph order, each with the chosen voice |
| AudioService.GenerateStoryAudio | backend/app/services/audio_service.py:25-64 | The story type's voice and the stripped paragraphs are used; the audio is the results' audio in order; the fallback runs exactly when the merged alignment has no word event. It merges with the corrected running offsets; the merge as written gives events of the same kinds, words and durations, and has a word event exactly when the corrected merge has one, so the fallback decision is the source's |
| Text.Words | backend/app/services/audio_service.py:97 | `split()` yields non-empty words without whitespace, and none at all exactly for a blank text; with Text.WordsAroundSpace and Text.WordsOfWord its result is fixed on every string |
| Text.WordsAroundSpace | backend/app/services/audio_service.py:97 | A whitespace character separates: the words of `a + [c] + b` are the words of `a` followed by the words of `b` |
| Text.WordsOfWord | backend/app/services/audio_service.py:97 | A non-empty run without whitespace is exactly one word |
| Text.TakeWordBeforeSpace | backend/app/services/audio_service.py:97 | A word ends at the first whitespace character |
| Text.TakeWordOfWord | backend/app/services/audio_service.py:97 | A run without whitespace is taken whole |
| ImageService.FullPrompt | backend/app/services/image_service.py:15-17 | The prompt, followed by " [Avoid: neg]" exactly when the negative prompt is non-empty |
| ImageService.StatusErrorUrl | backend/app/services/image_service.py:59 | The placeholder URL ending in "Error+" and the status code |
| ImageService.NextSemicolon | backend/app/services/image_service.py:96 | The first `;` at or after i, or the end of the text |
| ImageService.PayloadEnd | backend/app/services/image_service.py:96 | The longest run of payload characters (no whitespace, `)`, `\` or `"`) from i |
| ImageService.MatchAt | backend/app/services/image_service.py:96 | A match at i is a slice of the content starting at i: "data:image/", a media type, ";base64," and a maximal non-empty payload; ImageService.MatchAtFinds gives the converse |
| ImageService.MatchAtFinds | backend/app/services/image_service.py:96 | Completeness: "data:image/", a non-empty media type without `;`, ";base64," and a payload character at i give a match at i that runs to the end of the payload |
| ImageService.SearchFrom | backend/app/services/image_service.py:96 | The leftmost position at or after i where the pattern matches; `None` when it matches nowhere |
| ImageService.FindDataUrl | backend/app/services/image_service.py:93-98 | A found URL starts with "data:image/", contains ";base64," and occurs in the content; it is the match at the leftmost matching position; `None` exactly when no position matches |
| ImageService.DataUrlFound | backend/app/services/image_service.py:93-98 | A data URL anywhere in the content is found, at its position or an earlier one |
| ImageService.PrefixContains | backend/app/services/image_service.py:93-97 | A content where the pattern matches contains "data:image", so the `in` test before the search never hides a match |
| ImageService.Extract | backend/app/services/image_service.py:69-101 | No choices give the format error; a missing message raises |
| ImageService.ExtractPrecedence | backend/app/services/image_service.py:75-98 | The order of precedence: `images[0].image_url.url`, then a string `images[0]`, then content starting with "data:image", then the first data URL in the content, else nothing |
| ImageService.FoundInContent | backend/app/services/image_service.py:87-98 | Without a usable image entry, what is extracted is a substring of the content |
| ImageService.NullContentRaises | backend/app/services/image_service.py:72 | A JSON-null content raises when logged, whatever the images, so the call ends in the system-error placeholder |
| ImageService.GenerateImage | backend/app/services/image_service.py:9-105 | No API key gives its placeholder and no request; otherwise at least one request is made, each carrying the full prompt; the q-th wait lasts (retry + q + 1)·2 s, one wait between consecutive requests; at most 3 − retry requests are made (1 from retry 2 on). A raised request gives the system-error placeholder; a 200 gives the extracted URL, the format-error placeholder when nothing is found, or the system-error placeholder when extraction raises, after one request; a 404 from retry 2 on gives "Model+Unavailable", a 404 before it retries |
| ImageService.RetrySchedule | backend/app/services/image_service.py:47-55 | Started at 0: at most three requests, with waits that are a prefix of 2 s then 4 s |
| ImageService.PersistentNotFound | backend/app/services/image_service.py:47-55 | Three 404s give exactly three requests, waits of 2 s and 4 s, and the "Model+Unavailable" placeholder |
| ImageService.RetryThenSuccess | backend/app/services/image_service.py:47-54 | A 404 and then a 200 with an image give that image after one 2 s wait and two requests |
| ImageService.OtherStatusReported | backend/app/services/image_service.py:57-59 | Any status other than 200 and 404 gives the placeholder naming that status, after a single request |
| Endpoints.Illustrated | backend/app/api/endpoints.py:41 | At most the first two prompts, in order |
| Endpoints.Body | backend/app/api/endpoints.py:62-73 | Title defaults to "Untitled", content and moral to "", timeline and events to []; topic, era and style echo the request |
| Endpoints.ImageTrace | backend/app/api/endpoints.py:41-50 | The request order: one image request per chosen prompt, with a 3 s sleep before every request but the first |
| Endpoints.RequestImages | backend/app/api/endpoints.py:39-50 | One image call per chosen prompt, in order, each with the prompt's scene and negative prompt from retry 0; the trace is as above |
| Endpoints.ImageEntries | backend/app/api/endpoints.py:53-59 | One entry per URL with the prompt's scene ("Unknown" when absent) and category "Generated" |
| Endpoints.CreateStory | backend/app/api/endpoints.py:21-74 | A falsy or failed story gives HTTP 500 before any prompt or image work; otherwise the first two prompts are illustrated in order and the response is the defaulted body with one image per call |
| Credits.DebitKeepsLedger | frontend/src/app/actions/credits.ts:68-88 | A deduction lowers the balance by the amount and appends one −amount transaction whose balance-after is the new balance; the ledger stays consistent and nothing else changes |
| Credits.CreditKeepsLedger | frontend/src/app/actions/credits.ts:117-136 | An addition raises the balance by the amount and appends one +amount transaction whose balance-after is the new balance; the ledger stays consistent and nothing else changes |
| Credits.SignupUserIsConsistent | frontend/src/app/actions/credits.ts:185-205 | A new user has 10 credits and exactly one SIGNUP_BONUS transaction of 10 with balance-after 10 |
| Credits.LedgerInvariant | frontend/src/app/actions/credits.ts:68-205 | After signup and any adds and deductions, the balance is the sum of the amounts and each balance-after is the running sum; without negative additions the balance is never negative |
| Credits.GetUserCredits | frontend/src/app/actions/credits.ts:15-26 | The stored balance, 0 for an unknown user |
| Credits.UnknownUserCredits | frontend/src/app/actions/credits.ts:31-37 | An unknown user has enough credits exactly when the requirement is at most 0 |
| Credits.HasEnoughCredits | frontend/src/app/actions/credits.ts:31-37 | A known user has enough exactly when their stored balance reaches the requirement; an unknown user exactly when the requirement is at most 0 |
| Credits.DeductCredits | frontend/src/app/actions/credits.ts:42-95 | An unknown user or a short balance gives its error and changes nothing; otherwise exactly one debit, returning the new balance, which is never negative |
| Credits.AddCredits | frontend/src/app/actions/credits.ts:100-143 | No sufficiency check: an unknown user gives "User not found" and changes nothing; otherwise exactly one credit, returning the new balance |
| Credits.Newest | frontend/src/app/actions/credits.ts:153-156 | The newest `limit` transactions, newest first |
| Credits.GetCreditHistory | frontend/src/app/actions/credits.ts:148-165 | At most 50 transactions, newest first; none for an unknown user |
| Credits.InitializeUserCredits | frontend/src/app/actions/credits.ts:170-213 | An existing user's balance is returned and nothing changes; a new user is created with the signup bonus under a fresh id |
| Credits.InitializeTwice | frontend/src/app/actions/credits.ts:176-182 | Initialising twice returns the same result and leaves the state of one initialisation |
| Payment.PlanFor | frontend/src/app/actions/payment.ts:10-21 | Explorer is 499 INR for 100 credits, Time Traveler 1499 INR for 500; no other name is an own entry of the plan table |
| Payment.CreateCheckoutSession | frontend/src/app/actions/payment.ts:23-65 | A missing key throws before the plan lookup; a name found nowhere throws "Invalid plan"; a name the table inherits from `Object.prototype` passes the lookup and throws reading `credits.toString()`, before the provider is called; otherwise the request is Payment.RequestFor of the plan and the URL must come back |
| Payment.RequestFor | frontend/src/app/actions/payment.ts:34-60 | The session parameters: price × 100 paise, quantity 1, INR, payment mode, the user as reference and in the metadata, the plan name as sent, success and cancel URLs on the origin, and a metadata credit count that `Number` reads back as the plan's credits |
| Payment.SessionCredits | frontend/src/app/actions/payment.ts:77 | Missing or empty metadata credits read as 0 |
| Payment.PaidSessionPasses | frontend/src/app/actions/payment.ts:76-81 | A paid session with a user and a positive numeric credit count passes the metadata guard and is read back unchanged |
| Payment.CheckoutMetadataRoundTrip | frontend/src/app/actions/payment.ts:55-83 | The metadata a checkout writes for a known plan and a non-empty user passes verification's guard and yields the plan's credits and a known plan name |
| Text.NatToString | frontend/src/app/actions/payment.ts:58 | `toString()` of a natural number is a non-empty digit string without leading zero |
| Text.DigitsValueOfNatToString | frontend/src/app/actions/payment.ts:58 | The decimal digits of n have value n |
| Text.JsNumber | frontend/src/app/actions/payment.ts:77 | `Number` of a blank string is 0 |
| Text.JsNumberOfNatToString | frontend/src/app/actions/payment.ts:58-77 | `Number(n.toString())` is n |
| Payment.VerifyStripeSession | frontend/src/app/actions/payment.ts:67-129 | Each guard in order (session id prefix, retrieval, payment status, metadata, user) gives its error and adds nothing; an unknown user gives "Failed to add credits"; otherwise it adds exactly the session's credits as a PURCHASE; the receipt goes out when an email exists and the plan name is a plan or a name the table inherits (whose price renders as `undefined`); with an email and any other plan name the receipt throws after the credits were added |
| Payment.VerifyTwice | frontend/src/app/actions/payment.ts:85-94 | No idempotency: verifying the same paid session twice credits it twice, with two transactions |
| StoryStateless.GenerateAndSaveStory | frontend/src/app/actions/story-stateless.ts:7-75 | The backend is called exactly when the balance covers 1 credit; only a returned story deducts exactly 1 STORY_GENERATION credit; errors report the detail or the message and change nothing |
| StoryActions.ReplyOf | backend/app/api/endpoints.py:25 | An endpoint success reaches the client as a body with the story; an HTTP error as an error status carrying its detail |
| StoryActions.RequestError | frontend/src/app/actions/story.ts:72-78 | The reported error is the body's non-empty `detail`, else the client's message |
| StoryActions.EndpointFailureDetail | frontend/src/app/actions/story.ts:72-75 | The endpoint's failure detail is what the action reports |
| StoryActions.SavedImage | frontend/src/app/actions/story.ts:56-62 | url and prompt are copied; the category defaults to "Generated" |
| StoryActions.StoryRow | frontend/src/app/actions/story.ts:45-62 | The row is owned by the user, copies the story's fields and one image per response image, and has the schema's defaults |
| StoryActions.EnsureUser | frontend/src/app/actions/story.ts:15-27 | A user row is created exactly when none exists for the id; otherwise the existing row is used |
| StoryActions.SaveStory | frontend/src/app/actions/story.ts:45-67 | The story is inserted under a fresh id and nothing else changes |
| StoryActions.GenerateAndSaveStory | frontend/src/app/actions/story.ts:6-80 | The user row exists afterwards, even when the request fails; a story is saved exactly when one came back; errors report the detail or the message |
| AudioActions.GetStoredAudio | frontend/src/app/actions/audio.ts:61-82 | Succeeds exactly when both the URL and the alignment are stored, returning them; otherwise "No audio found" |
| AudioActions.HasStoredAudio | frontend/src/app/actions/audio.ts:20 | A story has stored audio exactly when its row exists with a non-empty audio URL and an alignment |
| AudioActions.GenerateAndSaveAudio | frontend/src/app/actions/audio.ts:6-59 | A hit returns the stored audio with `cached` true without calling the endpoint or writing; a miss whose request fails, whose reply has no URL, or whose story row is missing fails and stores nothing; a successful miss stores the URL and the alignment ([] when absent) |
| AudioActions.SavedAudioIsStored | frontend/src/app/actions/audio.ts:41-47 | Once saved, the audio is served by `getStoredAudio` |
| AudioActions.GenerateTwice | frontend/src/app/actions/audio.ts:13-54 | After a successful generation the next call is a cache hit for the same URL: at most one endpoint call for two requests |
| Ranking.Top | frontend/src/app/actions/history.ts:10-14 | `orderBy … desc` with `take: k`: k distinct elements (all when fewer) by non-increasing key, none left out having a larger key |
| Ranking.TopOfAllIsAll | frontend/src/app/actions/social.ts:185-192 | Ordering without `take` lists every element exactly once |
| History.GetUserStories | frontend/src/app/actions/history.ts:5-32 | The summaries of the user's ten newest stories, newest first; none for an unknown user |
| History.GetStoryById | frontend/src/app/actions/history.ts:34-61 | The story with its owner and its numbers of likes and comments; `None` exactly when it does not exist |
| History.DeleteStory | frontend/src/app/actions/history.ts:63-95 | A missing story or a caller who is not the owner gives its error and deletes nothing; the owner removes exactly that story and its likes and comments, after which no like or comment refers to it; every like and comment of another story is kept |
| Social.Synced | frontend/src/app/actions/social.ts:33-39 | The provider's first and last name when it has a first name, its picture when it has one, the row's own values otherwise; nothing else changes |
| Social.SyncedIdempotent | frontend/src/app/actions/social.ts:32-39 | Syncing twice is syncing once |
| Social.NeedsSync | frontend/src/app/actions/social.ts:32 | A sync is due exactly when the row's name or picture is missing or empty (the same test guards the sync at social.ts:105) |
| Social.SyncCompletes | frontend/src/app/actions/social.ts:32-39 | A provider profile with a first name and a picture leaves a row that needs no further sync |
| Social.TogglePublishStory | frontend/src/app/actions/social.ts:9-55 | Each failed check gives its error and changes nothing; the owner flips `isPublic`, sets `publishedAt` to now only when publishing, and syncs the profile only when publishing |
| Social.TogglePublishTwice | frontend/src/app/actions/social.ts:29-54 | Toggling twice restores the visibility, and no other story changes |
| Social.ToggleLikeStory | frontend/src/app/actions/social.ts:59-92 | Flips the caller's like of the story and reports whether it is now liked; a like of a missing story throws |
| Social.LikeToggleCount | frontend/src/app/actions/social.ts:66-86 | A toggle changes the story's like count by exactly one and no other story's likes |
| Social.ToggleLikeTwice | frontend/src/app/actions/social.ts:66-91 | Liking twice restores the likes and reports opposite results |
| Social.AddComment | frontend/src/app/actions/social.ts:96-130 | Whitespace-only content is refused before any lookup; the comment stores the untrimmed content under a fresh id with the synced author; nothing changes on an error |
| Social.CommentAs | frontend/src/app/actions/social.ts:101-126 | For a signed-in known user: the profile is synced, then the comment is inserted, or the insert throws for a missing story |
| Social.SyncProfile | frontend/src/app/actions/social.ts:104-113 | The user row is synced when it lacks a name or a picture, and left as is otherwise |
| Social.InsertComment | frontend/src/app/actions/social.ts:115-126 | The comment is inserted under a fresh id and nothing else changes |
| Social.IncrementViewCount | frontend/src/app/actions/social.ts:212-218 | The view count of an existing story goes up by exactly 1 and nothing else changes |
| Social.Fork | frontend/src/app/actions/social.ts:235-256 | The fork is owned by the caller, is titled with " (Remix)", copies content, topic, era, style, moral, timeline, events and images, and records its origin |
| Social.ForkStory | frontend/src/app/actions/social.ts:220-260 | Each failed check gives its error and changes nothing; otherwise one new story is added under a fresh id and the original is untouched |
| Social.PageCount | frontend/src/app/actions/social.ts:176 | `ceil(total / limit)`: the smallest page count whose pages hold every story |
| Social.Window | frontend/src/app/actions/social.ts:170-171 | `skip` then `take`: at most `limit` consecutive entries |
| Social.EntryOnItsPage | frontend/src/app/actions/social.ts:147-176 | Entry i of the ordered stories appears on page i / limit + 1, which is a valid page |
| Social.PastLastPageEmpty | frontend/src/app/actions/social.ts:147-176 | A page past the last one is empty |
| Social.PublicIds | frontend/src/app/actions/social.ts:154 | Exactly the public stories |
| Social.GetPublicFeed | frontend/src/app/actions/social.ts:146-177 | Page `page` of the public stories in the chosen order, at most `limit` of them, with their total and page count; a negative skip is refused |
| Social.PublicStoriesOf | frontend/src/app/actions/social.ts:202-205 | Exactly the user's public stories |
| Social.SumLikesCountsEachLike | frontend/src/app/actions/social.ts:207 | Adding up the like counts of distinct stories counts every like of those stories once |
| Social.GetUserProfile | frontend/src/app/actions/social.ts:181-210 | The user, their public stories newest first, the number of all their stories, the number of likes they gave, and the total likes on their public stories; `None` for an unknown user |
| CommunityPage.StripMarks | frontend/src/app/community/page.tsx:134 | No longer than the content and without `#`; with CommunityPage.MarkRemoved, every `**`, `__` and `#` after plain text is removed and the text kept |
| CommunityPage.MarkRemoved | frontend/src/app/community/page.tsx:134 | A `**`, `__` or `#` following text without mark characters is removed, the text before it is kept, and the rest is stripped in turn |
| CommunityPage.PlainTextUnchanged | frontend/src/app/community/page.tsx:134 | Text without `*`, `_` or `#` passes unchanged |
| CommunityPage.OnlyMarksRemoved | frontend/src/app/community/page.tsx:134 | Only mark characters are removed: all other characters survive, in order |
| CommunityPage.SinglePass | frontend/src/app/community/page.tsx:134 | One pass, as the global replace: "*#*" becomes "**", which a second pass would remove |
| CommunityPage.Excerpt | frontend/src/app/community/page.tsx:134 | The first min(150, length) characters of the stripped content, then "..." |
| CommunityPage.PreviousPage | frontend/src/app/community/page.tsx:163 | `max(1, page − 1)` |
| CommunityPage.NextPage | frontend/src/app/community/page.tsx:173 | `min(totalPages, page + 1)` |
| CommunityPage.PagingStaysInRange | frontend/src/app/community/page.tsx:163-174 | Both buttons keep the page within [1, totalPages] |
| CommunityPage.TotalPagesOf | frontend/src/app/community/page.tsx:26 | The reply's page count when it is non-zero; never below 1 |
| CommunityPage.Page.constructor | frontend/src/app/community/page.tsx:11-15 | No stories, loading, page 1 of 1, newest first |
| CommunityPage.Page.LoadStories | frontend/src/app/community/page.tsx:21-32 | Called with the feed's answer for the page's own state (page, 12 per page, sort order): the stories and the page count of `getPublicFeed` are kept (1 when the count is 0) and loading ends; a failed call keeps the old ones |
| CommunityPage.Page.ClickPrevious | frontend/src/app/community/page.tsx:162-168 | Moves back one page unless hidden or disabled at page 1 |
| CommunityPage.Page.ClickNext | frontend/src/app/community/page.tsx:172-178 | Moves on one page unless hidden or disabled at the last page |
| CommunityPage.Page.ChooseSort | frontend/src/app/community/page.tsx:63-74 | Choosing a sort order starts again from page 1 |
| DashboardPage.AnyKeyword | frontend/src/app/dashboard/page.tsx:61-64 | The `some` over the keywords: true exactly when one keyword is a substring of the text |
| DashboardPage.EffectiveStoryType | frontend/src/app/dashboard/page.tsx:57-68 | A contemporary historical request becomes "Creative" exactly when its lower-cased topic contains a keyword; every other choice passes unchanged |
| Text.ToLowerAscii | frontend/src/app/dashboard/page.tsx:63 | Each capital letter is lowered and every other character kept |
| DashboardPage.OverrideExample | frontend/src/app/dashboard/page.tsx:59-67 | "Space Race" is sent as Creative in the contemporary era and as Historical in another |
| DashboardPage.GuestDefaults | frontend/src/app/dashboard/page.tsx:72-73 | A missing user is sent as "guest" / "guest@example.com" |
| DashboardPage.ToViewResult | frontend/src/app/dashboard/page.tsx:40-48 | content becomes `story_content`, events `main_events_summary`, timeline stays, images are copied |
| DashboardPage.Submit | frontend/src/app/dashboard/page.tsx:70-78 | The persisting story action is called with the caller (or the guest) and the effective story type, with its whole new state: the user row exists, created when missing, and the story is saved under the first free id exactly when one came back |
| DashboardPage.Dashboard.constructor | frontend/src/app/dashboard/page.tsx:15-20 | An empty Historical, Medieval, Narrative form with no result |
| DashboardPage.Dashboard.LoadStoryFromHistory | frontend/src/app/dashboard/page.tsx:37-50 | Given what `getStoryById` answered for the id: a found story is the database's row for that id and is shown in the view's shape; a missing one, or a failed lookup, keeps the result |
| DashboardPage.Dashboard.HandleGenerate | frontend/src/app/dashboard/page.tsx:52-110 | An empty topic does nothing; otherwise the story action gets the effective type, a saved story is shown, a failure raises its alert, and loading ends |
| CreditDisplay.CreditColor | frontend/src/components/CreditDisplay.tsx:48-52 | Red for no balance or 0, yellow for any other value up to 3 (negatives included), emerald above 3 |
| CreditDisplay.Displayed | frontend/src/components/CreditDisplay.tsx:59 | The balance, or 0 when none was loaded |
| CreditDisplay.RedMeansZero | frontend/src/components/CreditDisplay.tsx:48-59 | The badge is red exactly when it shows 0; a negative balance shows yellow |
| CreditDisplay.BadgeOfLedger | frontend/src/components/CreditDisplay.tsx:13-23 | The badge of an unknown user is red, of a fresh signup emerald, and of a user holding one story's cost yellow |

## Left out

- The I/O of narration: the speech engine's network stream, the parallel `gather`, the generated file name and the MP3 write. Results arrive as a sequence in paragraph order; `gather` keeps that order. `generate_story_audio`'s outer handler, which returns `None` on any exception, is not modelled.
- Floating point: times, the 0.3 s pause and the division by 10^7 are exact reals.
- The story and image-prompt generators (`gemini_service.py`). Their results are parameters: a story or an error, and a list of prompts or none.
- Network clients and SDKs: the image API, the HTTP client, Stripe, the mailer, the identity provider and path revalidation. What they answer is a parameter. The receipt is modelled only as the address it goes to.
- Database exceptions other than foreign-key failures, and the "return [] / null on error" handlers of `getUserStories`, `getStoryById`, `getUserCredits` and `getCreditHistory`.
- Concurrency: every action runs alone and atomically. The race between `deductCredits`' check and its decrement is not modelled.
- Rendering, animation, the `window.refreshCredits` hook, the badge's loading state and the community page's loading placeholders.
- `getComments` (social.ts:132-142): a plain query with no logic beyond ordering.
- Record ids are natural numbers from a counter, not cuid strings. `Db.Database.Valid` holds the schema's constraints.
- Text.JsNumber: models only blank strings and optionally signed decimal integers. Fractions, exponents, hexadecimal and "Infinity" become NaN (`None`), not their JavaScript values. Every string this system writes is a decimal integer.
- CommunityPage.Excerpt: the 150 counts characters (Unicode scalar values), where `substring(0, 150)` counts UTF-16 code units. The two differ on text outside the Basic Multilingual Plane: 150 emoji give an excerpt of 75 emoji in the source and 150 in the model, and a cut through a surrogate pair cannot be represented.
- Text.ToLowerAscii: lowers ASCII letters only. JavaScript's `toLowerCase` also maps non-ASCII capitals.
- Social.GetPublicFeed: `limit` is a natural number. For `limit` 0 the page count is `None`, where JavaScript would compute `Infinity` or `NaN`.
- StoryStateless.GenerateAndSaveStory: the story's `timeline` and `events` are always lists, because the endpoint always supplies them, so the `|| []` defaults are not visible.
- StoryActions.GenerateAndSaveStory: the reply's images are always a list, so the `images.map` of a missing list, which would throw, is not modelled.
- DashboardPage.Dashboard.HandleGenerate: the persistence facts are stated on `StoryActions.GenerateAndSaveStory`, which `Submit` calls. The history reload and the credit refresh after a save are not modelled. The generic "Generation failed. Please try again." alert is not modelled, because the story action catches every error itself.
- AudioService.GenerateStoryAudio: merges with the corrected running offsets (AudioService.MergeResultsRunning), not with the merge as written (AudioService.MergeResults). The timings of the merged alignment are therefore the intended ones, not the source's. AudioService.RunningMergeMatchesSource shows that the two merges agree on everything else, including when the fallback runs.
- Payment.PlanFor: gives only the table's two own entries. A name the table inherits from `Object.prototype` ("constructor", "toString", "__proto__" and the others in Payment.InheritedKey) is found by the source's lookup too. The model captures both effects of that on the actions: Payment.CreateCheckoutSession throws reading `credits.toString()` instead of "Invalid plan", and Payment.VerifyStripeSession sends the receipt instead of throwing.
- The error messages of exceptions are fixed strings, for example `AudioActions.MissingRecordMessage` for an update of a missing row.

## Findings

| source | as written | input that shows it | evidently intended | confidence | as-written member | corrected member |
|---|---|---|---|---|---|---|
| backend/app/services/audio_service.py:57-58 | After a chunk with events, the offset becomes that chunk's own unshifted last end plus 0.3 s, not the previous offset plus it | Three paragraphs with one event each, lasting 5 s, 1 s and 1 s: they are placed at 0, 5.3 and 1.3 s, so the third starts before the second ends | Each paragraph starts 0.3 s after the previous one ends, so the merged alignment is chronological | not executed | AudioService.SourceMergeCanRunBackwards | AudioService.RunningMergeIsChronological |
