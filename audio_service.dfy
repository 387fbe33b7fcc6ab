/** The narration side of the backend: paragraph splitting, the conversion of
    the speech engine's stream into boundary events, the merging of the
    per-paragraph results into one alignment with time offsets, and the
    fallback that fabricates word events from sentence events.
    Times are seconds, modelled as exact reals. */
module AudioService {
  import opened Wrappers
  import Text

  type Byte = bv8

  datatype EventType = WordBoundary | SentenceBoundary

  /** One alignment entry: the spoken text and its time window in seconds. */
  datatype Event = Event(kind: EventType, word: string, start: real, end: real)

  /** What synthesising one paragraph yields: its audio bytes and its events. */
  datatype ChunkResult = ChunkResult(audio: seq<Byte>, alignment: seq<Event>)

  /** Pause, in seconds, added between paragraphs. */
  const ParagraphPause: real := 0.3

  const DefaultVoice: string := "en-US-ChristopherNeural"

  const VoiceMapping: map<string, string> := map[
    "Historical" := "en-GB-SoniaNeural",
    "Creative" := "en-US-GuyNeural",
    "Mythology" := "en-IN-NeerjaNeural",
    "TimeTravel" := "en-US-AriaNeural",
    "SciFi" := "en-US-DavisNeural",
    "Mystery" := "en-US-GuyNeural",
    "Default" := DefaultVoice
  ]

  /** The voice for a story type: the mapped voice for the six known types,
      the default voice for every other key. */
  function VoiceFor(storyType: string): (voice: string)
    ensures storyType == "Historical" ==> voice == "en-GB-SoniaNeural"
    ensures storyType == "Creative" || storyType == "Mystery" ==> voice == "en-US-GuyNeural"
    ensures storyType == "Mythology" ==> voice == "en-IN-NeerjaNeural"
    ensures storyType == "TimeTravel" ==> voice == "en-US-AriaNeural"
    ensures storyType == "SciFi" ==> voice == "en-US-DavisNeural"
    ensures (storyType !in {"Historical", "Creative", "Mythology", "TimeTravel", "SciFi", "Mystery"})
              ==> voice == "en-US-ChristopherNeural"
  {
    if storyType in VoiceMapping then VoiceMapping[storyType] else VoiceMapping["Default"]
  }

  /** Non-empty, with no whitespace at either end. */
  predicate IsParagraph(p: string) {
    p != [] && !Text.IsPySpace(p[0]) && !Text.IsPySpace(p[|p| - 1])
  }

  /** `[p.strip() for p in pieces if p.strip()]`. */
  function StrippedNonBlank(pieces: seq<string>): (ps: seq<string>)
    ensures |ps| <= |pieces|
    ensures forall i :: 0 <= i < |ps| ==> IsParagraph(ps[i])
    decreases |pieces|
  {
    if pieces == [] then []
    else
      var t := Text.PyStrip(pieces[0]);
      assert t != [] ==> IsParagraph(t);
      (if t == [] then [] else [t]) + StrippedNonBlank(pieces[1..])
  }

  /** Every piece, stripped. */
  function StrippedAll(pieces: seq<string>): (ss: seq<string>)
    ensures |ss| == |pieces| && forall i :: 0 <= i < |pieces| ==> ss[i] == Text.PyStrip(pieces[i])
  {
    seq(|pieces|, i requires 0 <= i < |pieces| => Text.PyStrip(pieces[i]))
  }

  /** Every non-blank piece is kept, stripped. */
  lemma {:induction false} NonBlankPiecesKept(pieces: seq<string>)
    ensures forall i :: 0 <= i < |pieces| && Text.PyStrip(pieces[i]) != [] ==> Text.PyStrip(pieces[i]) in StrippedNonBlank(pieces)
    decreases |pieces|
  {
    if pieces != [] {
      var rest := pieces[1..];
      NonBlankPiecesKept(rest);
      var t := Text.PyStrip(pieces[0]);
      assert StrippedNonBlank(pieces) == (if t == [] then [] else [t]) + StrippedNonBlank(rest);
      forall i | 0 <= i < |pieces| && Text.PyStrip(pieces[i]) != []
        ensures Text.PyStrip(pieces[i]) in StrippedNonBlank(pieces)
      {
        if i > 0 {
          assert pieces[i] == rest[i - 1];
        }
      }
    }
  }

  /** Every paragraph kept is a stripped piece. */
  lemma {:induction false} KeptAreStrippedPieces(pieces: seq<string>)
    ensures forall k :: 0 <= k < |StrippedNonBlank(pieces)| ==> StrippedNonBlank(pieces)[k] in StrippedAll(pieces)
    decreases |pieces|
  {
    if pieces != [] {
      var rest := pieces[1..];
      KeptAreStrippedPieces(rest);
      var t := Text.PyStrip(pieces[0]);
      var head := if t == [] then [] else [t];
      var all := StrippedAll(pieces);
      assert StrippedNonBlank(pieces) == head + StrippedNonBlank(rest);
      assert all == [t] + StrippedAll(rest);
    }
  }

  /** The comprehension works piece by piece, in order: the paragraphs of
      two runs of pieces are those of the first run, then those of the
      second. */
  lemma {:induction false} StrippedNonBlankAppend(a: seq<string>, b: seq<string>)
    ensures StrippedNonBlank(a + b) == StrippedNonBlank(a) + StrippedNonBlank(b)
    decreases |a|
  {
    if a == [] {
      assert a + b == b;
    } else {
      var ab := a + b;
      var tl := a[1..] + b;
      assert ab[0] == a[0] && ab[1..] == tl;
      var kept := Kept(a[0]);
      StrippedNonBlankHead(ab);
      StrippedNonBlankHead(a);
      StrippedNonBlankAppend(a[1..], b);
      ConcatAssoc(kept, StrippedNonBlank(a[1..]), StrippedNonBlank(b));
    }
  }

  /** What one piece contributes: its stripped text, unless that is empty. */
  function Kept(p: string): seq<string> {
    if Text.PyStrip(p) == [] then [] else [Text.PyStrip(p)]
  }

  lemma StrippedNonBlankHead(s: seq<string>)
    requires s != []
    ensures StrippedNonBlank(s) == Kept(s[0]) + StrippedNonBlank(s[1..])
  {
  }

  lemma ConcatAssoc(x: seq<string>, y: seq<string>, z: seq<string>)
    ensures x + (y + z) == (x + y) + z
  {
  }

  /** The paragraphs sent to the speech engine: the pieces of the text between
      blank-line separators, stripped, blank ones dropped. No paragraph is
      empty or has whitespace at either end; every non-blank piece gives a
      paragraph and every paragraph is a stripped piece. */
  function Paragraphs(text: string): (ps: seq<string>)
    ensures forall i :: 0 <= i < |ps| ==> IsParagraph(ps[i])
    ensures |ps| <= |Text.Split(text, "\n\n")|
    ensures var pieces := Text.Split(text, "\n\n");
            forall i :: 0 <= i < |pieces| && Text.PyStrip(pieces[i]) != [] ==> Text.PyStrip(pieces[i]) in ps
    ensures forall k :: 0 <= k < |ps| ==> ps[k] in StrippedAll(Text.Split(text, "\n\n"))
  {
    NonBlankPiecesKept(Text.Split(text, "\n\n"));
    KeptAreStrippedPieces(Text.Split(text, "\n\n"));
    StrippedNonBlank(Text.Split(text, "\n\n"))
  }

  /** A text that is only whitespace yields no paragraph. */
  lemma {:induction false} BlankTextHasNoParagraphs(text: string)
    requires Text.AllSatisfy(text, Text.IsPySpace)
    ensures Paragraphs(text) == []
  {
    var pieces := Text.Split(text, "\n\n");
    Text.JoinSplit(text, "\n\n");
    BlankPiecesOfBlankJoin(pieces);
    BlankPiecesDropped(pieces);
  }

  lemma {:induction false} BlankPiecesOfBlankJoin(pieces: seq<string>)
    requires Text.AllSatisfy(Text.Join(pieces, "\n\n"), Text.IsPySpace)
    ensures forall i :: 0 <= i < |pieces| ==> Text.AllSatisfy(pieces[i], Text.IsPySpace)
    decreases |pieces|
  {
    if |pieces| > 1 {
      var j := Text.Join(pieces, "\n\n");
      var rest := Text.Join(pieces[1..], "\n\n");
      assert j == pieces[0] + "\n\n" + rest;
      assert Text.AllSatisfy(pieces[0], Text.IsPySpace) by {
        forall k | 0 <= k < |pieces[0]| ensures Text.IsPySpace(pieces[0][k]) {
          assert pieces[0][k] == j[k];
        }
      }
      assert Text.AllSatisfy(rest, Text.IsPySpace) by {
        forall k | 0 <= k < |rest| ensures Text.IsPySpace(rest[k]) {
          assert rest[k] == j[|pieces[0]| + 2 + k];
        }
      }
      BlankPiecesOfBlankJoin(pieces[1..]);
      forall i | 0 <= i < |pieces| ensures Text.AllSatisfy(pieces[i], Text.IsPySpace) {
        if i > 0 {
          assert pieces[i] == pieces[1..][i - 1];
        }
      }
    }
  }

  lemma {:induction false} BlankPiecesDropped(pieces: seq<string>)
    requires forall i :: 0 <= i < |pieces| ==> Text.AllSatisfy(pieces[i], Text.IsPySpace)
    ensures StrippedNonBlank(pieces) == []
    decreases |pieces|
  {
    if pieces != [] {
      assert Text.AllSatisfy(pieces[0], Text.IsPySpace);
      assert forall i :: 0 <= i < |pieces[1..]| ==> pieces[1..][i] == pieces[i + 1];
      BlankPiecesDropped(pieces[1..]);
    }
  }

  // ---------------------------------------------------------------------
  // Converting the speech engine's stream (100-nanosecond ticks) to events

  /** One message of the speech engine's stream. Audio messages carry bytes;
      boundary messages carry an offset and a duration in 100-ns ticks and an
      optional text. */
  datatype StreamMessage = StreamMessage(kind: string, data: seq<Byte>, text: Option<string>, offset: int, duration: int)

  const TicksPerSecond: real := 10000000.0

  predicate IsBoundary(m: StreamMessage) {
    m.kind == "WordBoundary" || m.kind == "SentenceBoundary"
  }

  /** The event recorded for a boundary message: ticks become seconds and a
      missing text becomes the empty string. */
  function ToEvent(m: StreamMessage): (e: Event)
    requires IsBoundary(m)
    ensures e.kind == (if m.kind == "WordBoundary" then WordBoundary else SentenceBoundary)
    ensures e.word == (if m.text.Some? then m.text.value else "")
    ensures e.start * TicksPerSecond == m.offset as real
    ensures e.end * TicksPerSecond == (m.offset + m.duration) as real
    ensures (e.end - e.start) * TicksPerSecond == m.duration as real
  {
    Event(if m.kind == "WordBoundary" then WordBoundary else SentenceBoundary,
          m.text.GetOr(""),
          m.offset as real / TicksPerSecond,
          (m.offset + m.duration) as real / TicksPerSecond)
  }

  /** The boundary messages of a stream, in stream order. */
  function BoundaryMessages(ms: seq<StreamMessage>): (bs: seq<StreamMessage>)
    ensures |bs| <= |ms|
    ensures forall i :: 0 <= i < |bs| ==> IsBoundary(bs[i])
    decreases |ms|
  {
    if ms == [] then []
    else BoundaryMessages(ms[..|ms| - 1]) + (if IsBoundary(ms[|ms| - 1]) then [ms[|ms| - 1]] else [])
  }

  /** The alignment recorded from a stream. */
  function StreamEvents(ms: seq<StreamMessage>): seq<Event>
    decreases |ms|
  {
    if ms == [] then []
    else StreamEvents(ms[..|ms| - 1]) + (if IsBoundary(ms[|ms| - 1]) then [ToEvent(ms[|ms| - 1])] else [])
  }

  /** The audio recorded from a stream. */
  function StreamAudio(ms: seq<StreamMessage>): seq<Byte>
    decreases |ms|
  {
    if ms == [] then []
    else StreamAudio(ms[..|ms| - 1]) + (if ms[|ms| - 1].kind == "audio" then ms[|ms| - 1].data else [])
  }

  /** Only boundary messages are recorded, one event each, in stream order. */
  lemma {:induction false} StreamEventsAreConvertedBoundaries(ms: seq<StreamMessage>)
    ensures |StreamEvents(ms)| == |BoundaryMessages(ms)|
    ensures forall i :: 0 <= i < |StreamEvents(ms)| ==> StreamEvents(ms)[i] == ToEvent(BoundaryMessages(ms)[i])
    decreases |ms|
  {
    if ms != [] {
      StreamEventsAreConvertedBoundaries(ms[..|ms| - 1]);
    }
  }

  /** `_synthesize_chunk`: records the audio and the boundary events of the
      stream; a stream that fails (`None`) yields no result. */
  method SynthesizeChunk(stream: Option<seq<StreamMessage>>) returns (r: Option<ChunkResult>)
    ensures stream.None? ==> r.None?
    ensures stream.Some? ==> r == Some(ChunkResult(StreamAudio(stream.value), StreamEvents(stream.value)))
  {
    if stream.None? {
      return None;
    }
    var ms := stream.value;
    var audio: seq<Byte> := [];
    var alignment: seq<Event> := [];
    for i := 0 to |ms|
      invariant audio == StreamAudio(ms[..i])
      invariant alignment == StreamEvents(ms[..i])
    {
      var message := ms[i];
      assert ms[..i + 1][..i] == ms[..i];
      if message.kind == "audio" {
        audio := audio + message.data;
      } else if IsBoundary(message) {
        alignment := alignment + [ToEvent(message)];
      }
    }
    assert ms[..|ms|] == ms;
    r := Some(ChunkResult(audio, alignment));
  }

  // ---------------------------------------------------------------------
  // Merging the per-paragraph results

  function Shifted(e: Event, offset: real): (s: Event)
    ensures s.kind == e.kind && s.word == e.word
    ensures s.start - e.start == offset && s.end - e.end == offset
  {
    e.(start := e.start + offset, end := e.end + offset)
  }

  /** A chunk's events, all shifted by the same offset. */
  function ShiftAll(es: seq<Event>, offset: real): (r: seq<Event>)
    ensures |r| == |es|
    ensures forall i :: 0 <= i < |es| ==> r[i] == Shifted(es[i], offset)
  {
    seq(|es|, i requires 0 <= i < |es| => Shifted(es[i], offset))
  }

  function ChunkEvents(r: Option<ChunkResult>): seq<Event> {
    if r.Some? then r.value.alignment else []
  }

  function ChunkAudio(r: Option<ChunkResult>): seq<Byte> {
    if r.Some? then r.value.audio else []
  }

  /** The end time of a chunk's last event, when it has events. */
  function LastEnd(es: seq<Event>): real
    requires es != []
  {
    es[|es| - 1].end
  }

  /** The chunk alignments concatenated unshifted, failed chunks contributing
      nothing. */
  function Unshifted(rs: seq<Option<ChunkResult>>): seq<Event>
    decreases |rs|
  {
    if rs == [] then [] else Unshifted(rs[..|rs| - 1]) + ChunkEvents(rs[|rs| - 1])
  }

  /** The audio of all results, in paragraph order. */
  function MergedAudio(rs: seq<Option<ChunkResult>>): seq<Byte>
    decreases |rs|
  {
    if rs == [] then [] else MergedAudio(rs[..|rs| - 1]) + ChunkAudio(rs[|rs| - 1])
  }

  /** The offset in force after the given chunks, as the source computes it:
      0 at first; after a chunk with events, that chunk's own (unshifted) last
      end plus the pause; a chunk without events leaves it unchanged. */
  function OffsetAfter(rs: seq<Option<ChunkResult>>): real
    decreases |rs|
  {
    if rs == [] then 0.0
    else
      var es := ChunkEvents(rs[|rs| - 1]);
      if es != [] then LastEnd(es) + ParagraphPause else OffsetAfter(rs[..|rs| - 1])
  }

  /** The running offset: after a chunk with events, the previous offset plus
      that chunk's last end plus the pause. */
  function RunningOffsetAfter(rs: seq<Option<ChunkResult>>): real
    decreases |rs|
  {
    if rs == [] then 0.0
    else
      var es := ChunkEvents(rs[|rs| - 1]);
      var before := RunningOffsetAfter(rs[..|rs| - 1]);
      if es != [] then before + LastEnd(es) + ParagraphPause else before
  }

  /** The merged alignment when each chunk is shifted by `offsetOf` of the
      chunks before it. */
  function MergedWith(rs: seq<Option<ChunkResult>>, offsetOf: seq<Option<ChunkResult>> -> real): seq<Event>
    decreases |rs|
  {
    if rs == [] then []
    else MergedWith(rs[..|rs| - 1], offsetOf) + ShiftAll(ChunkEvents(rs[|rs| - 1]), offsetOf(rs[..|rs| - 1]))
  }

  /** The merged alignment as the source computes it. */
  function Merged(rs: seq<Option<ChunkResult>>): seq<Event> {
    MergedWith(rs, OffsetAfter)
  }

  /** The merged alignment with running offsets. */
  function MergedRunning(rs: seq<Option<ChunkResult>>): seq<Event> {
    MergedWith(rs, RunningOffsetAfter)
  }

  /** Kind, word and duration of an event: what shifting must not change. */
  function Shape(e: Event): (EventType, string, real) {
    (e.kind, e.word, e.end - e.start)
  }

  /** Whatever the offsets, merging keeps every event's kind, word and
      duration, in paragraph order; the length is the total number of chunk
      events and failed chunks contribute nothing. */
  lemma {:induction false} MergedKeepsShapes(rs: seq<Option<ChunkResult>>, offsetOf: seq<Option<ChunkResult>> -> real)
    ensures |MergedWith(rs, offsetOf)| == |Unshifted(rs)|
    ensures forall i :: 0 <= i < |Unshifted(rs)| ==> Shape(MergedWith(rs, offsetOf)[i]) == Shape(Unshifted(rs)[i])
    decreases |rs|
  {
    if rs != [] {
      var p := rs[..|rs| - 1];
      MergedKeepsShapes(p, offsetOf);
      var es := ChunkEvents(rs[|rs| - 1]);
      var shifted := ShiftAll(es, offsetOf(p));
      assert MergedWith(rs, offsetOf) == MergedWith(p, offsetOf) + shifted;
      assert Unshifted(rs) == Unshifted(p) + es;
      ShiftAllKeepsShapes(es, offsetOf(p));
      SameShapesAppend(MergedWith(p, offsetOf), shifted, Unshifted(p), es);
    }
  }

  predicate SameShapes(a: seq<Event>, b: seq<Event>) {
    |a| == |b| && forall i :: 0 <= i < |a| ==> Shape(a[i]) == Shape(b[i])
  }

  lemma ShiftAllKeepsShapes(es: seq<Event>, offset: real)
    ensures SameShapes(ShiftAll(es, offset), es)
  {
    var r := ShiftAll(es, offset);
    forall i | 0 <= i < |es| ensures Shape(r[i]) == Shape(es[i]) {
      assert r[i] == Shifted(es[i], offset);
    }
  }

  lemma SameShapesAppend(a: seq<Event>, b: seq<Event>, c: seq<Event>, d: seq<Event>)
    requires SameShapes(a, c) && SameShapes(b, d)
    ensures SameShapes(a + b, c + d)
  {
    forall i | 0 <= i < |a + b| ensures Shape((a + b)[i]) == Shape((c + d)[i]) {
      if i < |a| {
        assert (a + b)[i] == a[i] && (c + d)[i] == c[i];
      } else {
        assert (a + b)[i] == b[i - |a|] && (c + d)[i] == d[i - |a|];
      }
    }
  }

  lemma {:induction false} MergedLength(rs: seq<Option<ChunkResult>>, offsetOf: seq<Option<ChunkResult>> -> real)
    ensures |MergedWith(rs, offsetOf)| == |Unshifted(rs)|
    decreases |rs|
  {
    if rs != [] {
      MergedLength(rs[..|rs| - 1], offsetOf);
    }
  }

  /** One more chunk: how each of the merge's specification functions
      extends. */
  lemma AudioStep(rs: seq<Option<ChunkResult>>, i: nat)
    requires i < |rs|
    ensures MergedAudio(rs[..i + 1]) == MergedAudio(rs[..i]) + ChunkAudio(rs[i])
  {
    assert rs[..i + 1][..i] == rs[..i];
  }

  lemma OffsetStep(rs: seq<Option<ChunkResult>>, i: nat)
    requires i < |rs|
    ensures OffsetAfter(rs[..i + 1]) == if ChunkEvents(rs[i]) != [] then LastEnd(ChunkEvents(rs[i])) + ParagraphPause else OffsetAfter(rs[..i])
  {
    assert rs[..i + 1][..i] == rs[..i];
  }

  lemma RunningOffsetStep(rs: seq<Option<ChunkResult>>, i: nat)
    requires i < |rs|
    ensures RunningOffsetAfter(rs[..i + 1]) ==
              if ChunkEvents(rs[i]) != [] then RunningOffsetAfter(rs[..i]) + LastEnd(ChunkEvents(rs[i])) + ParagraphPause
              else RunningOffsetAfter(rs[..i])
  {
    assert rs[..i + 1][..i] == rs[..i];
  }

  lemma MergedWithStep(rs: seq<Option<ChunkResult>>, i: nat, offsetOf: seq<Option<ChunkResult>> -> real)
    requires i < |rs|
    ensures MergedWith(rs[..i + 1], offsetOf) == MergedWith(rs[..i], offsetOf) + ShiftAll(ChunkEvents(rs[i]), offsetOf(rs[..i]))
  {
    assert rs[..i + 1][..i] == rs[..i];
  }

  lemma {:induction false} MergedPrefix(rs: seq<Option<ChunkResult>>, k: nat, offsetOf: seq<Option<ChunkResult>> -> real)
    requires k <= |rs|
    ensures MergedWith(rs[..k], offsetOf) <= MergedWith(rs, offsetOf)
    decreases |rs|
  {
    if k < |rs| {
      var p := rs[..|rs| - 1];
      assert rs[..k] == p[..k];
      MergedPrefix(p, k, offsetOf);
    } else {
      assert rs[..k] == rs;
    }
  }

  /** Event `j` of chunk `k` appears in the merged alignment right after the
      events of the chunks before it, shifted by the offset in force after
      those chunks. */
  lemma MergedPlacesChunk(rs: seq<Option<ChunkResult>>, offsetOf: seq<Option<ChunkResult>> -> real, k: nat, j: nat)
    requires k < |rs| && j < |ChunkEvents(rs[k])|
    ensures |Unshifted(rs[..k])| + j < |MergedWith(rs, offsetOf)|
    ensures MergedWith(rs, offsetOf)[|Unshifted(rs[..k])| + j] == Shifted(ChunkEvents(rs[k])[j], offsetOf(rs[..k]))
  {
    MergedLength(rs[..k], offsetOf);
    MergedWithStep(rs, k, offsetOf);
    MergedPrefix(rs, k + 1, offsetOf);
    PlaceInPrefix(MergedWith(rs[..k], offsetOf), ShiftAll(ChunkEvents(rs[k]), offsetOf(rs[..k])), MergedWith(rs, offsetOf), j);
  }

  /** An element of the second part of a prefix of `full`. */
  lemma PlaceInPrefix<T>(before: seq<T>, part: seq<T>, full: seq<T>, j: nat)
    requires before + part <= full && j < |part|
    ensures |before| + j < |full| && full[|before| + j] == part[j]
  {
    assert (before + part)[|before| + j] == part[j];
  }

  /** The source's offset after some chunks is 0 when none of them has
      events. */
  lemma {:induction false} OffsetWithoutEvents(rs: seq<Option<ChunkResult>>)
    requires forall m :: 0 <= m < |rs| ==> ChunkEvents(rs[m]) == []
    ensures OffsetAfter(rs) == 0.0
    decreases |rs|
  {
    if rs != [] {
      OffsetWithoutEvents(rs[..|rs| - 1]);
    }
  }

  /** The source's offset is not a running total: it is the unshifted last end
      of the last chunk that has events, plus the pause, whatever came before
      that chunk. */
  lemma {:induction false} OffsetIsLastChunkEnd(rs: seq<Option<ChunkResult>>, k: nat)
    requires k < |rs| && ChunkEvents(rs[k]) != []
    requires forall m :: k < m < |rs| ==> ChunkEvents(rs[m]) == []
    ensures OffsetAfter(rs) == LastEnd(ChunkEvents(rs[k])) + ParagraphPause
    decreases |rs|
  {
    if k < |rs| - 1 {
      OffsetIsLastChunkEnd(rs[..|rs| - 1], k);
    }
  }

  /** The inner loop of the merge: a chunk's events appended one by one,
      each shifted by the offset. */
  method AppendShifted(acc: seq<Event>, chunk: seq<Event>, offset: real) returns (r: seq<Event>)
    ensures r == acc + ShiftAll(chunk, offset)
  {
    r := acc;
    for j := 0 to |chunk|
      invariant r == acc + ShiftAll(chunk[..j], offset)
    {
      assert ShiftAll(chunk[..j + 1], offset) == ShiftAll(chunk[..j], offset) + [Shifted(chunk[j], offset)];
      r := r + [Shifted(chunk[j], offset)];
    }
    assert chunk[..|chunk|] == chunk;
  }

  /** One iteration of the source's merge loop: a chunk that succeeded adds
      its audio and its events shifted by the current offset, and a chunk
      with events sets the offset to its own last end plus the pause. */
  method MergeChunk(res: Option<ChunkResult>, audio: seq<Byte>, alignment: seq<Event>, offset: real)
    returns (audio': seq<Byte>, alignment': seq<Event>, offset': real)
    ensures audio' == audio + ChunkAudio(res)
    ensures alignment' == alignment + ShiftAll(ChunkEvents(res), offset)
    ensures offset' == if ChunkEvents(res) != [] then LastEnd(ChunkEvents(res)) + ParagraphPause else offset
  {
    audio', alignment', offset' := audio, alignment, offset;
    if res.Some? {
      audio' := audio + res.value.audio;
      var chunk := res.value.alignment;
      alignment' := AppendShifted(alignment, chunk, offset);
      if chunk != [] {
        offset' := chunk[|chunk| - 1].end + ParagraphPause;
      }
    } else {
      assert ChunkEvents(res) == [] && ShiftAll([], offset) == [];
      assert alignment + [] == alignment && audio + [] == audio;
    }
  }

  /** The corrected iteration: a chunk with events moves the offset on by
      its last end plus the pause. */
  method MergeChunkRunning(res: Option<ChunkResult>, audio: seq<Byte>, alignment: seq<Event>, offset: real)
    returns (audio': seq<Byte>, alignment': seq<Event>, offset': real)
    ensures audio' == audio + ChunkAudio(res)
    ensures alignment' == alignment + ShiftAll(ChunkEvents(res), offset)
    ensures offset' == if ChunkEvents(res) != [] then offset + LastEnd(ChunkEvents(res)) + ParagraphPause else offset
  {
    audio', alignment', offset' := audio, alignment, offset;
    if res.Some? {
      audio' := audio + res.value.audio;
      var chunk := res.value.alignment;
      alignment' := AppendShifted(alignment, chunk, offset);
      if chunk != [] {
        offset' := offset + chunk[|chunk| - 1].end + ParagraphPause;
      }
    } else {
      assert ChunkEvents(res) == [] && ShiftAll([], offset) == [];
      assert alignment + [] == alignment && audio + [] == audio;
    }
  }

  /** The merge loop of `generate_story_audio`: audio concatenated, each
      non-failed chunk's events shifted by the source's offset. */
  method MergeResults(results: seq<Option<ChunkResult>>) returns (audio: seq<Byte>, alignment: seq<Event>)
    ensures audio == MergedAudio(results)
    ensures alignment == Merged(results)
  {
    audio, alignment := [], [];
    var offset := 0.0;
    for i := 0 to |results|
      invariant audio == MergedAudio(results[..i])
      invariant alignment == Merged(results[..i])
      invariant offset == OffsetAfter(results[..i])
    {
      AudioStep(results, i);
      MergedWithStep(results, i, OffsetAfter);
      OffsetStep(results, i);
      audio, alignment, offset := MergeChunk(results[i], audio, alignment, offset);
    }
    assert results[..|results|] == results;
  }

  /** The merge loop with the running offset. */
  method MergeResultsRunning(results: seq<Option<ChunkResult>>) returns (audio: seq<Byte>, alignment: seq<Event>)
    ensures audio == MergedAudio(results)
    ensures alignment == MergedRunning(results)
  {
    audio, alignment := [], [];
    var offset := 0.0;
    for i := 0 to |results|
      invariant audio == MergedAudio(results[..i])
      invariant alignment == MergedRunning(results[..i])
      invariant offset == RunningOffsetAfter(results[..i])
    {
      AudioStep(results, i);
      MergedWithStep(results, i, RunningOffsetAfter);
      RunningOffsetStep(results, i);
      audio, alignment, offset := MergeChunkRunning(results[i], audio, alignment, offset);
    }
    assert results[..|results|] == results;
  }

  /** Events whose start times never decrease. */
  ghost predicate Chronological(es: seq<Event>) {
    forall i, j :: 0 <= i < j < |es| ==> es[i].start <= es[j].start
  }

  /** A chunk as the speech engine produces one: chronological, with every
      event inside [0, end of the last event]. */
  ghost predicate WellTimed(es: seq<Event>) {
    Chronological(es)
    && forall i :: 0 <= i < |es| ==> 0.0 <= es[i].start <= es[i].end <= es[|es| - 1].end
  }

  /** Every event lies inside [lo, hi]. */
  ghost predicate Within(es: seq<Event>, lo: real, hi: real) {
    forall i :: 0 <= i < |es| ==> lo <= es[i].start <= es[i].end <= hi
  }

  lemma ShiftedChunkTiming(es: seq<Event>, o: real)
    requires WellTimed(es) && es != []
    ensures Chronological(ShiftAll(es, o))
    ensures Within(ShiftAll(es, o), o, o + LastEnd(es))
  {
    var r := ShiftAll(es, o);
    forall i, j | 0 <= i < j < |r| ensures r[i].start <= r[j].start {
      assert es[i].start <= es[j].start;
    }
  }

  lemma ChronologicalAppend(a: seq<Event>, b: seq<Event>, bound: real)
    requires Chronological(a) && Chronological(b)
    requires forall i :: 0 <= i < |a| ==> a[i].start <= bound
    requires forall j :: 0 <= j < |b| ==> bound <= b[j].start
    ensures Chronological(a + b)
  {
    var c := a + b;
    forall i, j | 0 <= i < j < |c| ensures c[i].start <= c[j].start {
      if j < |a| {
        assert c[i] == a[i] && c[j] == a[j];
      } else if i >= |a| {
        assert c[i] == b[i - |a|] && c[j] == b[j - |a|];
      } else {
        assert c[i] == a[i] && c[j] == b[j - |a|];
      }
    }
  }

  lemma WithinAppend(a: seq<Event>, b: seq<Event>, lo: real, hi: real)
    requires Within(a, lo, hi) && Within(b, lo, hi)
    ensures Within(a + b, lo, hi)
  {
    var c := a + b;
    forall i | 0 <= i < |c| ensures lo <= c[i].start <= c[i].end <= hi {
      if i < |a| {
        assert c[i] == a[i];
      } else {
        assert c[i] == b[i - |a|];
      }
    }
  }

  /** With running offsets, well-timed chunks merge into a chronological
      alignment that lies between 0 and the next offset. */
  lemma {:induction false} RunningMergeIsChronological(rs: seq<Option<ChunkResult>>)
    requires forall m :: 0 <= m < |rs| ==> WellTimed(ChunkEvents(rs[m]))
    ensures Chronological(MergedRunning(rs))
    ensures RunningOffsetAfter(rs) >= 0.0
    ensures Within(MergedRunning(rs), 0.0, RunningOffsetAfter(rs))
    decreases |rs|
  {
    if rs != [] {
      var p := rs[..|rs| - 1];
      assert forall m :: 0 <= m < |p| ==> p[m] == rs[m];
      RunningMergeIsChronological(p);
      var es := ChunkEvents(rs[|rs| - 1]);
      var o := RunningOffsetAfter(p);
      var before := MergedRunning(p);
      assert MergedRunning(rs) == before + ShiftAll(es, o);
      if es != [] {
        assert WellTimed(es);
        var hi := RunningOffsetAfter(rs);
        ShiftedChunkTiming(es, o);
        assert Within(before, 0.0, hi);
        assert Within(ShiftAll(es, o), 0.0, hi);
        WithinAppend(before, ShiftAll(es, o), 0.0, hi);
        ChronologicalAppend(before, ShiftAll(es, o), o);
      } else {
        assert before + ShiftAll(es, o) == before;
      }
    }
  }

  function OneEventChunk(start: real, end: real): Option<ChunkResult> {
    Some(ChunkResult([], [Event(WordBoundary, "w", start, end)]))
  }

  lemma OneEventWellTimed(start: real, end: real)
    requires 0.0 <= start <= end
    ensures WellTimed(ChunkEvents(OneEventChunk(start, end)))
  {
  }

  /** Three one-event paragraphs lasting 5 s, 1 s and 1 s: the source shifts
      the third by 1.3 s (the second's own end plus the pause) although the
      second was placed at 5.3 s, so the third paragraph's word is timed
      before the second's. */
  lemma SourceMergeCanRunBackwards()
    ensures var rs := [OneEventChunk(0.0, 5.0), OneEventChunk(0.0, 1.0), OneEventChunk(0.0, 1.0)];
            && (forall m :: 0 <= m < |rs| ==> WellTimed(ChunkEvents(rs[m])))
            && |Merged(rs)| == 3
            && Merged(rs)[1].start == 5.3 && Merged(rs)[2].start == 1.3
            && !Chronological(Merged(rs))
  {
    var a, b := OneEventChunk(0.0, 5.0), OneEventChunk(0.0, 1.0);
    var rs := [a, b, b];
    OneEventWellTimed(0.0, 5.0);
    OneEventWellTimed(0.0, 1.0);
    assert rs[..1] == [a] && rs[..2] == [a, b] && rs[..3] == rs;
    assert [a][..0] == [] && [a, b][..1] == [a];
    assert |Unshifted([a])| == 1 && |Unshifted([a, b])| == 2 && |Unshifted(rs)| == 3;
    assert OffsetAfter([a]) == 5.3 && OffsetAfter([a, b]) == 1.3;
    MergedLength(rs, OffsetAfter);
    MergedPlacesChunk(rs, OffsetAfter, 1, 0);
    MergedPlacesChunk(rs, OffsetAfter, 2, 0);
  }

  // ---------------------------------------------------------------------
  // Word events fabricated from sentence events

  function SentenceWords(e: Event): seq<string> {
    Text.Words(Text.PyStrip(e.word))
  }

  /** A sentence event whose text has at least one word. */
  predicate Splittable(e: Event) {
    e.kind == SentenceBoundary && Text.PyStrip(e.word) != [] && |SentenceWords(e)| > 0
  }

  /** Word events for `words`, back to back from `start`, each `step` long. */
  function WordEvents(words: seq<string>, start: real, step: real): (r: seq<Event>)
    ensures |r| == |words|
    ensures forall j :: 0 <= j < |r| ==> r[j].kind == WordBoundary && r[j].word == words[j]
  {
    seq(|words|, j requires 0 <= j < |words| =>
      Event(WordBoundary, words[j], start + j as real * step, start + (j + 1) as real * step))
  }

  /** What the fallback emits for one event: non-sentence events and blank
      sentences unchanged; a sentence with words becomes one word event per
      word followed by the sentence event itself. */
  function Expand(e: Event): (r: seq<Event>)
    ensures r != [] && r[|r| - 1] == e
    ensures !Splittable(e) ==> r == [e]
    ensures Splittable(e) ==> |r| == |SentenceWords(e)| + 1
    ensures forall j :: 0 <= j < |r| - 1 ==> r[j].kind == WordBoundary
  {
    if !Splittable(e) then [e] else SpreadWords(e) + [e]
  }

  /** Word events for `words` sharing [start, end] evenly, back to back. */
  function Spread(words: seq<string>, start: real, end: real): seq<Event>
    requires words != []
  {
    WordEvents(words, start, (end - start) / |words| as real)
  }

  /** The word events fabricated for a splittable sentence: its words
      sharing its time window evenly. */
  function SpreadWords(e: Event): seq<Event>
    requires Splittable(e)
  {
    Spread(SentenceWords(e), e.start, e.end)
  }

  lemma MulDiv(a: real, n: real)
    requires n != 0.0
    ensures n * (a / n) == a
  {
  }

  /** Word events are back to back from `start`, each `step` long. */
  lemma WordEventsTiming(words: seq<string>, start: real, step: real)
    ensures var r := WordEvents(words, start, step);
            && (r != [] ==> r[0].start == start && r[|r| - 1].end == start + |r| as real * step)
            && (forall j :: 0 <= j < |r| - 1 ==> r[j].end == r[j + 1].start)
            && (forall j :: 0 <= j < |r| ==> r[j].end - r[j].start == step)
  {
    var r := WordEvents(words, start, step);
    forall j | 0 <= j < |r| ensures r[j].end - r[j].start == step {
      NextMultiple(j, step);
    }
  }

  /** Words spread evenly over [start, end] cover it exactly. This is the
      timing of the fallback: `SpreadWords(e)` spreads the sentence's words
      over the sentence's window [e.start, e.end]. */
  lemma EvenSpreadCovers(words: seq<string>, start: real, end: real)
    requires words != []
    ensures var r := Spread(words, start, end);
            && |r| == |words| && (forall j :: 0 <= j < |r| ==> r[j].kind == WordBoundary && r[j].word == words[j])
            && r[0].start == start && r[|r| - 1].end == end
            && (forall j :: 0 <= j < |r| - 1 ==> r[j].end == r[j + 1].start)
            && (forall j :: 0 <= j < |r| ==> r[j].end - r[j].start == (end - start) / |words| as real)
  {
    var n := |words|;
    var step := (end - start) / n as real;
    WordEventsTiming(words, start, step);
    MulDiv(end - start, n as real);
  }

  /** The fallback applied to a whole alignment. */
  function ExpandAll(es: seq<Event>): seq<Event>
    decreases |es|
  {
    if es == [] then [] else ExpandAll(es[..|es| - 1]) + Expand(es[|es| - 1])
  }

  predicate HasWordBoundary(es: seq<Event>) {
    exists i :: 0 <= i < |es| && es[i].kind == WordBoundary
  }

  /** The events that are not word events, in order. */
  function NonWords(es: seq<Event>): seq<Event>
    decreases |es|
  {
    if es == [] then []
    else NonWords(es[..|es| - 1]) + (if es[|es| - 1].kind == WordBoundary then [] else [es[|es| - 1]])
  }

  lemma {:induction false} NonWordsAppend(a: seq<Event>, b: seq<Event>)
    ensures NonWords(a + b) == NonWords(a) + NonWords(b)
    decreases |b|
  {
    if b != [] {
      var b' := b[..|b| - 1];
      assert (a + b)[..|a + b| - 1] == a + b';
      NonWordsAppend(a, b');
    } else {
      assert a + b == a;
    }
  }

  /** The fallback keeps a non-word event, after any words it fabricates. */
  lemma NonWordsOfExpand(e: Event)
    requires e.kind != WordBoundary
    ensures NonWords(Expand(e)) == [e]
  {
    assert NonWords([e]) == [e] by {
      assert [e][..0] == [];
    }
    if Splittable(e) {
      NonWordsAppend(SpreadWords(e), [e]);
      NoNonWordsAmongWords(SpreadWords(e));
    }
  }

  /** Removing the word events from the fallback's output gives back its
      input, when the input had none: every original event passes through
      unchanged and in order. */
  lemma {:induction false} ExpandAllKeepsOriginals(es: seq<Event>)
    requires !HasWordBoundary(es)
    ensures NonWords(ExpandAll(es)) == es
    decreases |es|
  {
    if es != [] {
      PrefixHasNoWords(es);
      ExpandAllKeepsOriginals(es[..|es| - 1]);
      NonWordsOfExpandAll(es);
    }
  }

  lemma PrefixHasNoWords(es: seq<Event>)
    requires es != [] && !HasWordBoundary(es)
    ensures !HasWordBoundary(es[..|es| - 1]) && es[|es| - 1].kind != WordBoundary
  {
    var p := es[..|es| - 1];
    forall i | 0 <= i < |p| ensures p[i].kind != WordBoundary {
      assert p[i] == es[i];
    }
  }

  lemma NonWordsOfExpandAll(es: seq<Event>)
    requires es != [] && es[|es| - 1].kind != WordBoundary
    requires NonWords(ExpandAll(es[..|es| - 1])) == es[..|es| - 1]
    ensures NonWords(ExpandAll(es)) == es
  {
    NonWordsAppend(ExpandAll(es[..|es| - 1]), Expand(es[|es| - 1]));
    NonWordsOfExpand(es[|es| - 1]);
    LastSplit(es);
  }

  lemma LastSplit<T>(s: seq<T>)
    requires s != []
    ensures s[..|s| - 1] + [s[|s| - 1]] == s
  {
  }

  lemma {:induction false} NoNonWordsAmongWords(w: seq<Event>)
    requires forall j :: 0 <= j < |w| ==> w[j].kind == WordBoundary
    ensures NonWords(w) == []
    decreases |w|
  {
    if w != [] {
      NoNonWordsAmongWords(w[..|w| - 1]);
    }
  }

  lemma ExpandAllStep(es: seq<Event>, i: nat)
    requires i < |es|
    ensures ExpandAll(es[..i + 1]) == ExpandAll(es[..i]) + Expand(es[i])
  {
    assert es[..i + 1][..i] == es[..i];
  }

  lemma NextMultiple(j: nat, step: real)
    ensures (j + 1) as real * step == j as real * step + step
  {
    var x := j as real;
    assert (j + 1) as real == x + 1.0;
    assert (x + 1.0) * step == x * step + 1.0 * step;
  }

  /** Appending word `j` to the first `j` word events gives the first `j + 1`. */
  lemma WordEventsStep(words: seq<string>, start: real, step: real, j: nat)
    requires j < |words|
    ensures WordEvents(words, start, step)[..j + 1] ==
              WordEvents(words, start, step)[..j]
              + [Event(WordBoundary, words[j], start + j as real * step, start + j as real * step + step)]
    ensures start + j as real * step + step == start + (j + 1) as real * step
  {
    var w := WordEvents(words, start, step);
    NextMultiple(j, step);
    assert w[j] == Event(WordBoundary, words[j], start + j as real * step, start + j as real * step + step);
    assert w[..j + 1] == w[..j] + [w[j]];
  }

  /** The inner loop of `_synthesize_word_boundaries`: one word event per
      word, each starting where the previous one ended. */
  method AppendWordEvents(words: seq<string>, start: real, timePerWord: real) returns (r: seq<Event>)
    ensures r == WordEvents(words, start, timePerWord)
  {
    r := [];
    var currentTime := start;
    for j := 0 to |words|
      invariant r == WordEvents(words, start, timePerWord)[..j]
      invariant currentTime == start + j as real * timePerWord
    {
      WordEventsStep(words, start, timePerWord, j);
      r := r + [Event(WordBoundary, words[j], currentTime, currentTime + timePerWord)];
      currentTime := currentTime + timePerWord;
    }
    assert WordEvents(words, start, timePerWord)[..|words|] == WordEvents(words, start, timePerWord);
  }

  /** The body of the loop of `_synthesize_word_boundaries` for one event. */
  method ExpandEvent(sent: Event) returns (r: seq<Event>)
    ensures r == Expand(sent)
  {
    if sent.kind != SentenceBoundary {
      return [sent];
    }
    var sentenceText := Text.PyStrip(sent.word);
    if sentenceText == [] {
      return [sent];
    }
    var words := Text.Words(sentenceText);
    if |words| == 0 {
      return [sent];
    }
    var wordEvents := SplitSentence(sent, words);
    r := wordEvents + [sent];
  }

  /** The word events of a sentence with words: the sentence's duration
      divided evenly among them. */
  method SplitSentence(sent: Event, words: seq<string>) returns (r: seq<Event>)
    requires words != []
    ensures r == Spread(words, sent.start, sent.end)
  {
    var timePerWord := (sent.end - sent.start) / |words| as real;
    r := AppendWordEvents(words, sent.start, timePerWord);
  }

  /** `_synthesize_word_boundaries`. */
  method SynthesizeWordBoundaries(alignment: seq<Event>) returns (out: seq<Event>)
    ensures out == ExpandAll(alignment)
  {
    out := [];
    for i := 0 to |alignment|
      invariant out == ExpandAll(alignment[..i])
    {
      ExpandAllStep(alignment, i);
      var expanded := ExpandEvent(alignment[i]);
      out := out + expanded;
    }
    assert alignment[..|alignment|] == alignment;
  }

  /** What `generate_story_audio` produces (the file name and the write of
      the audio file aside). */
  datatype Narration = Narration(voice: string, paragraphs: seq<string>, audio: seq<Byte>, alignment: seq<Event>)

  /** The results of synthesising each paragraph with the voice, in
      paragraph order. */
  function SynthesizeAll(paragraphs: seq<string>, voice: string, synthesize: (string, string) -> Option<ChunkResult>): (rs: seq<Option<ChunkResult>>)
    ensures |rs| == |paragraphs|
    ensures forall i :: 0 <= i < |rs| ==> rs[i] == synthesize(paragraphs[i], voice)
  {
    seq(|paragraphs|, i requires 0 <= i < |paragraphs| => synthesize(paragraphs[i], voice))
  }

  /** The corrected merge and the source's place the same events in the same
      order, with the same kinds, words and durations: only the start and end
      times differ. So both take the sentence fallback on the same inputs. */
  lemma RunningMergeMatchesSource(rs: seq<Option<ChunkResult>>)
    ensures SameShapes(MergedRunning(rs), Merged(rs))
    ensures HasWordBoundary(MergedRunning(rs)) <==> HasWordBoundary(Merged(rs))
  {
    var a, b := MergedRunning(rs), Merged(rs);
    MergedKeepsShapes(rs, RunningOffsetAfter);
    MergedKeepsShapes(rs, OffsetAfter);
    assert forall i :: 0 <= i < |a| ==> a[i].kind == Shape(a[i]).0 == Shape(b[i]).0 == b[i].kind;
    if HasWordBoundary(a) {
      var i :| 0 <= i < |a| && a[i].kind == WordBoundary;
      assert b[i].kind == WordBoundary;
    }
    if HasWordBoundary(b) {
      var i :| 0 <= i < |b| && b[i].kind == WordBoundary;
      assert a[i].kind == WordBoundary;
    }
  }

  /** `generate_story_audio`: one synthesis request per paragraph with the
      story type's voice, the results merged in paragraph order (with the
      running offset), and the sentence fallback applied exactly when the
      merged alignment has no word event. `synthesize` stands for the speech
      engine: what it returns for a paragraph and a voice. */
  method GenerateStoryAudio(text: string, storyType: string, synthesize: (string, string) -> Option<ChunkResult>)
    returns (n: Narration)
    ensures n.voice == VoiceFor(storyType)
    ensures n.paragraphs == Paragraphs(text)
    ensures n.audio == MergedAudio(SynthesizeAll(n.paragraphs, n.voice, synthesize))
    ensures var merged := MergedRunning(SynthesizeAll(n.paragraphs, n.voice, synthesize));
            n.alignment == if HasWordBoundary(merged) then merged else ExpandAll(merged)
    ensures var rs := SynthesizeAll(n.paragraphs, n.voice, synthesize);
            && SameShapes(MergedRunning(rs), Merged(rs))
            && (HasWordBoundary(MergedRunning(rs)) <==> HasWordBoundary(Merged(rs)))
  {
    var voice := VoiceFor(storyType);
    var paragraphs := Paragraphs(text);
    var results := SynthesizeAll(paragraphs, voice, synthesize);
    var audio, alignment := MergeResultsRunning(results);
    RunningMergeMatchesSource(results);
    if !HasWordBoundary(alignment) {
      alignment := SynthesizeWordBoundaries(alignment);
    }
    n := Narration(voice, paragraphs, audio, alignment);
  }
}
