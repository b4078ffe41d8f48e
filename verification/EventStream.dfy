/**
 * The line loop of a stream connection (streaming.go:174-227), and bufio.ScanLines in front of it.
 */
module EventStream {
  import opened Text

  /** What handleEvent is called with. */
  datatype Frame = Frame(kind: string, data: string)

  /** The loop's locals, and the calls it made. */
  datatype Reader = Reader(kind: string, data: string, delivered: bool, handled: seq<Frame>)

  const EVENT := "event: "
  const DATA := "data: "
  const FRESH := Reader("", "", false, [])

  predicate HasPrefix(s: string, prefix: string) {
    |prefix| <= |s| && s[..|prefix|] == prefix
  }

  /** One line of the stream. */
  function Feed(r: Reader, line: string): Reader {
    if HasPrefix(line, EVENT) then r.(kind := line[|EVENT|..])
    else if HasPrefix(line, DATA) then
      var chunk := line[|DATA|..];
      r.(data := if r.data == "" then chunk else r.data + ['\n'] + chunk)
    else if line == "" then
      if r.kind != "" && r.data != ""
      then Reader("", "", true, r.handled + [Frame(r.kind, r.data)])
      else r.(kind := "", data := "")
    else r
  }

  function FeedAll(r: Reader, lines: seq<string>): Reader {
    if lines == [] then r else Feed(FeedAll(r, lines[..|lines| - 1]), lines[|lines| - 1])
  }

  /** connect's loop over the lines read before the connection ended or was cancelled. */
  method ReadLines(lines: seq<string>) returns (handled: seq<Frame>, delivered: bool)
    ensures handled == FeedAll(FRESH, lines).handled
    ensures delivered <==> handled != []
  {
    var kind, data := "", "";
    handled, delivered := [], false;
    for i := 0 to |lines|
      invariant Reader(kind, data, delivered, handled) == FeedAll(FRESH, lines[..i])
      invariant delivered <==> handled != []
    {
      var line := lines[i];
      assert lines[..i + 1][..i] == lines[..i];
      if HasPrefix(line, EVENT) {
        kind := line[|EVENT|..];
      } else if HasPrefix(line, DATA) {
        var chunk := line[|DATA|..];
        if data == "" {
          data := chunk;
        } else {
          data := data + ['\n'] + chunk;
        }
      } else if line == "" {
        if kind != "" && data != "" {
          handled := handled + [Frame(kind, data)];
          delivered := true;
        }
        kind := "";
        data := "";
      }
    }
    assert lines[..|lines|] == lines;
  }

  // ---- the scanner in front ------------------------------------------------------------

  predicate EndsWithCR(line: string) {
    line != "" && line[|line| - 1] == '\r'
  }

  function DropCR(line: string): string {
    if EndsWithCR(line) then line[..|line| - 1] else line
  }

  /** bufio.ScanLines: cut at newlines, one trailing carriage return off each; no line after the last newline. */
  function Lines(text: string): seq<string>
    decreases |text|
  {
    if text == "" then []
    else
      var i := IndexByte(text, '\n');
      if i == |text| then [DropCR(text)] else [DropCR(text[..i])] + Lines(text[i + 1..])
  }

  /** Every frame a stream of this text hands over. */
  function Delivered(text: string): seq<Frame> {
    FeedAll(FRESH, Lines(text)).handled
  }

  // ---- rendering: the event and data fields of section 9.2.6 of the WHATWG HTML standard -------

  /** One data line per line of the payload. */
  function DataLines(parts: seq<string>): seq<string> {
    seq(|parts|, i requires 0 <= i < |parts| => DATA + parts[i])
  }

  function RenderParts(kind: string, parts: seq<string>): seq<string> {
    [EVENT + kind] + DataLines(parts) + [""]
  }

  function Render(f: Frame): seq<string> {
    RenderParts(f.kind, Split(f.data, '\n'))
  }

  function RenderAll(frames: seq<Frame>): seq<string> {
    if frames == [] then [] else RenderAll(frames[..|frames| - 1]) + Render(frames[|frames| - 1])
  }

  function Written(lines: seq<string>): string {
    if lines == [] then "" else lines[0] + ['\n'] + Written(lines[1..])
  }

  function Dropped(lines: seq<string>): seq<string> {
    seq(|lines|, i requires 0 <= i < |lines| => DropCR(lines[i]))
  }

  /** The payload as the loop rebuilds it: empty lines before the first text are lost. */
  function Rebuilt(parts: seq<string>): string {
    if parts == [] then "" else if parts[0] == "" then Rebuilt(parts[1..]) else Join(parts, '\n')
  }

  /** What handleEvent gets of an event line and data lines. */
  function ReceivedParts(kind: string, parts: seq<string>): seq<Frame> {
    if kind != "" && Rebuilt(parts) != "" then [Frame(kind, Rebuilt(parts))] else []
  }

  /** What handleEvent gets of a rendered frame: at most one, carriage returns at line ends lost. */
  function Received(f: Frame): seq<Frame> {
    ReceivedParts(DropCR(f.kind), Dropped(Split(f.data, '\n')))
  }

  function Parts(frames: seq<Frame>): seq<seq<Frame>> {
    seq(|frames|, i requires 0 <= i < |frames| => Received(frames[i]))
  }

  function Collected(parts: seq<seq<Frame>>): seq<Frame> {
    if parts == [] then [] else Collected(parts[..|parts| - 1]) + parts[|parts| - 1]
  }

  function ReceivedAll(frames: seq<Frame>): seq<Frame> {
    Collected(Parts(frames))
  }

  lemma {:induction false} FeedAllConcat(r: Reader, a: seq<string>, b: seq<string>)
    ensures FeedAll(r, a + b) == FeedAll(FeedAll(r, a), b)
  {
    if b == [] {
      assert a + b == a;
    } else {
      FeedAllConcat(r, a, b[..|b| - 1]);
      assert (a + b)[..|a + b| - 1] == a + b[..|b| - 1];
    }
  }

  lemma FeedOne(r: Reader, line: string)
    ensures FeedAll(r, [line]) == Feed(r, line)
  {
    assert [line][..0] == [];
  }

  lemma FeedEvent(r: Reader, kind: string)
    ensures Feed(r, EVENT + kind) == r.(kind := kind)
  {
    assert (EVENT + kind)[..|EVENT|] == EVENT && (EVENT + kind)[|EVENT|..] == kind;
  }

  lemma FeedData(r: Reader, chunk: string)
    ensures Feed(r, DATA + chunk) == r.(data := if r.data == "" then chunk else r.data + ['\n'] + chunk)
  {
    var line := DATA + chunk;
    assert line[..|DATA|] == DATA && line[|DATA|..] == chunk;
    assert line[0] == 'd' && EVENT[0] == 'e';
  }

  /** The payload after some data lines, starting from data. */
  function Grown(data: string, parts: seq<string>): string {
    if parts == [] then data
    else if data == "" then Rebuilt(parts)
    else data + ['\n'] + Join(parts, '\n')
  }

  lemma {:induction false} FeedDataLines(r: Reader, parts: seq<string>)
    ensures FeedAll(r, DataLines(parts)) == r.(data := Grown(r.data, parts))
    decreases |parts|
  {
    if parts != [] {
      var first, rest := parts[0], parts[1..];
      var r1 := Feed(r, DATA + first);
      FeedData(r, first);
      FeedOne(r, DATA + first);
      FeedAllConcat(r, [DATA + first], DataLines(rest));
      assert DataLines(parts) == [DATA + first] + DataLines(rest);
      FeedDataLines(r1, rest);
      GrownStep(r.data, first, rest);
    }
  }

  lemma GrownStep(data: string, first: string, rest: seq<string>)
    ensures Grown(if data == "" then first else data + ['\n'] + first, rest) == Grown(data, [first] + rest)
  {
    var parts, joined := [first] + rest, Join([first] + rest, '\n');
    assert parts[1..] == rest;
    assert joined == if rest == [] then first else first + ['\n'] + Join(rest, '\n');
    if data != "" {
      assert Grown(data, parts) == data + ['\n'] + joined;
      if rest != [] {
        var tail := Join(rest, '\n');
        assert (data + ['\n'] + first) + ['\n'] + tail == data + ['\n'] + (first + ['\n'] + tail);
      }
    } else if first != "" {
      assert Grown(data, parts) == joined;
    } else {
      assert parts[0] == "" && Rebuilt(parts) == Rebuilt(parts[1..]);
    }
  }

  lemma FeedRendered(r: Reader, kind: string, parts: seq<string>)
    requires r.kind == "" && r.data == ""
    ensures var t := FeedAll(r, RenderParts(kind, parts));
      && t.kind == "" && t.data == "" && t.handled == r.handled + ReceivedParts(kind, parts)
      && (t.delivered <==> r.delivered || ReceivedParts(kind, parts) != [])
  {
    var r1 := r.(kind := kind);
    var r2 := r1.(data := Rebuilt(parts));
    FeedEvent(r, kind);
    FeedOne(r, EVENT + kind);
    FeedAllConcat(r, [EVENT + kind], DataLines(parts));
    FeedDataLines(r1, parts);
    FeedAllConcat(r, [EVENT + kind] + DataLines(parts), [""]);
    FeedOne(r2, "");
    assert r.handled + [] == r.handled;
  }

  // ---- what the scanner makes of rendered lines ------------------------------------------

  lemma LinesOfLine(line: string, rest: string)
    requires '\n' !in line
    ensures Lines(line + ['\n'] + rest) == [DropCR(line)] + Lines(rest)
  {
    CutFirst(line, rest, '\n');
  }

  lemma {:induction false} LinesOfWritten(lines: seq<string>)
    requires forall i | 0 <= i < |lines| :: '\n' !in lines[i]
    ensures Lines(Written(lines)) == Dropped(lines)
  {
    if lines != [] {
      LinesOfWritten(lines[1..]);
      LinesOfLine(lines[0], Written(lines[1..]));
      assert Dropped(lines) == [DropCR(lines[0])] + Dropped(lines[1..]);
    }
  }

  lemma DropAfter(prefix: string, text: string)
    requires prefix != "" && !EndsWithCR(prefix)
    ensures DropCR(prefix + text) == prefix + DropCR(text)
  {
    if text == "" {
      assert prefix + text == prefix;
    } else {
      assert (prefix + text)[|prefix + text| - 1] == text[|text| - 1];
    }
  }

  lemma DroppedRender(kind: string, parts: seq<string>)
    ensures Dropped(RenderParts(kind, parts)) == RenderParts(DropCR(kind), Dropped(parts))
  {
    DropAfter(EVENT, kind);
    forall i | 0 <= i < |parts| ensures Dropped(DataLines(parts))[i] == DataLines(Dropped(parts))[i] {
      DropAfter(DATA, parts[i]);
    }
    assert Dropped(DataLines(parts)) == DataLines(Dropped(parts));
    var a, b, c := [EVENT + kind], DataLines(parts), [""];
    DroppedConcat(a + b, c);
    DroppedConcat(a, b);
    assert Dropped(a) == [DropCR(EVENT + kind)] && Dropped(c) == [""];
  }

  lemma DroppedConcat(a: seq<string>, b: seq<string>)
    ensures Dropped(a + b) == Dropped(a) + Dropped(b)
  {
  }

  lemma {:induction false} RenderedClean(frames: seq<Frame>)
    requires forall i | 0 <= i < |frames| :: '\n' !in frames[i].kind
    ensures forall i | 0 <= i < |RenderAll(frames)| :: '\n' !in RenderAll(frames)[i]
  {
    if frames != [] {
      var f := frames[|frames| - 1];
      RenderedClean(frames[..|frames| - 1]);
      JoinSplit(f.data, '\n');
    }
  }

  lemma ReceivedSnoc(older: seq<Frame>, last: Frame)
    ensures ReceivedAll(older + [last]) == ReceivedAll(older) + Received(last)
  {
    var parts := Parts(older + [last]);
    assert parts[..|older|] == Parts(older) && parts[|older|] == Received(last);
  }

  lemma FrameFed(r: Reader, f: Frame)
    requires r.kind == "" && r.data == ""
    ensures var t := FeedAll(r, Dropped(Render(f)));
      t.kind == "" && t.data == "" && t.handled == r.handled + Received(f)
  {
    DroppedRender(f.kind, Split(f.data, '\n'));
    FeedRendered(r, DropCR(f.kind), Dropped(Split(f.data, '\n')));
  }

  lemma RenderSnoc(older: seq<Frame>, last: Frame)
    ensures RenderAll(older + [last]) == RenderAll(older) + Render(last)
  {
    assert (older + [last])[..|older|] == older;
  }

  function Fed(frames: seq<Frame>): Reader {
    FeedAll(FRESH, Dropped(RenderAll(frames)))
  }

  lemma FedSnoc(older: seq<Frame>, last: Frame)
    ensures Fed(older + [last]) == FeedAll(Fed(older), Dropped(Render(last)))
  {
    RenderSnoc(older, last);
    DroppedConcat(RenderAll(older), Render(last));
    FeedAllConcat(FRESH, Dropped(RenderAll(older)), Dropped(Render(last)));
  }

  lemma OneMoreFed(older: seq<Frame>, last: Frame)
    requires Fed(older).kind == "" && Fed(older).data == "" && Fed(older).handled == ReceivedAll(older)
    ensures var t := Fed(older + [last]);
      t.kind == "" && t.data == "" && t.handled == ReceivedAll(older + [last])
  {
    FedSnoc(older, last);
    FrameFed(Fed(older), last);
    ReceivedSnoc(older, last);
  }

  /** For any list of frames, fed line by line, this is what the loop hands over, in order. */
  lemma {:induction false} FramesFed(frames: seq<Frame>)
    ensures Fed(frames).kind == "" && Fed(frames).data == "" && Fed(frames).handled == ReceivedAll(frames)
  {
    if frames != [] {
      var older, last := frames[..|frames| - 1], frames[|frames| - 1];
      FramesFed(older);
      assert frames == older + [last];
      OneMoreFed(older, last);
    }
  }

  /** The text of any frames whose kinds hold no newline. */
  lemma FramesReceived(frames: seq<Frame>)
    requires forall i | 0 <= i < |frames| :: '\n' !in frames[i].kind
    ensures Delivered(Written(RenderAll(frames))) == ReceivedAll(frames)
  {
    RenderedClean(frames);
    LinesOfWritten(RenderAll(frames));
    FramesFed(frames);
  }

  /** No text delivers a kind with a newline in it. */
  lemma {:induction false} LinesClean(text: string)
    ensures forall i | 0 <= i < |Lines(text)| :: '\n' !in Lines(text)[i]
    decreases |text|
  {
    if text != "" {
      var i := IndexByte(text, '\n');
      if i < |text| {
        LinesClean(text[i + 1..]);
      }
    }
  }

  predicate CleanReader(r: Reader) {
    '\n' !in r.kind && forall i | 0 <= i < |r.handled| :: '\n' !in r.handled[i].kind
  }

  lemma {:induction false} FedClean(lines: seq<string>)
    requires forall i | 0 <= i < |lines| :: '\n' !in lines[i]
    ensures CleanReader(FeedAll(FRESH, lines))
  {
    if lines != [] {
      FedClean(lines[..|lines| - 1]);
    }
  }

  // ---- round trip ---------------------------------------------------------------------------

  /** No line of text ends with a carriage return. */
  predicate NoLineEndsWithCR(text: string) {
    var parts := Split(text, '\n');
    forall i | 0 <= i < |parts| :: !EndsWithCR(parts[i])
  }

  /**
   * A frame that survives the trip: its kind is not empty, is one line and does not end with a
   * carriage return; the first line of its payload is not empty, and none ends with one.
   */
  predicate Faithful(f: Frame) {
    && f.kind != "" && '\n' !in f.kind && !EndsWithCR(f.kind)
    && f.data != "" && f.data[0] != '\n' && NoLineEndsWithCR(f.data)
  }

  lemma FirstLine(data: string)
    ensures Split(data, '\n')[0] == "" <==> data == "" || data[0] == '\n'
  {
  }

  lemma {:induction false} RebuiltShorter(parts: seq<string>)
    requires |parts| > 0
    ensures |Rebuilt(parts)| <= |Join(parts, '\n')|
    ensures parts[0] == "" && |parts| > 1 ==> |Rebuilt(parts)| < |Join(parts, '\n')|
  {
    if |parts| > 1 {
      RebuiltShorter(parts[1..]);
    }
  }

  lemma {:induction false} DroppedShorter(parts: seq<string>)
    requires |parts| > 0
    ensures |Join(Dropped(parts), '\n')| <= |Join(parts, '\n')|
    ensures (exists i | 0 <= i < |parts| :: EndsWithCR(parts[i])) ==> |Join(Dropped(parts), '\n')| < |Join(parts, '\n')|
  {
    if |parts| > 1 {
      DroppedShorter(parts[1..]);
      assert Dropped(parts)[1..] == Dropped(parts[1..]);
      assert forall i | 1 <= i < |parts| :: parts[1..][i - 1] == parts[i];
    }
  }

  lemma NothingDropped(parts: seq<string>)
    requires forall i | 0 <= i < |parts| :: !EndsWithCR(parts[i])
    ensures Dropped(parts) == parts
  {
  }

  /** The payload survives exactly when no line loses its end and the first line is not empty. */
  lemma PayloadSurvives(data: string)
    requires data != ""
    ensures Rebuilt(Dropped(Split(data, '\n'))) == data <==> data[0] != '\n' && NoLineEndsWithCR(data)
  {
    var parts := Split(data, '\n');
    JoinSplit(data, '\n');
    FirstLine(data);
    if NoLineEndsWithCR(data) {
      NothingDropped(parts);
      RebuiltShorter(parts);
    } else {
      DroppedShorter(parts);
      RebuiltShorter(Dropped(parts));
    }
  }

  /** The frame is handed over as it was sent. */
  predicate Survives(f: Frame) {
    Received(f) == [f]
  }

  /** A rendered frame arrives as it was sent exactly when it is faithful. */
  lemma FrameRoundTrip(f: Frame)
    ensures '\n' !in f.kind && Survives(f) <==> Faithful(f)
  {
    if f.data != "" {
      PayloadSurvives(f.data);
    }
  }

  lemma {:induction false} CollectedAtMost(parts: seq<seq<Frame>>)
    requires forall i | 0 <= i < |parts| :: |parts[i]| <= 1
    ensures |Collected(parts)| <= |parts|
  {
    if parts != [] {
      CollectedAtMost(parts[..|parts| - 1]);
    }
  }

  lemma {:induction false} SinglesCollect(parts: seq<seq<Frame>>, frames: seq<Frame>)
    requires |parts| == |frames| && forall i | 0 <= i < |frames| :: parts[i] == [frames[i]]
    ensures Collected(parts) == frames
  {
    if frames != [] {
      SinglesCollect(parts[..|parts| - 1], frames[..|frames| - 1]);
      assert frames == frames[..|frames| - 1] + [frames[|frames| - 1]];
    }
  }

  lemma {:induction false} CollectedSingles(parts: seq<seq<Frame>>, frames: seq<Frame>, i: nat)
    requires |parts| == |frames| && i < |frames| && Collected(parts) == frames
    requires forall j | 0 <= j < |parts| :: |parts[j]| <= 1
    ensures parts[i] == [frames[i]]
    decreases |frames|
  {
    var n := |frames| - 1;
    CollectedAtMost(parts[..n]);
    assert frames == frames[..n] + [frames[n]];
    LastApart(Collected(parts[..n]), parts[n], frames[..n], frames[n]);
    if i < n {
      CollectedSingles(parts[..n], frames[..n], i);
    }
  }

  lemma AtMostOneEach(frames: seq<Frame>)
    ensures forall i | 0 <= i < |Parts(frames)| :: |Parts(frames)[i]| <= 1
  {
    forall i | 0 <= i < |frames| ensures |Parts(frames)[i]| <= 1 {
      AtMostOne(frames[i]);
    }
  }

  lemma AtMostOne(f: Frame)
    ensures |Received(f)| <= 1
  {
  }

  lemma PartOf(frames: seq<Frame>, i: nat)
    requires i < |frames|
    ensures Parts(frames)[i] == [frames[i]] <==> Survives(frames[i])
  {
  }

  lemma ReceivedExactly(frames: seq<Frame>)
    ensures ReceivedAll(frames) == frames <==> forall i | 0 <= i < |frames| :: Survives(frames[i])
  {
    var parts := Parts(frames);
    forall i | 0 <= i < |frames| ensures parts[i] == [frames[i]] <==> Survives(frames[i]) {
      PartOf(frames, i);
    }
    if Collected(parts) == frames {
      AtMostOneEach(frames);
      forall i | 0 <= i < |frames| ensures parts[i] == [frames[i]] {
        CollectedSingles(parts, frames, i);
      }
    } else if forall i | 0 <= i < |frames| :: Survives(frames[i]) {
      SinglesCollect(parts, frames);
    }
  }

  lemma LastApart(a: seq<Frame>, b: seq<Frame>, older: seq<Frame>, last: Frame)
    requires a + b == older + [last] && |a| <= |older| && |b| <= 1
    ensures a == older && b == [last]
  {
    assert |a| + |b| == |older| + 1;
    assert a == (a + b)[..|a|] && older == (older + [last])[..|older|];
    assert b == (a + b)[|a|..] && [last] == (older + [last])[|older|..];
  }

  /**
   * A list of frames, rendered, scanned and read, arrives one for one, in order and as it was
   * sent, exactly when every frame is faithful.
   */
  lemma StreamRoundTrip(frames: seq<Frame>)
    ensures Delivered(Written(RenderAll(frames))) == frames <==> forall i | 0 <= i < |frames| :: Faithful(frames[i])
  {
    forall i | 0 <= i < |frames| ensures '\n' !in frames[i].kind && Survives(frames[i]) <==> Faithful(frames[i]) {
      FrameRoundTrip(frames[i]);
    }
    if Delivered(Written(RenderAll(frames))) == frames {
      LinesClean(Written(RenderAll(frames)));
      FedClean(Lines(Written(RenderAll(frames))));
      FramesReceived(frames);
      ReceivedExactly(frames);
    } else if forall i | 0 <= i < |frames| :: Faithful(frames[i]) {
      FramesReceived(frames);
      ReceivedExactly(frames);
    }
  }

  // ---- lines that do not count ------------------------------------------------------------------

  /** A comment, another field, or anything else that is neither event, data nor blank. */
  predicate Ignored(line: string) {
    line != "" && !HasPrefix(line, "event: ") && !HasPrefix(line, "data: ")
  }

  lemma IgnoredFeed(r: Reader, a: seq<string>, line: string, b: seq<string>)
    requires Ignored(line)
    ensures FeedAll(r, a + [line] + b) == FeedAll(r, a + b)
  {
    FeedAllConcat(r, a + [line], b);
    FeedAllConcat(r, a, [line]);
    FeedOne(FeedAll(r, a), line);
    FeedAllConcat(r, a, b);
  }

  ghost predicate OneLiners(lines: seq<string>) {
    forall i | 0 <= i < |lines| :: '\n' !in lines[i]
  }

  lemma OneLinersTogether(a: seq<string>, line: string, b: seq<string>)
    requires OneLiners(a) && '\n' !in line && OneLiners(b)
    ensures OneLiners(a + [line] + b) && OneLiners(a + b)
  {
  }

  lemma DroppedTogether(a: seq<string>, line: string, b: seq<string>)
    ensures Dropped(a + [line] + b) == Dropped(a) + [DropCR(line)] + Dropped(b)
    ensures Dropped(a + b) == Dropped(a) + Dropped(b)
  {
    DroppedConcat(a + [line], b);
    DroppedConcat(a, [line]);
    DroppedConcat(a, b);
    assert Dropped([line]) == [DropCR(line)];
  }

  lemma DeliveredOf(lines: seq<string>)
    requires OneLiners(lines)
    ensures Delivered(Written(lines)) == FeedAll(FRESH, Dropped(lines)).handled
  {
    LinesOfWritten(lines);
  }

  /** Inserting such a line anywhere, say a keep-alive comment, changes nothing that is handed over. */
  lemma IgnoredLine(a: seq<string>, line: string, b: seq<string>)
    requires Ignored(DropCR(line)) && '\n' !in line && OneLiners(a) && OneLiners(b)
    ensures Delivered(Written(a + [line] + b)) == Delivered(Written(a + b))
  {
    OneLinersTogether(a, line, b);
    DeliveredOf(a + [line] + b);
    DeliveredOf(a + b);
    DroppedTogether(a, line, b);
    IgnoredFeed(FRESH, Dropped(a), DropCR(line), Dropped(b));
  }
}
