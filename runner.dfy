/**
 * One engine run as the downloader sees it: the lines the engine prints, read
 * one at a time, with the cancel flag checked before each line and once more
 * after the engine exits. Each line is trimmed and routed: blank lines are
 * skipped, progress lines become progress events, the final-path line becomes
 * a "finished" event and a "Saved:" log line, and every other line is logged
 * and kept in a buffer of the last twenty. The run then ends cancelled,
 * failed (with those buffered lines, or the exit code, as the message) or
 * successful.
 */
module Runner {
  import opened Wrappers
  import opened Text
  import opened Numerals
  import opened Decode
  import opened Progress
  import opened Command
  import opened Recent

  datatype Outcome = Success | Failed(message: string) | Cancelled

  /** The error message of an outcome that is not a success. */
  function ErrorMessage(o: Outcome): string {
    match o
    case Success => ""
    case Failed(m) => m
    case Cancelled => "Cancelled by user"
  }

  /** What the engine does in one run: the lines it prints, then its exit code. */
  datatype EngineRun = EngineRun(lines: seq<string>, exitCode: int)

  /**
   * The cancel flag as the run observes it: `Some(c)` when it is first seen
   * set at checkpoint `c`, `None` when it is never set. Once set it stays set.
   * Checkpoint `k` comes before line `k`; checkpoint |lines| comes after exit.
   */
  predicate CancelSet(cancelFrom: Option<nat>, k: nat) {
    cancelFrom.Some? && cancelFrom.value <= k
  }

  datatype LineKind = Blank | ProgressLine(payload: string) | FileLine(path: string) | OtherLine(text: string)

  /**
   * How one printed line is routed, after trimming it: blank exactly when it
   * is all whitespace, a progress line whenever the trimmed text starts with
   * the progress marker, a file line when it starts with the file marker
   * only, and otherwise an ordinary line carried trimmed.
   */
  function Classify(line: string): (k: LineKind)
    ensures k.Blank? <==> AllSpace(line)
    ensures k.ProgressLine? <==> Strip(line) != [] && StartsWith(Strip(line), ProgressPrefix)
    ensures k.ProgressLine? ==> Strip(line) == ProgressPrefix + k.payload
    ensures k.FileLine? ==> !StartsWith(Strip(line), ProgressPrefix) && Strip(line) == FilePrefix + k.path
    ensures k.OtherLine? ==> k.text == Strip(line) && k.text != []
    ensures k.OtherLine? ==> !StartsWith(k.text, ProgressPrefix) && !StartsWith(k.text, FilePrefix)
  {
    var cleaned := Strip(line);
    if cleaned == [] then Blank
    else if StartsWith(cleaned, ProgressPrefix) then ProgressLine(cleaned[|ProgressPrefix|..])
    else if StartsWith(cleaned, FilePrefix) then FileLine(cleaned[|FilePrefix|..])
    else OtherLine(cleaned)
  }

  function LineEvents(line: string): seq<ProgressEvent> {
    match Classify(line)
    case ProgressLine(p) => (var d := ParseProgress(p); if d.Some? then [d.value] else [])
    case FileLine(path) => [Finished(path)]
    case _ => []
  }

  function LineLogs(line: string): seq<string> {
    match Classify(line)
    case FileLine(path) => ["Saved: " + path]
    case OtherLine(text) => [text]
    case _ => []
  }

  function LineOthers(line: string): seq<string> {
    match Classify(line)
    case OtherLine(text) => [text]
    case _ => []
  }

  /** The outputs of `f` for each of `lines`, concatenated in order. */
  function FlatMap<T>(lines: seq<string>, f: string -> seq<T>): seq<T> {
    if lines == [] then [] else FlatMap(lines[..|lines| - 1], f) + f(lines[|lines| - 1])
  }

  lemma FlatMapPrefix<T>(lines: seq<string>, i: nat, f: string -> seq<T>)
    requires i < |lines|
    ensures FlatMap(lines[..i + 1], f) == FlatMap(lines[..i], f) + f(lines[i])
  {
    assert lines[..i + 1][..i] == lines[..i];
  }

  /** The trace of a concatenation is the concatenated traces. */
  lemma {:induction false} FlatMapAppend<T>(a: seq<string>, b: seq<string>, f: string -> seq<T>)
    ensures FlatMap(a + b, f) == FlatMap(a, f) + FlatMap(b, f)
  {
    var ab := a + b;
    if b == [] {
      assert ab == a;
      assert FlatMap(a, f) + [] == FlatMap(a, f);
    } else {
      var init, last := b[..|b| - 1], b[|b| - 1];
      FlatMapAppend(a, init, f);
      assert ab[..|ab| - 1] == a + init;
      assert ab[|ab| - 1] == last;
      assert FlatMap(ab, f) == FlatMap(a + init, f) + f(last);
      assert FlatMap(b, f) == FlatMap(init, f) + f(last);
    }
  }

  lemma TracesPrefix(lines: seq<string>, i: nat)
    requires i < |lines|
    ensures FlatMap(lines[..i + 1], LineEvents) == FlatMap(lines[..i], LineEvents) + LineEvents(lines[i])
    ensures FlatMap(lines[..i + 1], LineLogs) == FlatMap(lines[..i], LineLogs) + LineLogs(lines[i])
    ensures FlatMap(lines[..i + 1], LineOthers) == FlatMap(lines[..i], LineOthers) + LineOthers(lines[i])
  {
    FlatMapPrefix(lines, i, LineEvents);
    FlatMapPrefix(lines, i, LineLogs);
    FlatMapPrefix(lines, i, LineOthers);
  }

  /** The progress events emitted for `lines`, in order. */
  function Events(lines: seq<string>): seq<ProgressEvent> {
    FlatMap(lines, LineEvents)
  }

  /** The log lines written for `lines`, in order. */
  function Logs(lines: seq<string>): seq<string> {
    FlatMap(lines, LineLogs)
  }

  /** The lines of `lines` that are neither blank nor markers, trimmed, in order. */
  function Others(lines: seq<string>): seq<string> {
    FlatMap(lines, LineOthers)
  }

  const RecentCapacity: nat := 20

  /**
   * The failure message: the buffered lines (the last twenty ordinary lines)
   * joined by newlines, or the exit code when no ordinary line was printed.
   */
  function FailureDetails(others: seq<string>, code: int): (m: string)
    ensures others != [] ==> m == Join(LastN(others, RecentCapacity), "\n")
    ensures others == [] ==> m == "yt-dlp exited with code " + IntToString(code) + "."
  {
    var recent := LastN(others, RecentCapacity);
    if recent != [] then Join(recent, "\n")
    else "yt-dlp exited with code " + IntToString(code) + "."
  }

  datatype RunResult = RunResult(
    outcome: Outcome,
    events: seq<ProgressEvent>,
    logs: seq<string>,
    terminated: bool)

  /** The result of a run, in closed form. */
  function RunSpec(run: EngineRun, cancelFrom: Option<nat>): RunResult {
    if cancelFrom.Some? && cancelFrom.value < |run.lines| then
      var seen := run.lines[..cancelFrom.value];
      RunResult(Cancelled, Events(seen), Logs(seen), true)
    else
      var events, logs := Events(run.lines), Logs(run.lines);
      if CancelSet(cancelFrom, |run.lines|) then RunResult(Cancelled, events, logs, false)
      else if run.exitCode != 0 then
        RunResult(Failed(FailureDetails(Others(run.lines), run.exitCode)), events, logs, false)
      else RunResult(Success, events, logs, false)
  }

  /** Routes one printed line: the events and log lines it yields, and the buffer it leaves. */
  method RouteLine(line: string, recent: RecentLines) returns (events: seq<ProgressEvent>, logs: seq<string>)
    requires recent.Valid() && recent.capacity == RecentCapacity
    modifies recent, recent.data
    ensures recent.Valid()
    ensures events == LineEvents(line) && logs == LineLogs(line)
    ensures recent.Contents == LastN(old(recent.Contents) + LineOthers(line), RecentCapacity)
  {
    events, logs := [], [];
    var kind := Classify(line);
    if kind.OtherLine? {
      recent.Append(kind.text);
      logs := [kind.text];
    } else {
      assert old(recent.Contents) + [] == old(recent.Contents);
      if kind.FileLine? {
        events := [Finished(kind.path)];
        logs := ["Saved: " + kind.path];
      } else if kind.ProgressLine? {
        var d := ParseProgress(kind.payload);
        if d.Some? {
          events := [d.value];
        }
      }
    }
  }

  /** After reading the first `i` lines: the events and log lines they yield, and the buffer they leave. */
  ghost predicate ReadSoFar(lines: seq<string>, i: nat, events: seq<ProgressEvent>, logs: seq<string>, held: seq<string>) {
    && i <= |lines|
    && events == Events(lines[..i]) && logs == Logs(lines[..i])
    && held == LastN(Others(lines[..i]), RecentCapacity)
  }

  /** Routing line `i` extends the traces of the lines before it to the traces of the lines up to it. */
  lemma ReadStep(lines: seq<string>, i: nat, events: seq<ProgressEvent>, logs: seq<string>, held: seq<string>,
                 ev: seq<ProgressEvent>, lg: seq<string>, held': seq<string>)
    requires i < |lines| && ReadSoFar(lines, i, events, logs, held)
    requires ev == LineEvents(lines[i]) && lg == LineLogs(lines[i])
    requires held' == LastN(held + LineOthers(lines[i]), RecentCapacity)
    ensures ReadSoFar(lines, i + 1, events + ev, logs + lg, held')
  {
    LastNAppendAll(Others(lines[..i]), LineOthers(lines[i]), RecentCapacity);
    TracesPrefix(lines, i);
  }

  /**
   * The reading loop: checks the cancel flag before each line and routes the
   * line; stops early, with the engine to be terminated, once the flag is set.
   */
  method ReadLines(run: EngineRun, cancelFrom: Option<nat>, recent: RecentLines)
    returns (events: seq<ProgressEvent>, logs: seq<string>, stopped: bool)
    requires recent.Valid() && recent.capacity == RecentCapacity && recent.Contents == []
    modifies recent, recent.data
    ensures recent.Valid()
    ensures stopped <==> cancelFrom.Some? && cancelFrom.value < |run.lines|
    ensures stopped ==>
      events == Events(run.lines[..cancelFrom.value]) && logs == Logs(run.lines[..cancelFrom.value])
    ensures !stopped ==>
      events == Events(run.lines) && logs == Logs(run.lines) && recent.Contents == LastN(Others(run.lines), RecentCapacity)
  {
    events, logs := [], [];
    var i := 0;
    while i < |run.lines| && !CancelSet(cancelFrom, i)
      invariant cancelFrom.None? || i <= cancelFrom.value
      invariant recent.Valid() && recent.capacity == RecentCapacity
      invariant ReadSoFar(run.lines, i, events, logs, recent.Contents)
    {
      var line := run.lines[i];
      ghost var held := recent.Contents;
      var ev, lg := RouteLine(line, recent);
      ReadStep(run.lines, i, events, logs, held, ev, lg, recent.Contents);
      events, logs := events + ev, logs + lg;
      i := i + 1;
    }
    stopped := i < |run.lines|;
    ReadDone(run.lines, cancelFrom, i, events, logs, recent.Contents);
  }

  lemma ReadDone(lines: seq<string>, cancelFrom: Option<nat>, i: nat, events: seq<ProgressEvent>, logs: seq<string>, held: seq<string>)
    requires cancelFrom.None? || i <= cancelFrom.value
    requires !(i < |lines| && !CancelSet(cancelFrom, i))
    requires ReadSoFar(lines, i, events, logs, held)
    ensures i < |lines| <==> cancelFrom.Some? && cancelFrom.value < |lines|
    ensures i < |lines| ==>
      events == Events(lines[..cancelFrom.value]) && logs == Logs(lines[..cancelFrom.value])
    ensures i >= |lines| ==>
      events == Events(lines) && logs == Logs(lines) && held == LastN(Others(lines), RecentCapacity)
  {
    if i < |lines| {
      assert i == cancelFrom.value;
    } else {
      TakeAll(lines, i);
    }
  }

  /** Runs the engine: reads its lines, then classifies the outcome. */
  method RunEngine(run: EngineRun, cancelFrom: Option<nat>) returns (r: RunResult)
    ensures r == RunSpec(run, cancelFrom)
  {
    var recent := new RecentLines(RecentCapacity);
    var events, logs, stopped := ReadLines(run, cancelFrom, recent);
    if stopped {
      // the engine process is terminated
      return RunResult(Cancelled, events, logs, true);
    }
    if CancelSet(cancelFrom, |run.lines|) {
      return RunResult(Cancelled, events, logs, false);
    }
    if run.exitCode != 0 {
      var held := recent.Items();
      var details := if held != [] then Join(held, "\n")
                     else "yt-dlp exited with code " + IntToString(run.exitCode) + ".";
      return RunResult(Failed(details), events, logs, false);
    }
    return RunResult(Success, events, logs, false);
  }

  // ---------------------------------------------------------------------
  // Routing of single lines

  /** A line that is only whitespace is skipped entirely. */
  lemma BlankLine(line: string)
    requires AllSpace(line)
    ensures LineEvents(line) == [] && LineLogs(line) == [] && LineOthers(line) == []
  {
  }

  /** A marker followed by a payload that does not end in whitespace is routed to the progress parser. */
  lemma ClassifyProgress(payload: string, pad: string)
    requires payload == [] || !IsSpace(payload[|payload| - 1])
    requires AllSpace(pad)
    ensures Classify(ProgressPrefix + payload + pad) == ProgressLine(payload)
  {
    var body := ProgressPrefix + payload;
    assert body[0] == '_';
    assert body[|body| - 1] == if payload == [] then ':' else payload[|payload| - 1];
    StripPadded(body, pad);
    assert body[..|ProgressPrefix|] == ProgressPrefix && body[|ProgressPrefix|..] == payload;
  }

  /**
   * A progress line as the engine prints it from the progress template (the
   * marker, then the status and the numbers, whole or fractional, with "NA"
   * for the missing ones, then any trailing whitespace) yields exactly the
   * event it encodes and nothing else: no log line and no buffered line.
   */
  lemma EngineProgressLine(rep: Report, pad: string)
    requires PrintableReport(rep) && AllSpace(pad)
    ensures var line := ProgressPrefix + EncodeLine(rep) + pad;
      && LineEvents(line) ==
           [ProgressEvent(if rep.status == [] then "downloading" else rep.status,
                          IntOf(rep.downloaded), IntOf(rep.total),
                          if rep.total.Some? then None else IntOf(rep.estimate),
                          FloatOf(rep.speed), FloatOf(rep.eta), None)]
      && LineLogs(line) == [] && LineOthers(line) == []
  {
    var payload := EncodeLine(rep);
    assert !IsSpace(payload[|payload| - 1]) by {
      var g := EncodeGroups(rep);
      EncodeNumberText(rep.eta);
      SerializeEnds(GroupFields(g), g.eta);
    }
    ClassifyProgress(payload, pad);
    ParseEncodeLine(rep);
  }

  /** The final-path line yields a "finished" event for the path and the log line "Saved: " + path. */
  lemma EngineFileLine(path: string, pad: string)
    requires path == [] || !IsSpace(path[|path| - 1])
    requires AllSpace(pad)
    ensures var line := FilePrefix + path + pad;
      && LineEvents(line) == [Finished(path)]
      && LineLogs(line) == ["Saved: " + path]
      && LineOthers(line) == []
  {
    var body := FilePrefix + path;
    assert body[0] == '_';
    assert body[|body| - 1] == if path == [] then ':' else path[|path| - 1];
    StripPadded(body, pad);
    assert !StartsWith(body, ProgressPrefix) by {
      if |ProgressPrefix| <= |body| {
        assert body[..|ProgressPrefix|][5] == 'F' && ProgressPrefix[5] == 'P';
      }
    }
    assert body[..|FilePrefix|] == FilePrefix && body[|FilePrefix|..] == path;
  }

  /** The buffered lines are trimmed, non-empty, and carry neither marker. */
  lemma {:induction false} OthersShape(lines: seq<string>)
    ensures forall x :: x in Others(lines) ==>
      x != [] && Strip(x) == x && !StartsWith(x, ProgressPrefix) && !StartsWith(x, FilePrefix)
  {
    if lines != [] {
      var init, last := lines[..|lines| - 1], lines[|lines| - 1];
      OthersShape(init);
      assert Others(lines) == Others(init) + LineOthers(last);
      if Classify(last).OtherLine? {
        StripIdentity(Strip(last));
      }
    }
  }

  /** A line as read from the engine's output: a line break, if any, only at its end. */
  predicate OneLine(line: string) {
    forall i :: 0 <= i < |line| - 1 ==> line[i] != '\n'
  }

  lemma {:induction false} OthersOneLine(lines: seq<string>)
    requires forall i :: 0 <= i < |lines| ==> OneLine(lines[i])
    ensures forall x :: x in Others(lines) ==> '\n' !in x
  {
    if lines != [] {
      var init, last := lines[..|lines| - 1], lines[|lines| - 1];
      OthersOneLine(init);
      assert Others(lines) == Others(init) + LineOthers(last);
      var i, j := StripSlice(last);
      var x := Strip(last);
      forall k | 0 <= k < |x| ensures x[k] != '\n' {
        assert x[k] == last[i + k];
        if i + k == |last| - 1 {
          assert IsSpace('\n');
        }
      }
    }
  }

  // ---------------------------------------------------------------------
  // Outcomes

  /**
   * Cancellation wins over the exit code: a run is cancelled exactly when the
   * flag is seen at some checkpoint, the engine is terminated exactly when
   * that happens before a line, and otherwise the exit code alone decides.
   */
  lemma OutcomeCases(run: EngineRun, cancelFrom: Option<nat>)
    ensures var r := RunSpec(run, cancelFrom);
      && (r.outcome == Cancelled <==> CancelSet(cancelFrom, |run.lines|))
      && (r.terminated <==> cancelFrom.Some? && cancelFrom.value < |run.lines|)
      && (r.outcome == Success <==> !CancelSet(cancelFrom, |run.lines|) && run.exitCode == 0)
      && (r.outcome.Failed? <==> !CancelSet(cancelFrom, |run.lines|) && run.exitCode != 0)
      && ErrorMessage(r.outcome) == (if r.outcome == Cancelled then "Cancelled by user"
                                      else if r.outcome.Failed? then r.outcome.message else "")
  {
  }

  /** Once the flag is seen before line `c`, neither the later lines nor the exit code matter. */
  lemma CancelIgnoresRest(run: EngineRun, c: nat, rest: seq<string>, code: int)
    requires c < |run.lines| && rest != []
    ensures RunSpec(run, Some(c)) == RunSpec(EngineRun(run.lines[..c] + rest, code), Some(c))
  {
    assert (run.lines[..c] + rest)[..c] == run.lines[..c];
  }

  /**
   * The traces of a run are what reading every line would give, cut at the
   * line where the engine was terminated; whole when it was not.
   */
  lemma TracesArePrefix(run: EngineRun, cancelFrom: Option<nat>)
    ensures var r := RunSpec(run, cancelFrom);
      var k := if r.terminated then cancelFrom.value else |run.lines|;
      && k <= |run.lines|
      && r.events + Events(run.lines[k..]) == Events(run.lines)
      && r.logs + Logs(run.lines[k..]) == Logs(run.lines)
  {
    var r := RunSpec(run, cancelFrom);
    var k := if r.terminated then cancelFrom.value else |run.lines|;
    TracesCut(run.lines, k);
    if !r.terminated {
      TakeAll(run.lines, k);
    }
    assert r.events == Events(run.lines[..k]) && r.logs == Logs(run.lines[..k]);
  }

  lemma TracesCut(lines: seq<string>, k: nat)
    requires k <= |lines|
    ensures Events(lines[..k]) + Events(lines[k..]) == Events(lines)
    ensures Logs(lines[..k]) + Logs(lines[k..]) == Logs(lines)
  {
    assert lines[..k] + lines[k..] == lines;
    FlatMapAppend(lines[..k], lines[k..], LineEvents);
    FlatMapAppend(lines[..k], lines[k..], LineLogs);
  }

  /** A failed run with buffered lines reports the last (at most twenty), one per line of the message. */
  lemma FailureFromOutput(run: EngineRun, cancelFrom: Option<nat>)
    requires !CancelSet(cancelFrom, |run.lines|) && run.exitCode != 0
    requires forall i :: 0 <= i < |run.lines| ==> OneLine(run.lines[i])
    requires Others(run.lines) != []
    ensures var o := RunSpec(run, cancelFrom).outcome;
      o.Failed? && SplitOn(o.message, '\n') == LastN(Others(run.lines), RecentCapacity)
  {
    var others := Others(run.lines);
    var recent := LastN(others, RecentCapacity);
    assert forall i :: 0 <= i < |recent| ==> '\n' !in recent[i] by {
      OthersOneLine(run.lines);
      assert forall i :: 0 <= i < |recent| ==> recent[i] == others[|others| - |recent| + i];
    }
    SplitJoin(recent, '\n');
  }

  /** A failed run without buffered lines reports the exit code, which reads back from the message. */
  lemma FailureFromCode(run: EngineRun, cancelFrom: Option<nat>)
    requires !CancelSet(cancelFrom, |run.lines|) && run.exitCode != 0
    requires Others(run.lines) == []
    ensures var o := RunSpec(run, cancelFrom).outcome;
      && o.Failed?
      && o.message == "yt-dlp exited with code " + IntToString(run.exitCode) + "."
      && ToInt(IntToString(run.exitCode)) == Some(run.exitCode)
  {
    ToIntOfInt(run.exitCode);
  }
}
