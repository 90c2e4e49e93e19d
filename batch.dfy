/**
 * Downloading a list of URLs one after the other. For each URL the cancel
 * flag is checked first; then the single download runs: the output directory
 * and the tools are provisioned (an abstract step that may fail), "Starting:"
 * is logged, the engine runs, and "Done." is logged when it succeeds. The
 * batch stops at the first cancellation or failure, and every progress event
 * is forwarded together with the URL it belongs to.
 */
module Batch {
  import opened Wrappers
  import opened Progress
  import opened Command
  import opened Runner

  // ---------------------------------------------------------------------
  // One download

  /** What provisioning the tools yields: the log lines it wrote, then the tools or an error. */
  datatype Setup =
    | Ready(setupLogs: seq<string>, tools: ToolPaths)
    | SetupFailed(setupLogs: seq<string>, message: string)

  /** How the environment behaves for one URL: provisioning, then the engine run. */
  datatype Job = Job(setup: Setup, run: EngineRun)

  /** What one download produces: how it ends, the events and log lines it emits, the commands it runs. */
  datatype DownloadResult = DownloadResult(
    outcome: Outcome,
    events: seq<ProgressEvent>,
    logs: seq<string>,
    commands: seq<seq<string>>,
    terminated: bool)

  /** A single download, in closed form. */
  function DownloadSpec(req: DownloadRequest, job: Job, cancelFrom: Option<nat>): DownloadResult {
    match job.setup
    case SetupFailed(pre, message) => DownloadResult(Failed(message), [], pre, [], false)
    case Ready(pre, tools) =>
      var r := RunSpec(job.run, cancelFrom);
      DownloadResult(
        r.outcome, r.events,
        pre + ["Starting: " + req.url] + r.logs + (if r.outcome.Success? then ["Done."] else []),
        [BuildCommand(req, tools)], r.terminated)
  }

  /** `download`: provisioning, the "Starting:" line, the engine run and the "Done." line. */
  method Download(req: DownloadRequest, job: Job, cancelFrom: Option<nat>) returns (d: DownloadResult)
    ensures d == DownloadSpec(req, job, cancelFrom)
  {
    match job.setup {
      case SetupFailed(pre, message) =>
        d := DownloadResult(Failed(message), [], pre, [], false);
      case Ready(pre, tools) =>
        var logs := pre + ["Starting: " + req.url];
        var cmd := BuildCommand(req, tools);
        var r := RunEngine(job.run, cancelFrom);
        logs := logs + r.logs;
        if r.outcome.Success? {
          logs := logs + ["Done."];
        }
        d := DownloadResult(r.outcome, r.events, logs, [cmd], r.terminated);
    }
  }

  /**
   * A download whose provisioning fails runs nothing, logs only the
   * provisioning lines and fails with the provisioning error. Otherwise it
   * runs exactly the built command (engine first, URL last), ends as its run
   * does, and logs the provisioning lines, "Starting:", the run's own lines
   * and, when it succeeds, "Done.".
   */
  lemma DownloadShape(req: DownloadRequest, job: Job, cancelFrom: Option<nat>)
    ensures var d := DownloadSpec(req, job, cancelFrom);
      && (job.setup.SetupFailed? ==>
            && d.outcome == Failed(job.setup.message) && d.events == [] && d.commands == []
            && d.logs == job.setup.setupLogs && !d.terminated)
      && (job.setup.Ready? ==>
            var r := RunSpec(job.run, cancelFrom);
            && d.outcome == r.outcome && d.events == r.events && d.terminated == r.terminated
            && d.commands == [BuildCommand(req, job.setup.tools)]
            && d.commands[0][0] == job.setup.tools.ytdlpPath
            && d.commands[0][|d.commands[0]| - 1] == req.url
            && d.logs == job.setup.setupLogs + ["Starting: " + req.url] + r.logs +
                         (if r.outcome.Success? then ["Done."] else []))
  {
  }

  // ---------------------------------------------------------------------
  // The batch, over the flag seen at each URL's check and each download's result

  /** The URL at position `j` passes its cancel check and its download succeeds. */
  predicate Proceeds(cancelSeen: seq<bool>, results: seq<DownloadResult>, j: nat)
    requires j < |cancelSeen| == |results|
  {
    !cancelSeen[j] && results[j].outcome.Success?
  }

  /** Every URL before position `n` proceeds. */
  predicate AllProceed(cancelSeen: seq<bool>, results: seq<DownloadResult>, n: nat)
    requires n <= |cancelSeen| == |results|
  {
    forall k :: 0 <= k < n ==> Proceeds(cancelSeen, results, k)
  }

  /** The first position at or after `j` whose URL does not proceed, or the number of URLs. */
  function StopFrom(cancelSeen: seq<bool>, results: seq<DownloadResult>, j: nat): (n: nat)
    requires j <= |cancelSeen| == |results|
    ensures j <= n <= |results|
    decreases |results| - j
  {
    if j == |results| || !Proceeds(cancelSeen, results, j) then j
    else StopFrom(cancelSeen, results, j + 1)
  }

  /** Progress events paired with the URL that produced them. */
  function Tag(url: string, events: seq<ProgressEvent>): (r: seq<(string, ProgressEvent)>)
    ensures |r| == |events|
    ensures forall k :: 0 <= k < |r| ==> r[k] == (url, events[k])
  {
    seq(|events|, k requires 0 <= k < |events| => (url, events[k]))
  }

  /** What a batch produces: how it ends, the tagged events, the log, the URLs started and the commands run. */
  datatype BatchResult = BatchResult(
    outcome: Outcome,
    events: seq<(string, ProgressEvent)>,
    logs: seq<string>,
    attempted: seq<string>,
    commands: seq<seq<string>>)

  /** What the first `n` downloads produce together. */
  function Merge(urls: seq<string>, results: seq<DownloadResult>, n: nat): BatchResult
    requires n <= |urls| == |results|
  {
    if n == 0 then BatchResult(Success, [], [], [], [])
    else
      var m := Merge(urls, results, n - 1);
      var d := results[n - 1];
      BatchResult(Success, m.events + Tag(urls[n - 1], d.events), m.logs + d.logs,
                  m.attempted + [urls[n - 1]], m.commands + d.commands)
  }

  /**
   * The batch in closed form: every URL before the first one that does not
   * proceed is downloaded; that one is either stopped by the cancel check or
   * downloaded, and then ends the batch with its outcome.
   */
  function BatchSpec(urls: seq<string>, cancelSeen: seq<bool>, results: seq<DownloadResult>): BatchResult
    requires |urls| == |cancelSeen| == |results|
  {
    var n := StopFrom(cancelSeen, results, 0);
    if n == |urls| then Merge(urls, results, n)
    else if cancelSeen[n] then Merge(urls, results, n).(outcome := Cancelled)
    else Merge(urls, results, n + 1).(outcome := results[n].outcome)
  }

  lemma {:induction false} StopAt(cancelSeen: seq<bool>, results: seq<DownloadResult>, j: nat, i: nat)
    requires j <= i <= |cancelSeen| == |results|
    requires forall k :: j <= k < i ==> Proceeds(cancelSeen, results, k)
    requires i == |results| || !Proceeds(cancelSeen, results, i)
    ensures StopFrom(cancelSeen, results, j) == i
    decreases i - j
  {
    if j < i {
      StopAt(cancelSeen, results, j + 1, i);
    }
  }

  lemma MergeNext(urls: seq<string>, results: seq<DownloadResult>, i: nat, m: BatchResult, d: DownloadResult)
    requires i < |urls| == |results|
    requires m == Merge(urls, results, i) && d == results[i]
    ensures Merge(urls, results, i + 1) == BatchResult(Success, m.events + Tag(urls[i], d.events), m.logs + d.logs,
                                                       m.attempted + [urls[i]], m.commands + d.commands)
  {
  }

  /**
   * `download_many`: checks the cancel flag before each URL, downloads the
   * URLs in order and stops at the first cancellation or failure.
   * `cancelSeen[j]` is whether the check before URL `j` finds the flag set,
   * `results[j]` what the download of URL `j` yields when it is started.
   */
  method DownloadMany(urls: seq<string>, cancelSeen: seq<bool>, results: seq<DownloadResult>)
    returns (r: BatchResult)
    requires |urls| == |cancelSeen| == |results|
    ensures r == BatchSpec(urls, cancelSeen, results)
  {
    var m := BatchResult(Success, [], [], [], []);
    var last := Success;
    var i := 0;
    while i < |urls| && last.Success? && !cancelSeen[i]
      invariant 0 <= i <= |urls|
      invariant m == Merge(urls, results, i)
      invariant last.Success? ==> AllProceed(cancelSeen, results, i)
      invariant !last.Success? ==>
        0 < i && AllProceed(cancelSeen, results, i - 1) && !cancelSeen[i - 1] && last == results[i - 1].outcome
    {
      var d := results[i];
      MergeNext(urls, results, i, m, d);
      m := BatchResult(Success, m.events + Tag(urls[i], d.events), m.logs + d.logs,
                       m.attempted + [urls[i]], m.commands + d.commands);
      last := d.outcome;
      i := i + 1;
    }
    if !last.Success? {
      StopAt(cancelSeen, results, 0, i - 1);
      r := m.(outcome := last);
    } else if i < |urls| {
      // the cancel flag was seen at the check before URL i
      StopAt(cancelSeen, results, 0, i);
      r := m.(outcome := Cancelled);
    } else {
      StopAt(cancelSeen, results, 0, i);
      r := m;
    }
  }

  lemma {:induction false} MergeShape(urls: seq<string>, results: seq<DownloadResult>, n: nat)
    requires n <= |urls| == |results|
    ensures var m := Merge(urls, results, n);
      m.outcome.Success? && m.attempted == urls[..n]
  {
    if n > 0 {
      MergeShape(urls, results, n - 1);
      assert urls[..n] == urls[..n - 1] + [urls[n - 1]];
    }
  }

  lemma {:induction false} StopFromProceeds(cancelSeen: seq<bool>, results: seq<DownloadResult>, j: nat, k: nat)
    requires j <= |cancelSeen| == |results|
    requires j <= k < StopFrom(cancelSeen, results, j)
    ensures Proceeds(cancelSeen, results, k)
    decreases k - j
  {
    if j < k {
      StopFromProceeds(cancelSeen, results, j + 1, k);
    }
  }

  lemma {:induction false} StopFromStops(cancelSeen: seq<bool>, results: seq<DownloadResult>, j: nat)
    requires j <= |cancelSeen| == |results|
    requires StopFrom(cancelSeen, results, j) < |results|
    ensures !Proceeds(cancelSeen, results, StopFrom(cancelSeen, results, j))
    decreases |results| - j
  {
    if j < |results| && Proceeds(cancelSeen, results, j) {
      StopFromStops(cancelSeen, results, j + 1);
    }
  }

  lemma {:induction false} MergeTagged(urls: seq<string>, results: seq<DownloadResult>, n: nat, k: nat)
    requires n <= |urls| == |results|
    requires k < |Merge(urls, results, n).events|
    ensures var e := Merge(urls, results, n).events[k];
      exists j :: 0 <= j < n && e.0 == urls[j] && e.1 in results[j].events
  {
    var m := Merge(urls, results, n - 1);
    if k < |m.events| {
      MergeTagged(urls, results, n - 1, k);
    } else {
      var t := Tag(urls[n - 1], results[n - 1].events);
      assert Merge(urls, results, n).events[k] == t[k - |m.events|];
      assert results[n - 1].events[k - |m.events|] in results[n - 1].events;
    }
  }

  /**
   * The URLs are started in their given order: the started ones are a prefix
   * of the list, ending at the first URL that does not proceed.
   */
  lemma BatchInOrder(urls: seq<string>, cancelSeen: seq<bool>, results: seq<DownloadResult>)
    requires |urls| == |cancelSeen| == |results|
    ensures var r := BatchSpec(urls, cancelSeen, results);
      && |r.attempted| <= |urls|
      && r.attempted == urls[..|r.attempted|]
      && var n := StopFrom(cancelSeen, results, 0);
         (|r.attempted| == n || (|r.attempted| == n + 1 && !cancelSeen[n]))
  {
    var n := StopFrom(cancelSeen, results, 0);
    MergeShape(urls, results, n);
    if n < |urls| {
      MergeShape(urls, results, n + 1);
    }
  }

  /** Every started URL passed the cancel check before it. */
  lemma BatchChecksCancel(urls: seq<string>, cancelSeen: seq<bool>, results: seq<DownloadResult>, j: nat)
    requires |urls| == |cancelSeen| == |results|
    requires j < |BatchSpec(urls, cancelSeen, results).attempted|
    ensures j < |urls| && !cancelSeen[j]
  {
    BatchInOrder(urls, cancelSeen, results);
    if j < StopFrom(cancelSeen, results, 0) {
      StopFromProceeds(cancelSeen, results, 0, j);
    }
  }

  /**
   * No URL starts after an earlier one failed or was cancelled: every started
   * URL but the last succeeded, and the batch succeeds exactly when every URL
   * passes its check and succeeds, in which case all were started.
   */
  lemma BatchStopsAtFirstFailure(urls: seq<string>, cancelSeen: seq<bool>, results: seq<DownloadResult>)
    requires |urls| == |cancelSeen| == |results|
    ensures var r := BatchSpec(urls, cancelSeen, results);
      && (forall j :: 0 <= j < |r.attempted| - 1 ==> j < |urls| && results[j].outcome.Success?)
      && (r.outcome.Success? <==> forall j :: 0 <= j < |urls| ==> !cancelSeen[j] && results[j].outcome.Success?)
      && (r.outcome.Success? ==> r.attempted == urls)
  {
    var r := BatchSpec(urls, cancelSeen, results);
    var n := StopFrom(cancelSeen, results, 0);
    BatchInOrder(urls, cancelSeen, results);
    MergeShape(urls, results, n);
    forall j | 0 <= j < |r.attempted| - 1
      ensures j < |urls| && results[j].outcome.Success?
    {
      StopFromProceeds(cancelSeen, results, 0, j);
    }
    if n == |urls| {
      forall j | 0 <= j < |urls|
        ensures !cancelSeen[j] && results[j].outcome.Success?
      {
        StopFromProceeds(cancelSeen, results, 0, j);
      }
      TakeAll(urls, n);
    } else {
      StopFromStops(cancelSeen, results, 0);
    }
  }

  /** When the batch ends unsuccessfully, the message is the cancellation or the failing download's own. */
  lemma BatchFailureCause(urls: seq<string>, cancelSeen: seq<bool>, results: seq<DownloadResult>)
    requires |urls| == |cancelSeen| == |results|
    ensures var r := BatchSpec(urls, cancelSeen, results);
      !r.outcome.Success? ==>
        || (r.outcome == Cancelled && |r.attempted| < |urls| && cancelSeen[|r.attempted|])
        || (0 < |r.attempted| <= |urls| && r.outcome == results[|r.attempted| - 1].outcome)
  {
    var n := StopFrom(cancelSeen, results, 0);
    MergeShape(urls, results, n);
    if n < |urls| {
      MergeShape(urls, results, n + 1);
      StopFromStops(cancelSeen, results, 0);
    }
  }

  /** A flag seen at the check before URL `j`, once the batch reaches it, cancels the batch there. */
  lemma BatchCancelledAt(urls: seq<string>, cancelSeen: seq<bool>, results: seq<DownloadResult>, j: nat)
    requires j < |urls| == |cancelSeen| == |results|
    requires forall k :: 0 <= k < j ==> !cancelSeen[k] && results[k].outcome.Success?
    requires cancelSeen[j]
    ensures var r := BatchSpec(urls, cancelSeen, results);
      r.outcome == Cancelled && r.attempted == urls[..j]
  {
    StopAt(cancelSeen, results, 0, j);
    MergeShape(urls, results, j);
  }

  /** The events of each download, tagged with its URL, one download after the other. */
  function Forwarded(urls: seq<string>, results: seq<DownloadResult>): seq<(string, ProgressEvent)>
    requires |urls| == |results|
  {
    if urls == [] then [] else Tag(urls[0], results[0].events) + Forwarded(urls[1..], results[1..])
  }

  lemma {:induction false} ForwardedSnoc(urls: seq<string>, results: seq<DownloadResult>, u: string, d: DownloadResult)
    requires |urls| == |results|
    ensures Forwarded(urls + [u], results + [d]) == Forwarded(urls, results) + Tag(u, d.events)
    decreases |urls|
  {
    if urls == [] {
      assert (urls + [u])[1..] == [] && (results + [d])[1..] == [];
    } else {
      assert (urls + [u])[1..] == urls[1..] + [u];
      assert (results + [d])[1..] == results[1..] + [d];
      ForwardedSnoc(urls[1..], results[1..], u, d);
    }
  }

  lemma {:induction false} MergeForwarded(urls: seq<string>, results: seq<DownloadResult>, n: nat)
    requires n <= |urls| == |results|
    ensures Merge(urls, results, n).events == Forwarded(urls[..n], results[..n])
  {
    if n > 0 {
      MergeForwarded(urls, results, n - 1);
      assert urls[..n] == urls[..n - 1] + [urls[n - 1]];
      assert results[..n] == results[..n - 1] + [results[n - 1]];
      ForwardedSnoc(urls[..n - 1], results[..n - 1], urls[n - 1], results[n - 1]);
    }
  }

  /**
   * The forwarded events are exactly those of the started downloads, in the
   * order they were started and emitted, each tagged with its URL; so each
   * carries the URL whose download produced it.
   */
  lemma BatchEventsTagged(urls: seq<string>, cancelSeen: seq<bool>, results: seq<DownloadResult>)
    requires |urls| == |cancelSeen| == |results|
    ensures var r := BatchSpec(urls, cancelSeen, results);
      && |r.attempted| <= |urls|
      && r.events == Forwarded(r.attempted, results[..|r.attempted|])
      && forall k :: 0 <= k < |r.events| ==>
           exists j :: 0 <= j < |r.attempted| && r.events[k].0 == urls[j] && r.events[k].1 in results[j].events
  {
    var r := BatchSpec(urls, cancelSeen, results);
    var n := StopFrom(cancelSeen, results, 0);
    var a := if n < |urls| && !cancelSeen[n] then n + 1 else n;
    MergeShape(urls, results, a);
    MergeForwarded(urls, results, a);
    forall k | 0 <= k < |r.events|
      ensures exists j :: 0 <= j < |r.attempted| && r.events[k].0 == urls[j] && r.events[k].1 in results[j].events
    {
      MergeTagged(urls, results, a, k);
    }
  }

  // ---------------------------------------------------------------------
  // One cancel flag for the whole batch
  //
  // The flag is one oracle: `Some(c)` says it is first seen set at global
  // checkpoint `c`. Each URL uses one checkpoint for the batch check, then
  // one before each engine line and one after the engine exits.

  /** The settings shared by every URL of a batch. */
  datatype Settings = Settings(outputDir: string, cookiesPath: Option<string>, mergeOutputFormat: Option<string>)

  function RequestFor(settings: Settings, url: string): DownloadRequest {
    DownloadRequest(url, settings.outputDir, settings.cookiesPath, settings.mergeOutputFormat)
  }

  /** The global checkpoint of the check before the URL at position `j`. */
  function Offset(jobs: seq<Job>, j: nat): nat
    requires j <= |jobs|
  {
    if j == 0 then 0 else Offset(jobs, j - 1) + |jobs[j - 1].run.lines| + 2
  }

  /** The checkpoints of successive URLs come in increasing order, past the ones of the run between. */
  lemma {:induction false} OffsetIncreasing(jobs: seq<Job>, i: nat, j: nat)
    requires i < j <= |jobs|
    ensures Offset(jobs, i) + |jobs[i].run.lines| + 2 <= Offset(jobs, j)
  {
    if i < j - 1 {
      OffsetIncreasing(jobs, i, j - 1);
    }
  }

  /** The cancel oracle as seen by a run whose first checkpoint is global checkpoint `offset`. */
  function Shift(cancelFrom: Option<nat>, offset: nat): (c: Option<nat>)
    ensures c.Some? <==> cancelFrom.Some?
  {
    if cancelFrom.None? then None
    else if cancelFrom.value >= offset then Some(cancelFrom.value - offset)
    else Some(0)
  }

  /** A run started after the flag was last seen clear sees exactly the global flag from its offset on. */
  lemma ShiftExact(cancelFrom: Option<nat>, offset: nat, k: nat)
    requires cancelFrom.None? || cancelFrom.value >= offset
    ensures CancelSet(Shift(cancelFrom, offset), k) <==> CancelSet(cancelFrom, offset + k)
  {
  }

  /** For every URL, whether the check before it sees the flag set. */
  function CancelChecks(jobs: seq<Job>, cancelFrom: Option<nat>): (b: seq<bool>)
    ensures |b| == |jobs|
    ensures forall j :: 0 <= j < |b| ==> b[j] == CancelSet(cancelFrom, Offset(jobs, j))
  {
    seq(|jobs|, j requires 0 <= j < |jobs| => CancelSet(cancelFrom, Offset(jobs, j)))
  }

  /** The download of the URL at position `j`, with the flag as its run sees it. */
  function Attempt(urls: seq<string>, settings: Settings, jobs: seq<Job>, cancelFrom: Option<nat>, j: nat): DownloadResult
    requires j < |urls| == |jobs|
  {
    DownloadSpec(RequestFor(settings, urls[j]), jobs[j], Shift(cancelFrom, Offset(jobs, j) + 1))
  }

  /** For every URL, what its download produces when it is started. */
  function Attempts(urls: seq<string>, settings: Settings, jobs: seq<Job>, cancelFrom: Option<nat>): (ds: seq<DownloadResult>)
    requires |urls| == |jobs|
    ensures |ds| == |urls|
    ensures forall j :: 0 <= j < |ds| ==> ds[j] == Attempt(urls, settings, jobs, cancelFrom, j)
  {
    seq(|urls|, j requires 0 <= j < |urls| => Attempt(urls, settings, jobs, cancelFrom, j))
  }

  /** `download_many` with one cancel flag shared by the batch checks and the runs. */
  function SharedFlagBatch(urls: seq<string>, settings: Settings, jobs: seq<Job>, cancelFrom: Option<nat>): BatchResult
    requires |urls| == |jobs|
  {
    BatchSpec(urls, CancelChecks(jobs, cancelFrom), Attempts(urls, settings, jobs, cancelFrom))
  }

  /**
   * With one shared flag, a URL that passes its check (the only ones the
   * batch starts, `BatchChecksCancel`) has a run that sees the flag exactly
   * as the batch does from the next checkpoint on.
   */
  lemma SharedFlagRun(jobs: seq<Job>, cancelFrom: Option<nat>, j: nat, k: nat)
    requires j < |jobs| && !CancelSet(cancelFrom, Offset(jobs, j))
    ensures var start := Offset(jobs, j) + 1;
      CancelSet(Shift(cancelFrom, start), k) <==> CancelSet(cancelFrom, start + k)
  {
    ShiftExact(cancelFrom, Offset(jobs, j) + 1, k);
  }
}
