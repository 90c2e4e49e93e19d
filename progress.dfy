/**
 * The progress-line decoder: `_PROGRESS_RE` and `_parse_progress`.
 * The engine prints `status|downloaded|total|estimate|speed|eta` after the
 * progress marker; the regex takes five pipe-free fields, each followed by
 * a `|`, and then the rest of the line (which `.` may not cross at a `\n`).
 */
module Progress {
  import opened Wrappers
  import opened Text
  import opened Numerals
  import opened Decimals
  import opened Decode

  predicate PipeFree(s: string) {
    '|' !in s
  }

  /** The text before the first `|` and the text after it, if there is a `|`. */
  function CutField(s: string): (r: Option<(string, string)>)
    ensures r.Some? <==> '|' in s
    ensures r.Some? ==> PipeFree(r.value.0) && s == r.value.0 + ['|'] + r.value.1
  {
    var k := IndexOf(s, '|');
    if k < |s| then
      assert s == s[..k] + [s[k]] + s[k + 1..];
      Some((s[..k], s[k + 1..]))
    else None
  }

  /** Writes fields and a remainder back as one line: `f0|f1|...|rest`. */
  function Serialize(fields: seq<string>, rest: string): string {
    if fields == [] then rest else fields[0] + ['|'] + Serialize(fields[1..], rest)
  }

  predicate AllPipeFree(fields: seq<string>) {
    forall i :: 0 <= i < |fields| ==> PipeFree(fields[i])
  }

  /**
   * `n` pipe-free fields, each followed by `|`, and the remainder of the text:
   * whatever splits is the serialization of what it splits into.
   */
  function SplitFields(s: string, n: nat): (r: Option<(seq<string>, string)>)
    ensures r.Some? ==> |r.value.0| == n && AllPipeFree(r.value.0) && s == Serialize(r.value.0, r.value.1)
  {
    if n == 0 then Some(([], s))
    else match CutField(s)
      case None => None
      case Some(cut) =>
        match SplitFields(cut.1, n - 1)
        case None => None
        case Some(more) =>
          var fields := [cut.0] + more.0;
          assert fields[1..] == more.0;
          assert AllPipeFree(fields) by {
            forall i | 0 <= i < |fields| ensures PipeFree(fields[i]) {
              if i > 0 { assert fields[i] == more.0[i - 1]; }
            }
          }
          Some((fields, more.1))
  }

  lemma CutSerialize(fields: seq<string>, rest: string)
    requires fields != [] && PipeFree(fields[0])
    ensures CutField(Serialize(fields, rest)) == Some((fields[0], Serialize(fields[1..], rest)))
  {
    var tail := Serialize(fields[1..], rest);
    var s := fields[0] + ['|'] + tail;
    IndexOfAppend(fields[0], '|', tail);
    assert s[..|fields[0]|] == fields[0];
    assert s[|fields[0]| + 1..] == tail;
  }

  lemma PipeFreeTail(fields: seq<string>)
    requires fields != [] && AllPipeFree(fields)
    ensures AllPipeFree(fields[1..])
  {
    forall i | 0 <= i < |fields| - 1 ensures PipeFree(fields[1..][i]) {
      assert fields[1..][i] == fields[i + 1];
    }
  }

  /** Splitting a serialized line gives back its fields and remainder. */
  lemma {:induction false} SplitSerialize(fields: seq<string>, rest: string)
    requires AllPipeFree(fields)
    ensures SplitFields(Serialize(fields, rest), |fields|) == Some((fields, rest))
  {
    if fields != [] {
      var tail := Serialize(fields[1..], rest);
      assert PipeFree(fields[0]);
      CutSerialize(fields, rest);
      PipeFreeTail(fields);
      SplitSerialize(fields[1..], rest);
      SplitStep(Serialize(fields, rest), |fields|, fields[0], tail, fields[1..], rest);
      ConsTail(fields);
    }
  }

  /** One step of the split: the first field, then the split of what follows it. */
  lemma SplitStep(s: string, n: nat, head: string, tail: string, more: seq<string>, rest: string)
    requires n > 0 && CutField(s) == Some((head, tail))
    requires SplitFields(tail, n - 1) == Some((more, rest))
    ensures SplitFields(s, n) == Some(([head] + more, rest))
  {
  }

  /** The six capture groups of the progress regex. */
  datatype Groups = Groups(status: string, downloaded: string, total: string,
                           estimate: string, speed: string, eta: string)

  function GroupFields(g: Groups): seq<string> {
    [g.status, g.downloaded, g.total, g.estimate, g.speed]
  }

  lemma GroupsPipeFree(g: Groups)
    requires PipeFree(g.status) && PipeFree(g.downloaded) && PipeFree(g.total)
    requires PipeFree(g.estimate) && PipeFree(g.speed)
    ensures AllPipeFree(GroupFields(g))
  {
    var fs := GroupFields(g);
    forall i | 0 <= i < 5 ensures PipeFree(fs[i]) {
      assert i == 0 || i == 1 || i == 2 || i == 3 || i == 4;
    }
  }

  /**
   * `_PROGRESS_RE.match(s)`: five pipe-free fields, then an `eta` without a
   * line feed; the groups of a match put back together give the whole text.
   */
  function MatchProgress(s: string): (r: Option<Groups>)
    ensures r.Some? ==> AllPipeFree(GroupFields(r.value)) && '\n' !in r.value.eta
    ensures r.Some? ==> s == Serialize(GroupFields(r.value), r.value.eta)
  {
    match SplitFields(s, 5)
    case None => None
    case Some(r) =>
      if |r.0| == 5 && '\n' !in r.1 then
        var g := Groups(r.0[0], r.0[1], r.0[2], r.0[3], r.0[4], r.1);
        assert GroupFields(g) == r.0;
        Some(g)
      else None
  }

  /** The regex matches exactly the serializations of pipe-free fields and a line-feed-free `eta`. */
  lemma MatchProgressIff(s: string, g: Groups)
    ensures MatchProgress(s) == Some(g) <==>
      AllPipeFree(GroupFields(g)) && '\n' !in g.eta && s == Serialize(GroupFields(g), g.eta)
  {
    var fs := GroupFields(g);
    if AllPipeFree(fs) && '\n' !in g.eta && s == Serialize(fs, g.eta) {
      SplitSerialize(fs, g.eta);
    }
    if MatchProgress(s) == Some(g) {
      var r := SplitFields(s, 5).value;
      assert r.0 == fs;
    }
  }

  /**
   * The decoded record. Optional fields are `None` where the dictionary of
   * the source has no key at all.
   */
  datatype ProgressEvent = ProgressEvent(
    status: string,
    downloadedBytes: Option<int>,
    totalBytes: Option<int>,
    totalBytesEstimate: Option<int>,
    speed: Option<Decimal>,
    eta: Option<Decimal>,
    filename: Option<string>)

  /** The synthetic event for a file-marker line: `{"status": "finished", "filename": path}`. */
  function Finished(path: string): (e: ProgressEvent)
    ensures e.status == "finished" && e.filename == Some(path)
    ensures e.downloadedBytes.None? && e.totalBytes.None? && e.totalBytesEstimate.None?
    ensures e.speed.None? && e.eta.None?
  {
    ProgressEvent("finished", None, None, None, None, None, Some(path))
  }

  /** An event never carries both the exact and the estimated total. */
  predicate ExclusiveTotals(e: ProgressEvent) {
    !(e.totalBytes.Some? && e.totalBytesEstimate.Some?)
  }

  /**
   * `_parse_progress`: the event a progress payload decodes to, if it matches.
   * The status is the trimmed first group, or "downloading" when that is
   * blank; the estimate is kept exactly when there is no total and it decodes.
   */
  function ParseProgress(payload: string): (r: Option<ProgressEvent>)
    ensures r.Some? <==> MatchProgress(Strip(payload)).Some?
    ensures r.Some? ==> r.value.status != [] && r.value.filename.None? && ExclusiveTotals(r.value)
    ensures r.Some? ==> var g := MatchProgress(Strip(payload)).value;
      && r.value.status == (if Strip(g.status) == [] then "downloading" else Strip(g.status))
      && r.value.downloadedBytes == ToInt(g.downloaded)
      && r.value.totalBytes == ToInt(g.total)
      && (r.value.totalBytesEstimate.Some? <==> ToInt(g.total).None? && ToInt(g.estimate).Some?)
      && (r.value.totalBytesEstimate.Some? ==> r.value.totalBytesEstimate == ToInt(g.estimate))
      && r.value.speed == ToFloat(g.speed) && r.value.eta == ToFloat(g.eta)
  {
    match MatchProgress(Strip(payload))
    case None => None
    case Some(g) =>
      var status := Strip(g.status);
      var total := ToInt(g.total);
      Some(ProgressEvent(
        if status == [] then "downloading" else status,
        ToInt(g.downloaded),
        total,
        if total.Some? then None else ToInt(g.estimate),
        ToFloat(g.speed),
        ToFloat(g.eta),
        None))
  }

  /** Lemma helpers about the ends of a serialized line. */
  lemma SerializeEnds(fields: seq<string>, rest: string)
    requires rest != []
    ensures var s := Serialize(fields, rest); s != [] && s[|s| - 1] == rest[|rest| - 1]
    ensures fields != [] ==> var s := Serialize(fields, rest);
      s[0] == (if fields[0] == [] then '|' else fields[0][0])
    decreases |fields|
  {
    if fields != [] {
      SerializeEnds(fields[1..], rest);
      var s := Serialize(fields, rest);
      var tail := Serialize(fields[1..], rest);
      assert s == fields[0] + (['|'] + tail);
      assert s[|s| - 1] == tail[|tail| - 1];
    }
  }

  /**
   * One progress record as the engine's template prints it: the status, and
   * each number either as the text of a decimal literal (`524288`,
   * `524288.5`) or missing, which the template prints as `NA`.
   */
  datatype Report = Report(status: string, downloaded: Option<Literal>, total: Option<Literal>,
                           estimate: Option<Literal>, speed: Option<Literal>, eta: Option<Literal>)

  predicate Printable(n: Option<Literal>) {
    n.Some? ==> WellFormed(n.value)
  }

  /** A record the template can print: a trimmed, pipe-free status and well-formed numbers. */
  predicate PrintableReport(rep: Report) {
    && PipeFree(rep.status) && Strip(rep.status) == rep.status
    && Printable(rep.downloaded) && Printable(rep.total) && Printable(rep.estimate)
    && Printable(rep.speed) && Printable(rep.eta)
  }

  function EncodeNumber(n: Option<Literal>): string {
    match n
    case None => "NA"
    case Some(p) => Spell(p)
  }

  /** The value a printed number stands for, as a float. */
  function FloatOf(n: Option<Literal>): Option<Decimal>
    requires Printable(n)
  {
    match n
    case None => None
    case Some(p) => Some(Value(p))
  }

  /** The value a printed number stands for, truncated toward zero. */
  function IntOf(n: Option<Literal>): Option<int>
    requires Printable(n)
  {
    match n
    case None => None
    case Some(p) => Some(Trunc(Value(p)))
  }

  lemma EncodeNumberText(n: Option<Literal>)
    requires Printable(n)
    ensures var s := EncodeNumber(n);
      s != [] && PipeFree(s) && '\n' !in s && !IsSpace(s[|s| - 1])
  {
    if n.Some? {
      SpellEnds(n.value);
      SpellChars(n.value);
    } else {
      assert "NA"[1] == 'A';
    }
  }

  /** A printed number decodes back to the value it stands for, or to absent for `NA`. */
  lemma EncodeNumberDecodes(n: Option<Literal>)
    requires Printable(n)
    ensures ToInt(EncodeNumber(n)) == IntOf(n) && ToFloat(EncodeNumber(n)) == FloatOf(n)
  {
    match n
    case None =>
      ToIntOfNA();
    case Some(p) =>
      ToFloatOfSpell(p);
  }

  /** The capture groups of the payload the engine prints for a record. */
  function EncodeGroups(rep: Report): Groups {
    Groups(rep.status, EncodeNumber(rep.downloaded), EncodeNumber(rep.total), EncodeNumber(rep.estimate),
           EncodeNumber(rep.speed), EncodeNumber(rep.eta))
  }

  /** The payload the engine prints for a record: its fields joined by `|`. */
  function EncodeLine(rep: Report): string {
    var g := EncodeGroups(rep);
    Serialize(GroupFields(g), g.eta)
  }

  /** What the engine prints is matched by the regex, with the groups it was printed from. */
  lemma EncodeLineMatches(rep: Report)
    requires PrintableReport(rep)
    ensures MatchProgress(Strip(EncodeLine(rep))) == Some(EncodeGroups(rep))
  {
    EncodeNumberText(rep.downloaded);
    EncodeNumberText(rep.total);
    EncodeNumberText(rep.estimate);
    EncodeNumberText(rep.speed);
    EncodeNumberText(rep.eta);
    SerializedMatches(EncodeGroups(rep));
  }

  /**
   * A serialized line whose status carries no outer whitespace and whose
   * `eta` is non-empty and ends in a non-space is matched as it stands.
   */
  lemma SerializedMatches(g: Groups)
    requires Strip(g.status) == g.status
    requires PipeFree(g.status) && PipeFree(g.downloaded) && PipeFree(g.total)
    requires PipeFree(g.estimate) && PipeFree(g.speed)
    requires g.eta != [] && '\n' !in g.eta && !IsSpace(g.eta[|g.eta| - 1])
    ensures MatchProgress(Strip(Serialize(GroupFields(g), g.eta))) == Some(g)
  {
    var line := Serialize(GroupFields(g), g.eta);
    SerializeEnds(GroupFields(g), g.eta);
    assert !IsSpace(line[0]);
    StripIdentity(line);
    GroupsPipeFree(g);
    MatchProgressIff(line, g);
  }

  /**
   * Decoding what the engine prints gives back every present value, whole or
   * fractional: the byte counts truncated, speed and eta exact; an empty
   * status reads as "downloading", and an estimate only survives without a total.
   */
  lemma ParseEncodeLine(rep: Report)
    requires PrintableReport(rep)
    ensures ParseProgress(EncodeLine(rep)) ==
      Some(ProgressEvent(if rep.status == [] then "downloading" else rep.status,
                         IntOf(rep.downloaded), IntOf(rep.total),
                         if rep.total.Some? then None else IntOf(rep.estimate),
                         FloatOf(rep.speed), FloatOf(rep.eta), None))
  {
    EncodeLineMatches(rep);
    EncodeNumberDecodes(rep.downloaded);
    EncodeNumberDecodes(rep.total);
    EncodeNumberDecodes(rep.estimate);
    EncodeNumberDecodes(rep.speed);
    EncodeNumberDecodes(rep.eta);
  }

  /** The engine's whole-number output is the special case of a literal without a point. */
  lemma EncodeWhole(v: int) returns (p: Literal)
    ensures WellFormed(p) && EncodeNumber(Some(p)) == IntToString(v)
    ensures IntOf(Some(p)) == Some(v) && FloatOf(Some(p)) == Some(Decimal(v, 0))
  {
    p := IntToStringSpell(v);
    TruncWhole(v);
  }
}
