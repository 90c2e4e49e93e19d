/**
 * The argument vector handed to the yt-dlp engine for one download, and a
 * decoder that reads such a vector back the way the engine's option parser
 * does: a flag that takes a value consumes the next argument whatever it is,
 * any other argument starting with '-' is a switch, the rest are positional.
 */
module Command {
  import opened Wrappers

  /** Marker that starts every progress line the engine prints. */
  const ProgressPrefix: string := "__VD_PROGRESS__:"
  /** Marker that starts the line announcing the final file path. */
  const FilePrefix: string := "__VD_FILE__:"
  /** File-name template, placed inside the output directory. */
  const OutputName: string := "%(title).200s [%(id)s].%(ext)s"
  const ProgressTemplate: string :=
    "download:" + ProgressPrefix +
    "%(progress.status)s|%(progress.downloaded_bytes)s|%(progress.total_bytes)s|" +
    "%(progress.total_bytes_estimate)s|%(progress.speed)s|%(progress.eta)s"
  const AfterMovePrint: string := "after_move:" + FilePrefix + "%(filepath)s"
  const DefaultMergeFormat: string := "mp4"

  datatype DownloadRequest = DownloadRequest(
    url: string,
    outputDir: string,
    cookiesPath: Option<string>,
    mergeOutputFormat: Option<string>)

  /** The tool locations, each already rendered as the string `str(path)` gives. */
  datatype ToolPaths = ToolPaths(ytdlpPath: string, ffmpegLocation: Option<string>)

  /** Python truthiness of an optional string: present and non-empty. */
  predicate Truthy(o: Option<string>) {
    o.Some? && o.value != []
  }

  predicate IsSeparator(c: char) {
    c == '/' || c == '\\'
  }

  /**
   * Windows path joining of a directory and a relative name without a drive:
   * a backslash is inserted unless the directory is empty, already ends in a
   * separator, or is a bare drive such as "C:".
   */
  function JoinPath(dir: string, name: string): (p: string)
    ensures |p| >= |dir| + |name|
    ensures p[..|dir|] == dir && p[|p| - |name|..] == name
  {
    if dir == [] || IsSeparator(dir[|dir| - 1]) || (|dir| == 2 && dir[1] == ':') then dir + name
    else dir + ['\\'] + name
  }

  /** The part of a Windows path after its last separator. */
  function BaseName(p: string): (b: string)
    ensures |b| <= |p| && b == p[|p| - |b|..]
    ensures forall i :: 0 <= i < |b| ==> !IsSeparator(b[i])
    decreases |p|
  {
    if p == [] || IsSeparator(p[|p| - 1]) then []
    else BaseName(p[..|p| - 1]) + [p[|p| - 1]]
  }

  lemma {:induction false} BaseNameAppend(dir: string, name: string)
    requires dir == [] || IsSeparator(dir[|dir| - 1])
    requires forall i :: 0 <= i < |name| ==> !IsSeparator(name[i])
    ensures BaseName(dir + name) == name
    decreases |name|
  {
    if name == [] {
      assert dir + name == dir;
    } else {
      var init, c := name[..|name| - 1], name[|name| - 1];
      forall i | 0 <= i < |init| ensures !IsSeparator(init[i]) {
        assert init[i] == name[i];
      }
      BaseNameAppend(dir, init);
      BaseNameSnoc(dir, init, c);
      InitLast(name);
    }
  }

  lemma BaseNameSnoc(dir: string, init: string, c: char)
    requires BaseName(dir + init) == init && !IsSeparator(c)
    ensures BaseName(dir + (init + [c])) == init + [c]
  {
    var p := dir + (init + [c]);
    assert p[..|p| - 1] == dir + init;
    assert p[|p| - 1] == c;
    BaseNameStep(p);
  }

  lemma BaseNameStep(p: string)
    requires p != [] && !IsSeparator(p[|p| - 1])
    ensures BaseName(p) == BaseName(p[..|p| - 1]) + [p[|p| - 1]]
  {
  }

  /** The joined output template always names the file by the template, whatever the directory. */
  lemma OutputNameOfJoin(dir: string)
    requires !(|dir| == 2 && dir[1] == ':')
    ensures BaseName(JoinPath(dir, OutputName)) == OutputName
  {
    assert forall i :: 0 <= i < |OutputName| ==> !IsSeparator(OutputName[i]);
    if dir == [] || IsSeparator(dir[|dir| - 1]) {
      BaseNameAppend(dir, OutputName);
    } else {
      BaseNameAppend(dir + ['\\'], OutputName);
    }
  }

  /** The merge container: the requested one when set and non-empty, else mp4. */
  function MergeFormat(req: DownloadRequest): (f: string)
    ensures f != []
    ensures Truthy(req.mergeOutputFormat) ==> f == req.mergeOutputFormat.value
    ensures !Truthy(req.mergeOutputFormat) ==> f == "mp4"
  {
    if Truthy(req.mergeOutputFormat) then req.mergeOutputFormat.value else DefaultMergeFormat
  }

  /** One element of the argument vector's option part: a flag with its value, or a bare switch. */
  datatype Arg = Opt(flag: string, value: string) | Switch(name: string)

  /** The argument strings of one element: the flag and its value, or the switch alone. */
  function ArgStrings(a: Arg): seq<string> {
    match a
    case Opt(f, v) => [f, v]
    case Switch(f) => [f]
  }

  function Flatten(items: seq<Arg>): seq<string> {
    if items == [] then [] else ArgStrings(items[0]) + Flatten(items[1..])
  }

  /** The options every run passes, in the order they appear. */
  function FixedItems(req: DownloadRequest): (r: seq<Arg>)
    ensures |r| == 11
    ensures forall i :: 0 <= i < |r| ==> WellFormedItem(r[i], ValueFlags)
    ensures r[1] == Opt("--merge-output-format", MergeFormat(req))
    ensures r[10] == Opt("-o", JoinPath(req.outputDir, OutputName))
  {
    [Opt("-f", "bv*+ba/b"),
     Opt("--merge-output-format", MergeFormat(req)),
     Switch("--no-playlist"),
     Opt("--retries", "10"),
     Opt("--fragment-retries", "10"),
     Opt("--concurrent-fragments", "4"),
     Switch("--windows-filenames"),
     Switch("--newline"),
     Opt("--progress-template", ProgressTemplate),
     Opt("--print", AfterMovePrint),
     Opt("-o", JoinPath(req.outputDir, OutputName))]
  }

  /** The optional pairs: the cookie file when set and non-empty, then the FFmpeg location when set. */
  function ExtraItems(req: DownloadRequest, tools: ToolPaths): (r: seq<Arg>)
    ensures |r| == (if Truthy(req.cookiesPath) then 1 else 0) + (if tools.ffmpegLocation.Some? then 1 else 0)
    ensures Truthy(req.cookiesPath) ==> r[0] == Opt("--cookies", req.cookiesPath.value)
    ensures tools.ffmpegLocation.Some? ==> r[|r| - 1] == Opt("--ffmpeg-location", tools.ffmpegLocation.value)
    ensures forall i :: 0 <= i < |r| ==> r[i].Opt? && WellFormedItem(r[i], ValueFlags)
  {
    (if Truthy(req.cookiesPath) then [Opt("--cookies", req.cookiesPath.value)] else [])
    + (if tools.ffmpegLocation.Some? then [Opt("--ffmpeg-location", tools.ffmpegLocation.value)] else [])
  }

  /** The argument vector of one engine run: the engine, its options, the URL last. */
  function BuildCommand(req: DownloadRequest, tools: ToolPaths): (cmd: seq<string>)
    ensures |cmd| >= 2 && cmd[0] == tools.ytdlpPath && cmd[|cmd| - 1] == req.url
  {
    [tools.ytdlpPath] + Flatten(FixedItems(req) + ExtraItems(req, tools)) + [req.url]
  }

  // ---------------------------------------------------------------------
  // Reading an argument vector back

  /** The engine flags used here that take a value. */
  const ValueFlags: set<string> :=
    {"-f", "--merge-output-format", "--retries", "--fragment-retries",
     "--concurrent-fragments", "--progress-template", "--print", "-o",
     "--cookies", "--ffmpeg-location"}

  predicate IsFlag(arg: string) {
    |arg| > 0 && arg[0] == '-'
  }

  datatype Decoded = Decoded(
    options: seq<(string, string)>,
    switches: seq<string>,
    positional: seq<string>)

  /**
   * An option parser over the flags in `valued` that take a value: such a
   * flag consumes the next argument, whatever it is; any other argument
   * starting with '-' is a switch; the rest are positional.
   */
  function DecodeArgs(args: seq<string>, valued: set<string>): Decoded
    decreases |args|
  {
    if args == [] then Decoded([], [], [])
    else if args[0] in valued && |args| >= 2 then
      var d := DecodeArgs(args[2..], valued);
      d.(options := [(args[0], args[1])] + d.options)
    else if IsFlag(args[0]) then
      var d := DecodeArgs(args[1..], valued);
      d.(switches := [args[0]] + d.switches)
    else
      var d := DecodeArgs(args[1..], valued);
      d.(positional := [args[0]] + d.positional)
  }

  /** The value given last for `flag`, as a storing option parser keeps it. */
  function Lookup(options: seq<(string, string)>, flag: string): Option<string> {
    if options == [] then None
    else
      var later := Lookup(options[1..], flag);
      if later.Some? then later
      else if options[0].0 == flag then Some(options[0].1)
      else None
  }

  predicate WellFormedItem(a: Arg, valued: set<string>) {
    match a
    case Opt(f, _) => f in valued
    case Switch(f) => IsFlag(f) && f !in valued
  }

  function OptionOf(a: Arg): seq<(string, string)> {
    if a.Opt? then [(a.flag, a.value)] else []
  }

  function SwitchOf(a: Arg): seq<string> {
    if a.Switch? then [a.name] else []
  }

  function OptionsOf(items: seq<Arg>): seq<(string, string)> {
    if items == [] then [] else OptionOf(items[0]) + OptionsOf(items[1..])
  }

  function SwitchesOf(items: seq<Arg>): seq<string> {
    if items == [] then [] else SwitchOf(items[0]) + SwitchesOf(items[1..])
  }

  /** Decoding one well-formed option in front of the rest. */
  lemma DecodeItem(a: Arg, rest: seq<string>, valued: set<string>)
    requires WellFormedItem(a, valued)
    ensures DecodeArgs(ArgStrings(a) + rest, valued) ==
      Decoded(OptionOf(a) + DecodeArgs(rest, valued).options,
              SwitchOf(a) + DecodeArgs(rest, valued).switches,
              DecodeArgs(rest, valued).positional)
  {
    if a.Opt? {
      assert ([a.flag, a.value] + rest)[2..] == rest;
    } else {
      assert ([a.name] + rest)[1..] == rest;
    }
  }

  lemma Reassociate(x: Decoded, y: Decoded, z: Decoded,
                    o1: seq<(string, string)>, o2: seq<(string, string)>,
                    s1: seq<string>, s2: seq<string>)
    requires x == Decoded(o1 + y.options, s1 + y.switches, y.positional)
    requires y == Decoded(o2 + z.options, s2 + z.switches, z.positional)
    ensures x == Decoded((o1 + o2) + z.options, (s1 + s2) + z.switches, z.positional)
  {
    assert o1 + (o2 + z.options) == (o1 + o2) + z.options;
    assert s1 + (s2 + z.switches) == (s1 + s2) + z.switches;
  }

  /** Decoding a flattened list of well-formed options gives back its options and switches. */
  lemma {:induction false} DecodeFlatten(items: seq<Arg>, rest: seq<string>, valued: set<string>)
    requires forall i :: 0 <= i < |items| ==> WellFormedItem(items[i], valued)
    ensures DecodeArgs(Flatten(items) + rest, valued) ==
      Decoded(OptionsOf(items) + DecodeArgs(rest, valued).options,
              SwitchesOf(items) + DecodeArgs(rest, valued).switches,
              DecodeArgs(rest, valued).positional)
  {
    if items == [] {
      assert Flatten(items) + rest == rest;
    } else {
      var tail := Flatten(items[1..]) + rest;
      WellFormedTail(items, valued);
      DecodeFlatten(items[1..], rest, valued);
      FlattenCons(items, rest);
      DecodeItem(items[0], tail, valued);
      Reassociate(DecodeArgs(Flatten(items) + rest, valued), DecodeArgs(tail, valued),
                  DecodeArgs(rest, valued), OptionOf(items[0]), OptionsOf(items[1..]),
                  SwitchOf(items[0]), SwitchesOf(items[1..]));
    }
  }

  lemma WellFormedTail(items: seq<Arg>, valued: set<string>)
    requires items != [] && forall i :: 0 <= i < |items| ==> WellFormedItem(items[i], valued)
    ensures forall i :: 0 <= i < |items[1..]| ==> WellFormedItem(items[1..][i], valued)
  {
    forall i | 0 <= i < |items[1..]| ensures WellFormedItem(items[1..][i], valued) {
      assert items[1..][i] == items[i + 1];
    }
  }

  lemma FlattenCons(items: seq<Arg>, rest: seq<string>)
    requires items != []
    ensures Flatten(items) + rest == ArgStrings(items[0]) + (Flatten(items[1..]) + rest)
  {
  }

  lemma {:induction false} SwitchesOfAppend(a: seq<Arg>, b: seq<Arg>)
    ensures SwitchesOf(a + b) == SwitchesOf(a) + SwitchesOf(b)
  {
    if a == [] {
      assert a + b == b;
    } else {
      assert (a + b)[0] == a[0] && (a + b)[1..] == a[1..] + b;
      SwitchesOfAppend(a[1..], b);
      var h, t := SwitchOf(a[0]), SwitchesOf(a[1..]);
      assert h + (t + SwitchesOf(b)) == (h + t) + SwitchesOf(b);
    }
  }

  /** The extra options do not add switches. */
  lemma ExtraSwitches(req: DownloadRequest, tools: ToolPaths)
    ensures SwitchesOf(FixedItems(req) + ExtraItems(req, tools)) == SwitchesOf(FixedItems(req))
  {
    SwitchesOfAppend(FixedItems(req), ExtraItems(req, tools));
    var c := if Truthy(req.cookiesPath) then [Opt("--cookies", req.cookiesPath.value)] else [];
    var f := if tools.ffmpegLocation.Some? then [Opt("--ffmpeg-location", tools.ffmpegLocation.value)] else [];
    SwitchesOfAppend(c, f);
    assert SwitchesOf(c) == [] && SwitchesOf(f) == [];
  }

  lemma DropHead(head: string, middle: seq<string>, last: string)
    ensures ([head] + middle + [last])[1..] == middle + [last]
  {
  }

  lemma WellFormedCommandItems(req: DownloadRequest, tools: ToolPaths)
    ensures forall i :: 0 <= i < |FixedItems(req) + ExtraItems(req, tools)| ==>
      WellFormedItem((FixedItems(req) + ExtraItems(req, tools))[i], ValueFlags)
  {
    var fixed, extra := FixedItems(req), ExtraItems(req, tools);
    assert forall i :: 0 <= i < |fixed| ==> WellFormedItem(fixed[i], ValueFlags);
    assert forall i :: 0 <= i < |extra| ==> WellFormedItem(extra[i], ValueFlags);
  }

  /**
   * Read back, the argument vector sets the fixed options followed by the
   * optional ones, has the fixed switches, and carries the URL as its only
   * positional argument.
   */
  lemma DecodeCommand(req: DownloadRequest, tools: ToolPaths)
    requires !IsFlag(req.url)
    ensures DecodeArgs(BuildCommand(req, tools)[1..], ValueFlags) ==
      Decoded(OptionsOf(FixedItems(req) + ExtraItems(req, tools)),
              SwitchesOf(FixedItems(req)), [req.url])
  {
    WellFormedCommandItems(req, tools);
    NotValued(req.url);
    DecodeBuilt(tools.ytdlpPath, FixedItems(req) + ExtraItems(req, tools), req.url, ValueFlags);
    ExtraSwitches(req, tools);
  }

  /** Every flag that takes a value starts with a dash, so a non-flag never takes one. */
  lemma NotValued(arg: string)
    requires !IsFlag(arg)
    ensures arg !in ValueFlags
  {
  }

  /** A lone non-flag argument reads back as a positional argument. */
  lemma DecodeLone(arg: string, valued: set<string>)
    requires !IsFlag(arg) && arg !in valued
    ensures DecodeArgs([arg], valued) == Decoded([], [], [arg])
  {
    assert [arg][1..] == [];
  }

  /** An engine, well-formed options and a non-flag URL read back as those options and the URL. */
  lemma DecodeBuilt(head: string, items: seq<Arg>, url: string, valued: set<string>)
    requires !IsFlag(url) && url !in valued
    requires forall i :: 0 <= i < |items| ==> WellFormedItem(items[i], valued)
    ensures DecodeArgs(([head] + Flatten(items) + [url])[1..], valued) ==
      Decoded(OptionsOf(items), SwitchesOf(items), [url])
  {
    DecodeLone(url, valued);
    DecodeFlatten(items, [url], valued);
    DropHead(head, Flatten(items), url);
    assert OptionsOf(items) + [] == OptionsOf(items);
    assert SwitchesOf(items) + [] == SwitchesOf(items);
  }

  /** Lookup of a single option in front of the rest. */
  lemma LookupCons(a: Arg, rest: seq<(string, string)>, flag: string)
    ensures Lookup(OptionOf(a) + rest, flag) ==
      if Lookup(rest, flag).Some? then Lookup(rest, flag)
      else if a.Opt? && a.flag == flag then Some(a.value)
      else None
  {
    if a.Opt? {
      assert (OptionOf(a) + rest)[1..] == rest;
    } else {
      assert OptionOf(a) + rest == rest;
    }
  }

  /** A flag no option item names is read as absent. */
  lemma {:induction false} LookupAbsent(items: seq<Arg>, flag: string)
    requires forall i :: 0 <= i < |items| && items[i].Opt? ==> items[i].flag != flag
    ensures Lookup(OptionsOf(items), flag) == None
  {
    if items != [] {
      LookupAbsent(items[1..], flag);
      LookupCons(items[0], OptionsOf(items[1..]), flag);
    }
  }

  /** The item naming a flag last sets the value it is read with. */
  lemma {:induction false} LookupLast(items: seq<Arg>, i: nat, flag: string, value: string)
    requires i < |items| && items[i] == Opt(flag, value)
    requires forall j :: i < j < |items| && items[j].Opt? ==> items[j].flag != flag
    ensures Lookup(OptionsOf(items), flag) == Some(value)
  {
    LookupCons(items[0], OptionsOf(items[1..]), flag);
    if i == 0 {
      LookupAbsent(items[1..], flag);
    } else {
      LookupLast(items[1..], i - 1, flag, value);
    }
  }

  /**
   * What the engine reads from the argument vector: the URL as the only
   * positional argument, the cookie file exactly when one was given
   * non-empty, the FFmpeg location exactly when one is known, the requested
   * merge container or mp4, and the output template inside the output
   * directory.
   */
  lemma CommandSettings(req: DownloadRequest, tools: ToolPaths)
    requires !IsFlag(req.url)
    ensures var d := DecodeArgs(BuildCommand(req, tools)[1..], ValueFlags);
      && d.positional == [req.url]
      && (forall s :: s in d.switches <==>
            s == "--no-playlist" || s == "--windows-filenames" || s == "--newline")
      && Lookup(d.options, "--cookies") == (if Truthy(req.cookiesPath) then req.cookiesPath else None)
      && Lookup(d.options, "--ffmpeg-location") == tools.ffmpegLocation
      && Lookup(d.options, "--merge-output-format") ==
           Some(if Truthy(req.mergeOutputFormat) then req.mergeOutputFormat.value else "mp4")
      && Lookup(d.options, "-o") == Some(JoinPath(req.outputDir, OutputName))
  {
    DecodeCommand(req, tools);
    forall s {
      SwitchesOfFixed(req, s);
    }
    CommandCookies(req, tools);
    CommandFfmpeg(req, tools);
    CommandFixedValues(req, tools);
  }

  lemma {:induction false} SwitchesOfMember(items: seq<Arg>, s: string)
    ensures s in SwitchesOf(items) <==> exists i :: 0 <= i < |items| && items[i] == Switch(s)
  {
    if items != [] {
      SwitchesOfMember(items[1..], s);
      if items[0] == Switch(s) {
        assert s in SwitchesOf(items);
      }
      if s in SwitchesOf(items) && items[0] != Switch(s) {
        var i :| 0 <= i < |items[1..]| && items[1..][i] == Switch(s);
        assert items[i + 1] == Switch(s);
      }
      if exists i :: 0 <= i < |items| && items[i] == Switch(s) {
        var i :| 0 <= i < |items| && items[i] == Switch(s);
        if i > 0 {
          assert items[1..][i - 1] == Switch(s);
        }
      }
    }
  }

  /** The switches of every run: no playlists, Windows-safe names, one progress line per update. */
  lemma SwitchesOfFixed(req: DownloadRequest, s: string)
    ensures s in SwitchesOf(FixedItems(req)) <==>
      s == "--no-playlist" || s == "--windows-filenames" || s == "--newline"
  {
    SwitchesOfMember(FixedItems(req), s);
    var f := FixedItems(req);
    if s == "--no-playlist" {
      assert f[2] == Switch(s);
    } else if s == "--windows-filenames" {
      assert f[6] == Switch(s);
    } else if s == "--newline" {
      assert f[7] == Switch(s);
    }
  }

  lemma CommandFixedValues(req: DownloadRequest, tools: ToolPaths)
    ensures Lookup(OptionsOf(FixedItems(req) + ExtraItems(req, tools)), "--merge-output-format") ==
      Some(MergeFormat(req))
    ensures Lookup(OptionsOf(FixedItems(req) + ExtraItems(req, tools)), "-o") ==
      Some(JoinPath(req.outputDir, OutputName))
  {
    var items := FixedItems(req) + ExtraItems(req, tools);
    LookupLast(items, 1, "--merge-output-format", MergeFormat(req));
    LookupLast(items, 10, "-o", JoinPath(req.outputDir, OutputName));
  }

  lemma CommandCookies(req: DownloadRequest, tools: ToolPaths)
    ensures Lookup(OptionsOf(FixedItems(req) + ExtraItems(req, tools)), "--cookies") ==
      (if Truthy(req.cookiesPath) then req.cookiesPath else None)
  {
    var items := FixedItems(req) + ExtraItems(req, tools);
    if Truthy(req.cookiesPath) {
      LookupLast(items, 11, "--cookies", req.cookiesPath.value);
    } else {
      LookupAbsent(items, "--cookies");
    }
  }

  lemma CommandFfmpeg(req: DownloadRequest, tools: ToolPaths)
    ensures Lookup(OptionsOf(FixedItems(req) + ExtraItems(req, tools)), "--ffmpeg-location") ==
      tools.ffmpegLocation
  {
    var items := FixedItems(req) + ExtraItems(req, tools);
    if tools.ffmpegLocation.Some? {
      LookupLast(items, |items| - 1, "--ffmpeg-location", tools.ffmpegLocation.value);
    } else {
      LookupAbsent(items, "--ffmpeg-location");
    }
  }
}
