/** The compressor (app/core/video_compressor.py): the command it builds
    from a preset and the user's settings, the loop that watches ffmpeg,
    and the job around both.

    Processes, clocks and pipes are observations handed in: each poll of
    the loop is one `Poll` record saying whether a cancel was requested,
    whether ffmpeg has exited and with which code, the clock in
    microseconds, and the line read, if any. */
module Compressor {
  import opened Text
  import opened Presets
  import opened Telemetry

  // ---------------------------------------------------------------------
  // Settings and overrides

  /** The `resolution` dictionary of the settings; absent keys are `None`. */
  datatype Resolution = Resolution(width: Option<int>, height: Option<int>)

  /** The settings dictionary a job carries. A `None` field is a key the
      dictionary does not hold; `resolution` and `framerate` stand for
      empty dictionaries when absent. */
  datatype Settings = Settings(
    preset: Option<string>, crf: Option<int>, videoCodec: Option<string>,
    encodePreset: Option<string>, audioBitrate: Option<string>, audioCodec: Option<string>,
    resolution: Resolution, fps: Option<int>, keepAudio: Option<bool>)

  /** Python truthiness of an optional number or text. */
  predicate IntSet(x: Option<int>) { x.Some? && x.value != 0 }
  predicate TextSet(x: Option<string>) { x.Some? && x.value != "" }

  /** `settings.get("preset", "standard")`. */
  function PresetName(s: Settings): string {
    if s.preset.Some? then s.preset.value else DefaultPreset
  }

  /** `settings.get("keep_audio", True)`. */
  function KeepAudio(s: Settings): bool {
    if s.keepAudio.Some? then s.keepAudio.value else true
  }

  /** The size passed to the builder: only when width and height are both
      truthy. */
  function CustomResolution(s: Settings): (r: Option<(int, int)>)
    ensures r.Some? <==> IntSet(s.resolution.width) && IntSet(s.resolution.height)
    ensures r.Some? ==> r.value == (s.resolution.width.value, s.resolution.height.value)
  {
    if IntSet(s.resolution.width) && IntSet(s.resolution.height)
    then Some((s.resolution.width.value, s.resolution.height.value))
    else None
  }

  function PickText(x: Option<string>, current: string): string {
    if TextSet(x) then x.value else current
  }

  function PickInt(x: Option<int>, current: int): int {
    if IntSet(x) then x.value else current
  }

  /** The writes into the preset's `video` block: quality, codec and
      encoder speed, each only when the setting is truthy. */
  function OverrideVideo(v: Video, s: Settings): Video {
    v.(crf := PickInt(s.crf, v.crf), codec := PickText(s.videoCodec, v.codec),
       preset := PickText(s.encodePreset, v.preset))
  }

  /** The writes into the preset's `audio` block: bitrate and codec. */
  function OverrideAudio(a: Audio, s: Settings): Audio {
    a.(bitrate := PickText(s.audioBitrate, a.bitrate), codec := PickText(s.audioCodec, a.codec))
  }

  /** The overrides touch nothing but the five overridable fields, and
      applying them again changes nothing more. */
  lemma OverrideScope(v: Video, a: Audio, s: Settings)
    ensures var w := OverrideVideo(v, s);
      && w.profile == v.profile && w.level == v.level && w.pixelFormat == v.pixelFormat && w.tune == v.tune
      && (w.crf == v.crf || IntSet(s.crf)) && (w.codec == v.codec || TextSet(s.videoCodec))
      && (w.preset == v.preset || TextSet(s.encodePreset))
      && OverrideVideo(w, s) == w
    ensures var b := OverrideAudio(a, s);
      && b.sampleRate == a.sampleRate && b.channels == a.channels
      && (b.bitrate == a.bitrate || TextSet(s.audioBitrate)) && (b.codec == a.codec || TextSet(s.audioCodec))
      && OverrideAudio(b, s) == b
  {
  }

  /** The preset the builder sees: the copy's own fields and the shared
      blocks as they read after the overrides. */
  function ResolvedPreset(c: PresetCopy, v: Video, a: Audio, s: Settings): Preset {
    Preset(c.name, c.description, c.icon, c.compressionRatio, c.useCase,
           OverrideVideo(v, s), OverrideAudio(a, s), c.filters, c.outputFormat)
  }

  // ---------------------------------------------------------------------
  // The command

  /** Python's `xs[2:-1]`. */
  function Inner<T>(xs: seq<T>): (r: seq<T>)
    ensures |xs| >= 3 ==> r == xs[2..|xs| - 1]
    ensures |xs| < 3 ==> r == []
  {
    if |xs| >= 3 then xs[2..|xs| - 1] else []
  }

  /** The command around the builder's arguments: the executable, "-y",
      the input, everything of the arguments but their leading input and
      trailing output, then the progress options and the output. */
  function CommandTokens(ffmpegPath: string, inputFile: string, outputFile: string,
                         args: seq<Token>): seq<Token>
  {
    [Target(ffmpegPath), Flag("-y"), Flag("-i"), Arg(inputFile)] + Inner(args)
    + [Flag("-progress"), Arg("pipe:2"), Flag("-stats"), Target(outputFile)]
  }

  /** The arguments the builder gets for these settings. */
  function SettingsArgs(p: Preset, inputFile: string, outputFile: string, s: Settings): seq<Token> {
    ArgTokens(p, inputFile, outputFile, KeepAudio(s), CustomResolution(s), s.fps)
  }

  /** `_build_ffmpeg_command` as strings, for the resolved preset. */
  function Command(p: Preset, ffmpegPath: string, inputFile: string, outputFile: string,
                   s: Settings): seq<string>
  {
    Render(CommandTokens(ffmpegPath, inputFile, outputFile, SettingsArgs(p, inputFile, outputFile, s)))
  }

  lemma RenderConcat(a: seq<Token>, b: seq<Token>)
    ensures Render(a + b) == Render(a) + Render(b)
  {
  }

  lemma RenderInner(ts: seq<Token>)
    ensures Render(Inner(ts)) == Inner(Render(ts))
  {
  }

  /** `_build_ffmpeg_command`: the overrides are written into the blocks
      the chosen catalog entry shares with every copy of it, and the
      command is assembled around the builder's arguments. */
  method BuildFfmpegCommand(store: PresetStore, ffmpegPath: string, inputFile: string,
                            outputFile: string, s: Settings)
    returns (cmd: seq<string>)
    requires store.Valid()
    modifies store
    ensures store.Valid()
    ensures var k := PresetKey(PresetName(s));
      && store.video == old(store.video)[k := OverrideVideo(old(store.video)[k], s)]
      && store.audio == old(store.audio)[k := OverrideAudio(old(store.audio)[k], s)]
    ensures var k := PresetKey(PresetName(s));
      cmd == Command(ResolvedPreset(GetPreset(PresetName(s)), old(store.video)[k], old(store.audio)[k], s),
                     ffmpegPath, inputFile, outputFile, s)
  {
    var copy := GetPreset(PresetName(s));
    ApplyOverrides(store, copy.shares, s);
    var p := store.View(copy);
    assert p == ResolvedPreset(copy, old(store.video)[copy.shares], old(store.audio)[copy.shares], s);
    var args := Render(SettingsArgs(p, inputFile, outputFile, s));
    cmd := [ffmpegPath];
    cmd := cmd + ["-y"];
    cmd := cmd + ["-i", inputFile];
    cmd := cmd + Inner(args);
    cmd := cmd + ["-progress", "pipe:2"];
    cmd := cmd + ["-stats"];
    cmd := cmd + [outputFile];
    assert cmd == [ffmpegPath, "-y", "-i", inputFile] + Inner(args) + ["-progress", "pipe:2", "-stats", outputFile];
    CommandText(p, ffmpegPath, inputFile, outputFile, s);
  }

  /** The five guarded writes into the blocks of entry `k`. */
  method ApplyOverrides(store: PresetStore, k: string, s: Settings)
    requires k in store.video && k in store.audio
    modifies store
    ensures store.video == old(store.video)[k := OverrideVideo(old(store.video)[k], s)]
    ensures store.audio == old(store.audio)[k := OverrideAudio(old(store.audio)[k], s)]
  {
    var v := store.video[k];
    var a := store.audio[k];
    if IntSet(s.crf) {
      v := v.(crf := s.crf.value);
    }
    if TextSet(s.videoCodec) {
      v := v.(codec := s.videoCodec.value);
    }
    if TextSet(s.encodePreset) {
      v := v.(preset := s.encodePreset.value);
    }
    if TextSet(s.audioBitrate) {
      a := a.(bitrate := s.audioBitrate.value);
    }
    if TextSet(s.audioCodec) {
      a := a.(codec := s.audioCodec.value);
    }
    store.video := store.video[k := v];
    store.audio := store.audio[k := a];
  }

  /** The command as the strings it is assembled from. */
  lemma CommandText(p: Preset, ffmpegPath: string, inputFile: string, outputFile: string, s: Settings)
    ensures Command(p, ffmpegPath, inputFile, outputFile, s)
      == [ffmpegPath, "-y", "-i", inputFile] + Inner(Render(SettingsArgs(p, inputFile, outputFile, s)))
         + ["-progress", "pipe:2", "-stats", outputFile]
  {
    var argTokens := SettingsArgs(p, inputFile, outputFile, s);
    var head := [Target(ffmpegPath), Flag("-y"), Flag("-i"), Arg(inputFile)];
    var tail := [Flag("-progress"), Arg("pipe:2"), Flag("-stats"), Target(outputFile)];
    RenderInner(argTokens);
    RenderConcat(head, Inner(argTokens));
    RenderConcat(head + Inner(argTokens), tail);
    assert Render(head) == [ffmpegPath, "-y", "-i", inputFile];
    assert Render(tail) == ["-progress", "pipe:2", "-stats", outputFile];
  }

  /** The command starts with the executable, "-y" and the input, ends
      with the progress options and the output, keeps the builder's own
      trailing "-y" just before them, and carries the builder's arguments
      between their input and output unchanged. */
  lemma CommandShape(p: Preset, ffmpegPath: string, inputFile: string, outputFile: string, s: Settings)
    ensures var cmd := Command(p, ffmpegPath, inputFile, outputFile, s);
      var args := Render(SettingsArgs(p, inputFile, outputFile, s));
      && |cmd| >= 16 && |cmd| == |args| + 5
      && cmd[..4] == [ffmpegPath, "-y", "-i", inputFile]
      && cmd[|cmd| - 4..] == ["-progress", "pipe:2", "-stats", outputFile]
      && cmd[|cmd| - 5] == "-y"
      && cmd[4..|cmd| - 4] == args[2..|args| - 1]
  {
    var args := Render(SettingsArgs(p, inputFile, outputFile, s));
    ArgsFrame(p, inputFile, outputFile, KeepAudio(s), CustomResolution(s), s.fps);
    CommandText(p, ffmpegPath, inputFile, outputFile, s);
    WrapShape(ffmpegPath, inputFile, outputFile, args, p.filters);
  }

  /** The same, for any argument list that opens and closes as the
      builder's does. */
  lemma WrapShape(ffmpegPath: string, inputFile: string, outputFile: string, args: seq<string>,
                  filters: seq<string>)
    requires Opens(args, inputFile, outputFile, filters)
    ensures var cmd := [ffmpegPath, "-y", "-i", inputFile] + Inner(args) + ["-progress", "pipe:2", "-stats", outputFile];
      && |cmd| >= 16 && |cmd| == |args| + 5
      && cmd[..4] == [ffmpegPath, "-y", "-i", inputFile]
      && cmd[|cmd| - 4..] == ["-progress", "pipe:2", "-stats", outputFile]
      && cmd[|cmd| - 5] == "-y"
      && cmd[4..|cmd| - 4] == args[2..|args| - 1]
  {
    var mid := args[2..|args| - 1];
    assert args[|args| - 2..][0] == "-y";
    assert mid[|mid| - 1] == args[|args| - 2] == "-y";
  }

  /** The first six tokens of the video block. */
  lemma VideoHead(v: Video)
    ensures VideoTokens(v)[..6]
      == [Flag("-c:v"), Arg(v.codec), Flag("-crf"), Arg(IntToString(v.crf)), Flag("-preset"), Arg(v.preset)]
  {
    var ps := VideoPieces(v);
    FlattenAt(ps, 0);
    FlattenAt(ps, 1);
    FlattenAt(ps, 2);
    assert ps[0..] == ps;
    assert Flatten(ps) == ps[0] + (ps[1] + (ps[2] + Flatten(ps[3..])));
  }

  /** Right after the input, the command names the codec, quality and
      speed: the user's value where it is truthy, the preset's otherwise
      (so a quality of 0 or an empty codec keeps the preset's). */
  lemma CommandVideoHead(c: PresetCopy, v: Video, a: Audio, s: Settings,
                         ffmpegPath: string, inputFile: string, outputFile: string)
    ensures var cmd := Command(ResolvedPreset(c, v, a, s), ffmpegPath, inputFile, outputFile, s);
      && |cmd| >= 10
      && cmd[4..10] == ["-c:v", if TextSet(s.videoCodec) then s.videoCodec.value else v.codec,
                        "-crf", IntToString(if IntSet(s.crf) then s.crf.value else v.crf),
                        "-preset", if TextSet(s.encodePreset) then s.encodePreset.value else v.preset]
  {
    var p := ResolvedPreset(c, v, a, s);
    ArgsVideoHead(p, inputFile, outputFile, s);
    CommandShape(p, ffmpegPath, inputFile, outputFile, s);
    var args := Render(SettingsArgs(p, inputFile, outputFile, s));
    var cmd := Command(p, ffmpegPath, inputFile, outputFile, s);
    assert cmd[4..10] == cmd[4..|cmd| - 4][..6];
    assert args[2..|args| - 1][..6] == args[2..8];
  }

/** After the video block and the size and rate options, the command
      carries the audio section: the user's codec and bitrate where truthy,
      the preset's otherwise, or "-an" when audio is dropped. */
  lemma CommandAudioHead(c: PresetCopy, v: Video, a: Audio, s: Settings,
                         ffmpegPath: string, inputFile: string, outputFile: string)
    ensures var cmd := Command(ResolvedPreset(c, v, a, s), ffmpegPath, inputFile, outputFile, s);
      var k := 4 + |VideoTokens(OverrideVideo(v, s))| + |ResolutionTokens(CustomResolution(s))|
               + |FramerateTokens(s.fps)|;
      && |cmd| >= k + 4
      && (KeepAudio(s) ==>
            cmd[k..k + 4] == ["-c:a", if TextSet(s.audioCodec) then s.audioCodec.value else a.codec,
                              "-b:a", if TextSet(s.audioBitrate) then s.audioBitrate.value else a.bitrate])
      && (!KeepAudio(s) ==> cmd[k] == "-an")
  {
    var p := ResolvedPreset(c, v, a, s);
    if KeepAudio(s) {
      CommandAudioAt(p, ffmpegPath, inputFile, outputFile, s);
    } else {
      CommandAudioAt(p, ffmpegPath, inputFile, outputFile, s);
    }
  }

  /** The same for any preset: its own audio codec and bitrate. */
  lemma CommandAudioAt(p: Preset, ffmpegPath: string, inputFile: string, outputFile: string, s: Settings)
    ensures var cmd := Command(p, ffmpegPath, inputFile, outputFile, s);
      var k := 4 + |VideoTokens(p.video)| + |ResolutionTokens(CustomResolution(s))| + |FramerateTokens(s.fps)|;
      && |cmd| >= k + 4
      && (KeepAudio(s) ==> cmd[k..k + 4] == ["-c:a", p.audio.codec, "-b:a", p.audio.bitrate])
      && (!KeepAudio(s) ==> cmd[k] == "-an")
  {
    var head := Opt("-i", inputFile) + VideoTokens(p.video) + ResolutionTokens(CustomResolution(s))
                + FramerateTokens(s.fps);
    var tail := FilterTokens(p.filters) + [Flag("-y"), Target(outputFile)];
    ArgTokensSplit(p, inputFile, outputFile, KeepAudio(s), CustomResolution(s), s.fps);
    WrappedHead(Command(p, ffmpegPath, inputFile, outputFile, s), ffmpegPath, inputFile, outputFile,
                SettingsArgs(p, inputFile, outputFile, s), head, p.audio, KeepAudio(s), tail,
                4 + |VideoTokens(p.video)| + |ResolutionTokens(CustomResolution(s))| + |FramerateTokens(s.fps)|);
  }

  /** An audio section the builder puts between its input pair and its
      filters keeps its place, two further on, in the command. */
  lemma WrappedHead(cmd: seq<string>, ffmpegPath: string, inputFile: string, outputFile: string,
                    args: seq<Token>, head: seq<Token>, a: Audio, keep: bool, tail: seq<Token>, k: nat)
    requires cmd == Render(CommandTokens(ffmpegPath, inputFile, outputFile, args))
    requires args == head + AudioTokens(a, keep) + tail
    requires |head| >= 2 && |tail| >= 1 && k == |head| + 2
    ensures |cmd| >= k + 4
    ensures keep ==> cmd[k..k + 4] == ["-c:a", a.codec, "-b:a", a.bitrate]
    ensures !keep ==> cmd[k] == "-an"
  {
    var mid := AudioTokens(a, keep);
    AudioBlock(a, keep);
    assert keep ==> Render(mid)[..4] == ["-c:a", a.codec, "-b:a", a.bitrate];
    WrapSpans(ffmpegPath, inputFile, outputFile, head, mid, tail);
    SpanHead(cmd, k, Render(mid), |tail| + 3, keep, a.codec, a.bitrate);
  }

  /** Whatever the builder puts between its first two and its last
      elements keeps its place, two further on, in the command. */
  lemma WrapSpans(ffmpegPath: string, inputFile: string, outputFile: string,
                  head: seq<Token>, mid: seq<Token>, tail: seq<Token>)
    requires |head| >= 2 && |tail| >= 1
    ensures Spans(Render(CommandTokens(ffmpegPath, inputFile, outputFile, head + mid + tail)),
                  |head| + 2, Render(mid), |tail| + 3)
  {
    var args := head + mid + tail;
    assert Inner(args) == head[2..] + mid + tail[..|tail| - 1];
    var front := [Target(ffmpegPath), Flag("-y"), Flag("-i"), Arg(inputFile)] + head[2..];
    var back := tail[..|tail| - 1] + [Flag("-progress"), Arg("pipe:2"), Flag("-stats"), Target(outputFile)];
    assert CommandTokens(ffmpegPath, inputFile, outputFile, args) == front + mid + back;
    RenderSpans(front, mid, back);
  }

  /** The first elements of the audio section, read through the slice it fills. */
  lemma SpanHead(cmd: seq<string>, k: nat, mid: seq<string>, after: nat, keep: bool,
                 codec: string, bitrate: string)
    requires Spans(cmd, k, mid, after) && after >= 3
    requires keep ==> |mid| >= 4 && mid[..4] == ["-c:a", codec, "-b:a", bitrate]
    requires !keep ==> mid == ["-an"]
    ensures |cmd| >= k + 4
    ensures keep ==> cmd[k..k + 4] == ["-c:a", codec, "-b:a", bitrate]
    ensures !keep ==> cmd[k] == "-an"
  {
    if keep {
      assert cmd[k..k + 4] == cmd[k..k + |mid|][..4];
    } else {
      assert cmd[k] == cmd[k..k + 1][0];
    }
  }

  lemma ArgsVideoHead(p: Preset, inputFile: string, outputFile: string, s: Settings)
    ensures var args := Render(SettingsArgs(p, inputFile, outputFile, s));
      |args| >= 8 && args[2..8] == ["-c:v", p.video.codec, "-crf", IntToString(p.video.crf), "-preset", p.video.preset]
  {
    var ts := SettingsArgs(p, inputFile, outputFile, s);
    TokensVideoHead(p, inputFile, outputFile, KeepAudio(s), CustomResolution(s), s.fps);
    VideoHead(p.video);
    var head := [Flag("-c:v"), Arg(p.video.codec), Flag("-crf"), Arg(IntToString(p.video.crf)),
                 Flag("-preset"), Arg(p.video.preset)];
    assert ts[2..8] == head;
    var args := Render(ts);
    assert args[2..8] == Render(head);
  }

  lemma TokensVideoHead(p: Preset, inputFile: string, outputFile: string, keepAudio: bool,
                        resolution: Option<(int, int)>, framerate: Option<int>)
    ensures var ts := ArgTokens(p, inputFile, outputFile, keepAudio, resolution, framerate);
      |ts| >= 8 && ts[2..8] == VideoTokens(p.video)[..6]
  {
    var ps := LeadPieces(p, inputFile, keepAudio, resolution, framerate);
    FlattenFive(ps);
    AfterTwo(ps[0], ps[1], ps[2], ps[3], ps[4], FilterTokens(p.filters), [Flag("-y"), Target(outputFile)]);
  }

  lemma AfterTwo<T>(a: seq<T>, b: seq<T>, c: seq<T>, d: seq<T>, e: seq<T>, f: seq<T>, g: seq<T>)
    requires |a| == 2 && |b| >= 6
    ensures |a + b + c + d + e + f + g| >= 8 && (a + b + c + d + e + f + g)[2..8] == b[..6]
  {
    var r := c + d + e + f + g;
    assert a + b + c + d + e + f + g == a + b + r;
  }

  /** The command names every option of the builder's arguments, plus a
      second "-y" and the two progress options. */
  lemma CommandFlagNames(ffmpegPath: string, inputFile: string, outputFile: string, args: seq<Token>)
    requires |args| >= 3 && args[0] == Flag("-i") && !args[1].Flag? && !args[|args| - 1].Flag?
    ensures multiset(FlagNames(CommandTokens(ffmpegPath, inputFile, outputFile, args)))
      == multiset(FlagNames(args)) + multiset{"-y", "-progress", "-stats"}
  {
    var mid := Inner(args);
    var head := [Target(ffmpegPath), Flag("-y"), Flag("-i"), Arg(inputFile)];
    var tail := [Flag("-progress"), Arg("pipe:2"), Flag("-stats"), Target(outputFile)];
    ArgsFlagNames(args);
    HeadTailFlags(ffmpegPath, inputFile, outputFile);
    FlagNamesConcat(head + mid, tail);
    FlagNamesConcat(head, mid);
    assert FlagNames(CommandTokens(ffmpegPath, inputFile, outputFile, args))
      == ["-y", "-i"] + FlagNames(mid) + ["-progress", "-stats"];
  }

  lemma ArgsFlagNames(args: seq<Token>)
    requires |args| >= 3 && args[0] == Flag("-i") && !args[1].Flag? && !args[|args| - 1].Flag?
    ensures FlagNames(args) == ["-i"] + FlagNames(Inner(args))
  {
    var mid := Inner(args);
    assert args == [args[0], args[1]] + mid + [args[|args| - 1]];
    FlagNamesConcat([args[0], args[1]] + mid, [args[|args| - 1]]);
    FlagNamesConcat([args[0], args[1]], mid);
    PairFlags("-i", args[1]);
    assert FlagNames([args[|args| - 1]]) == [];
  }

  lemma HeadTailFlags(ffmpegPath: string, inputFile: string, outputFile: string)
    ensures FlagNames([Target(ffmpegPath), Flag("-y"), Flag("-i"), Arg(inputFile)]) == ["-y", "-i"]
    ensures FlagNames([Flag("-progress"), Arg("pipe:2"), Flag("-stats"), Target(outputFile)]) == ["-progress", "-stats"]
  {
    var head := [Target(ffmpegPath), Flag("-y"), Flag("-i"), Arg(inputFile)];
    assert head == [Target(ffmpegPath), Flag("-y")] + [Flag("-i"), Arg(inputFile)];
    FlagNamesConcat([Target(ffmpegPath), Flag("-y")], [Flag("-i"), Arg(inputFile)]);
    PairFlags("-i", Arg(inputFile));
    assert FlagNames([Flag("-y")]) == ["-y"];
    assert [Target(ffmpegPath), Flag("-y")][1..] == [Flag("-y")];
    var tail := [Flag("-progress"), Arg("pipe:2"), Flag("-stats"), Target(outputFile)];
    assert tail == [Flag("-progress"), Arg("pipe:2")] + [Flag("-stats"), Target(outputFile)];
    FlagNamesConcat([Flag("-progress"), Arg("pipe:2")], [Flag("-stats"), Target(outputFile)]);
    PairFlags("-progress", Arg("pipe:2"));
    PairFlags("-stats", Target(outputFile));
  }

  /** How often option `x` occurs in the command, given its count in the
      builder's arguments. */
  lemma CommandCountAt(p: Preset, ffmpegPath: string, inputFile: string, outputFile: string, s: Settings, x: string)
    ensures multiset(FlagNames(CommandTokens(ffmpegPath, inputFile, outputFile, SettingsArgs(p, inputFile, outputFile, s))))[x]
      == multiset(FlagNames(SettingsArgs(p, inputFile, outputFile, s)))[x]
         + Indicator(x == "-y") + Indicator(x == "-progress") + Indicator(x == "-stats")
  {
    ArgsShape(p, inputFile, outputFile, s);
    CommandFlagNames(ffmpegPath, inputFile, outputFile, SettingsArgs(p, inputFile, outputFile, s));
  }

  /** Option by option, what the command holds: "-y" twice and the input
      once; the size exactly when width and height are both truthy, the
      rate exactly when it is truthy; the audio block when audio is kept
      (the default) and otherwise the single "-an", never both. */
  lemma CommandFlagCounts(p: Preset, ffmpegPath: string, inputFile: string, outputFile: string, s: Settings)
    ensures var names := multiset(FlagNames(CommandTokens(ffmpegPath, inputFile, outputFile,
                                                          SettingsArgs(p, inputFile, outputFile, s))));
      && names["-y"] == 2 && names["-i"] == 1 && names["-progress"] == 1
      && names["-s"] == (if IntSet(s.resolution.width) && IntSet(s.resolution.height) then 1 else 0)
      && names["-r"] == (if IntSet(s.fps) then 1 else 0)
      && names["-tune"] == (if TuneSet(p.video) then 1 else 0)
      && names["-an"] == (if KeepAudio(s) then 0 else 1)
      && names["-c:a"] == (if KeepAudio(s) then 1 else 0)
      && (s.keepAudio.None? ==> names["-an"] == 0 && names["-c:a"] == 1)
  {
    CommandCountAt(p, ffmpegPath, inputFile, outputFile, s, "-y");
    CommandCountAt(p, ffmpegPath, inputFile, outputFile, s, "-i");
    CommandCountAt(p, ffmpegPath, inputFile, outputFile, s, "-progress");
    CommandCountAt(p, ffmpegPath, inputFile, outputFile, s, "-s");
    CommandCountAt(p, ffmpegPath, inputFile, outputFile, s, "-r");
    CommandCountAt(p, ffmpegPath, inputFile, outputFile, s, "-tune");
    CommandCountAt(p, ffmpegPath, inputFile, outputFile, s, "-an");
    CommandCountAt(p, ffmpegPath, inputFile, outputFile, s, "-c:a");
    AudioOptionsExclusive(p, inputFile, outputFile, KeepAudio(s), CustomResolution(s), s.fps);
    OptionalOptionsPresent(p, inputFile, outputFile, KeepAudio(s), CustomResolution(s), s.fps);
    ArgFlagCountAt(p, inputFile, outputFile, KeepAudio(s), CustomResolution(s), s.fps, "-progress");
    VideoFlagCountAt(p.video, "-progress");
    AudioFlagCountAt(p.audio, KeepAudio(s), "-progress");
  }

  /** Picking entries of the resolution and framerate tables: the
      "original" entries put no "-s" (or "-r") in the command, every other
      entry exactly one. */
  lemma TableEntriesInCommand(p: Preset, ffmpegPath: string, inputFile: string, outputFile: string,
                              s: Settings, size: string, rate: string)
    requires size in ResolutionPresets && rate in FrameratePresets
    requires s.resolution == Resolution(ResolutionPresets[size].width, ResolutionPresets[size].height)
    requires s.fps == FrameratePresets[rate].fps
    ensures var names := multiset(FlagNames(CommandTokens(ffmpegPath, inputFile, outputFile,
                                                          SettingsArgs(p, inputFile, outputFile, s))));
      && names["-s"] == (if size == "original" then 0 else 1)
      && names["-r"] == (if rate == "original" then 0 else 1)
  {
    assert IntSet(s.resolution.width) && IntSet(s.resolution.height) <==> size != "original" by {
      TableEntries(size, rate);
    }
    assert IntSet(s.fps) <==> rate != "original" by {
      TableEntries(size, rate);
    }
    CommandFlagCounts(p, ffmpegPath, inputFile, outputFile, s);
  }

  lemma ArgsShape(p: Preset, inputFile: string, outputFile: string, s: Settings)
    ensures var args := SettingsArgs(p, inputFile, outputFile, s);
      |args| >= 3 && args[0] == Flag("-i") && !args[1].Flag? && !args[|args| - 1].Flag?
  {
    var lead := LeadTokens(p, inputFile, KeepAudio(s), CustomResolution(s), s.fps);
    var args := SettingsArgs(p, inputFile, outputFile, s);
    assert args == lead + FilterTokens(p.filters) + [Flag("-y"), Target(outputFile)];
    assert args[0] == lead[0] && args[1] == lead[1];
  }

  /** Because the overrides land in the shared blocks, a job that sets a
      quality leaves it behind: a later job on the same preset that sets
      none runs with the earlier job's quality, not the catalog's. */
  method OverrideOutlivesJob(ffmpegPath: string, inputFile: string, outputFile: string,
                             first: Settings, second: Settings)
    returns (cmd1: seq<string>, cmd2: seq<string>)
    requires PresetKey(PresetName(first)) == PresetKey(PresetName(second))
    requires IntSet(first.crf) && !IntSet(second.crf)
    ensures |cmd2| >= 10 && cmd2[7] == IntToString(first.crf.value)
    ensures first.crf.value != Catalog[PresetKey(PresetName(second))].video.crf ==>
      cmd2[7] != IntToString(Catalog[PresetKey(PresetName(second))].video.crf)
  {
    var store := new PresetStore();
    var k := PresetKey(PresetName(first));
    var v0, a0 := store.video[k], store.audio[k];
    cmd1 := BuildFfmpegCommand(store, ffmpegPath, inputFile, outputFile, first);
    var v1, a1 := store.video[k], store.audio[k];
    assert v1 == OverrideVideo(v0, first);
    assert a1 == OverrideAudio(a0, first);
    cmd2 := BuildFfmpegCommand(store, ffmpegPath, inputFile, outputFile, second);
    LeakedQuality(GetPreset(PresetName(second)), v0, a0, first, second, ffmpegPath, inputFile, outputFile);
    DistinctText(first.crf.value, v0.crf);
  }

  /** A quality written by one job shows in the command of a later job
      that sets none. */
  lemma LeakedQuality(c: PresetCopy, v0: Video, a0: Audio, first: Settings, second: Settings,
                      ffmpegPath: string, inputFile: string, outputFile: string)
    requires IntSet(first.crf) && !IntSet(second.crf)
    ensures var cmd := Command(ResolvedPreset(c, OverrideVideo(v0, first), OverrideAudio(a0, first), second),
                               ffmpegPath, inputFile, outputFile, second);
      |cmd| >= 10 && cmd[7] == IntToString(first.crf.value)
  {
    CommandVideoHead(c, OverrideVideo(v0, first), OverrideAudio(a0, first), second, ffmpegPath, inputFile, outputFile);
  }

  lemma DistinctText(a: int, b: int)
    ensures a != b ==> IntToString(a) != IntToString(b)
  {
    IntToStringRoundTrip(a);
    IntToStringRoundTrip(b);
  }

  // ---------------------------------------------------------------------
  // The monitor loop

  /** What one pass of the loop observes: whether a cancel has been
      requested, ffmpeg's exit code once it has exited, the clock in
      microseconds, and the line read from its error stream, if any. */
  datatype Poll = Poll(cancel: bool, exitCode: Option<int>, now: int, line: Option<string>)

  /** How the loop ended; `Watching` means the observations ran out while
      ffmpeg was still running. */
  datatype Outcome = Cancelled | Exited(code: int) | Stalled | Watching

  /** The loop's variables: when progress was last seen, the collected
      error text, and the progress events reported so far. */
  datatype Watch = Watch(lastProgress: int, errorOutput: string, events: seq<Event>)

  /** Five minutes, in microseconds. */
  const StallLimit := 300000000

  /** A line that mentions an error or a failure, in any letter case. */
  predicate Complains(line: string) {
    Contains(Lower(line), "error") || Contains(Lower(line), "failed")
  }

  /** The read step: a non-empty line is stripped; when it parses as
      progress the event is reported and the timer restarts; when it
      complains it is appended to the error text. */
  function ReadStep(w: Watch, p: Poll, duration: Seconds, hasProgress: bool): Watch {
    if p.line.None? || p.line.value == "" then w
    else
      var line := Strip(p.line.value);
      Absorb(w, p.now, line, ParseProgressLine(line, duration, hasProgress), Complains(line))
  }

  /** One stripped line: its event, if any, restarts the timer, and a
      complaining line joins the error text. */
  function Absorb(w: Watch, now: int, line: string, ev: Option<Event>, complains: bool): (r: Watch)
    ensures r.lastProgress == (if ev.Some? then now else w.lastProgress)
    ensures r.events == w.events + (if ev.Some? then [ev.value] else [])
    ensures r.errorOutput == w.errorOutput + (if complains then line + "\n" else "")
  {
    var w1 := if ev.Some? then w.(lastProgress := now, events := w.events + [ev.value]) else w;
    if complains then w1.(errorOutput := w1.errorOutput + line + "\n") else w1
  }

  /** The loop over a run of polls, each deciding in this order: cancel,
      exit, stall, read. */
  function Watcher(polls: seq<Poll>, w: Watch, cancelling: bool, duration: Seconds, hasProgress: bool)
    : (Outcome, Watch)
    decreases |polls|
  {
    if polls == [] then (Watching, w)
    else if cancelling || polls[0].cancel then (Cancelled, w)
    else if polls[0].exitCode.Some? then (Exited(polls[0].exitCode.value), w)
    else if polls[0].now - w.lastProgress > StallLimit then (Stalled, w)
    else Watcher(polls[1..], ReadStep(w, polls[0], duration, hasProgress), false, duration, hasProgress)
  }

  /** What the error callback is told. */
  datatype Failure =
    | FfmpegUnavailable
    | InputMissing(path: string)
    | TimedOut
    | ExitFailed(code: int, detail: string)

  /** The verdict after the loop: success only for exit code 0; a failed
      exit reports its code and the stripped error text (with whatever
      the stream still held), a stall reports the timeout. */
  function Verdict(outcome: Outcome, w: Watch, remaining: string, hasError: bool): (r: (bool, seq<Failure>))
    ensures r.0 <==> outcome == Exited(0)
    ensures |r.1| <= 1 && (r.1 != [] ==> hasError)
    ensures hasError && outcome.Exited? && outcome.code != 0 ==>
      r.1 == [ExitFailed(outcome.code, Strip(w.errorOutput + remaining))]
    ensures hasError && outcome.Stalled? ==> r.1 == [TimedOut]
    ensures outcome.Cancelled? || outcome.Watching? ==> r.1 == []
  {
    match outcome
    case Exited(code) =>
      if code == 0 then (true, [])
      else (false, if hasError then [ExitFailed(code, Strip(w.errorOutput + remaining))] else [])
    case Stalled => (false, if hasError then [TimedOut] else [])
    case _ => (false, [])
  }

  /** A poll that neither cancels, nor exits, nor reads a line that
      parses as progress. */
  predicate Quiet(p: Poll, duration: Seconds, hasProgress: bool) {
    !p.cancel && p.exitCode.None? && !ReadsProgress(p, duration, hasProgress)
  }

  /** The poll reads a line that parses as progress. */
  predicate ReadsProgress(p: Poll, duration: Seconds, hasProgress: bool) {
    p.line.Some? && p.line.value != "" && ParseProgressLine(Strip(p.line.value), duration, hasProgress).Some?
  }

  /** Only a line that parses as progress restarts the timer. */
  lemma ReadStepTimer(w: Watch, p: Poll, duration: Seconds, hasProgress: bool)
    ensures var w1 := ReadStep(w, p, duration, hasProgress);
      && w1.lastProgress == (if ReadsProgress(p, duration, hasProgress) then p.now else w.lastProgress)
      && |w1.events| <= |w.events| + 1 && w1.events[..|w.events|] == w.events
  {
    if p.line.Some? && p.line.value != "" {
      var line := Strip(p.line.value);
      var ev := ParseProgressLine(line, duration, hasProgress);
      var w1 := Absorb(w, p.now, line, ev, Complains(line));
      assert w1.events[..|w.events|] == w.events;
    }
  }

  /** While ffmpeg stays quiet, the loop declares a stall at the first
      poll more than five minutes after the last progress. */
  lemma {:induction false} QuietRunStalls(polls: seq<Poll>, w: Watch, duration: Seconds, hasProgress: bool, k: nat)
    requires k < |polls| && polls[k].now - w.lastProgress > StallLimit
    requires forall i :: 0 <= i < |polls| ==> Quiet(polls[i], duration, hasProgress)
    ensures Watcher(polls, w, false, duration, hasProgress).0 == Stalled
    decreases |polls|
  {
    var p := polls[0];
    if p.now - w.lastProgress <= StallLimit {
      ReadStepTimer(w, p, duration, hasProgress);
      var w1 := ReadStep(w, p, duration, hasProgress);
      assert k > 0;
      forall i | 0 <= i < |polls[1..]|
        ensures Quiet(polls[1..][i], duration, hasProgress)
      {
        assert polls[1..][i] == polls[i + 1];
      }
      assert polls[1..][k - 1] == polls[k];
      QuietRunStalls(polls[1..], w1, duration, hasProgress, k - 1);
    }
  }

  /** Without a progress callback no line counts as progress, so a job
      that runs more than five minutes is stopped as stalled however much
      ffmpeg prints, unless it exits or is cancelled first. */
  lemma NoCallbackStalls(polls: seq<Poll>, start: int, duration: Seconds, k: nat)
    requires k < |polls| && polls[k].now - start > StallLimit
    requires forall i :: 0 <= i < |polls| ==> !polls[i].cancel && polls[i].exitCode.None?
    ensures Watcher(polls, Watch(start, "", []), false, duration, false).0 == Stalled
  {
    forall i | 0 <= i < |polls|
      ensures Quiet(polls[i], duration, false)
    {
      if polls[i].line.Some? && polls[i].line.value != "" {
        EventPercentBounded(Strip(polls[i].line.value), duration, false);
      }
    }
    QuietRunStalls(polls, Watch(start, "", []), duration, false, k);
  }

  /** What the loop reports only grows: earlier events and error text are
      kept as they were, every event carries a percentage of at most 100,
      and the timer is never earlier than at the start. */
  lemma {:induction false} WatcherGrows(polls: seq<Poll>, w: Watch, cancelling: bool, duration: Seconds, hasProgress: bool)
    requires forall e :: e in w.events && e.progress.Some? ==> e.progress.value <= 100
    ensures var w1 := Watcher(polls, w, cancelling, duration, hasProgress).1;
      && |w.events| <= |w1.events| && w1.events[..|w.events|] == w.events
      && |w.errorOutput| <= |w1.errorOutput| && w1.errorOutput[..|w.errorOutput|] == w.errorOutput
      && (forall e :: e in w1.events && e.progress.Some? ==> e.progress.value <= 100)
    decreases |polls|
  {
    if polls != [] && !cancelling && !polls[0].cancel && polls[0].exitCode.None?
       && polls[0].now - w.lastProgress <= StallLimit {
      var w1 := ReadStep(w, polls[0], duration, hasProgress);
      ReadStepGrows(w, polls[0], duration, hasProgress);
      WatcherGrows(polls[1..], w1, false, duration, hasProgress);
      var w2 := Watcher(polls[1..], w1, false, duration, hasProgress).1;
      assert w2.events[..|w.events|] == w2.events[..|w1.events|][..|w.events|];
      assert w2.errorOutput[..|w.errorOutput|] == w2.errorOutput[..|w1.errorOutput|][..|w.errorOutput|];
    }
  }

  lemma ReadStepGrows(w: Watch, p: Poll, duration: Seconds, hasProgress: bool)
    requires forall e :: e in w.events && e.progress.Some? ==> e.progress.value <= 100
    ensures var w1 := ReadStep(w, p, duration, hasProgress);
      && |w.events| <= |w1.events| && w1.events[..|w.events|] == w.events
      && |w.errorOutput| <= |w1.errorOutput| && w1.errorOutput[..|w.errorOutput|] == w.errorOutput
      && (forall e :: e in w1.events && e.progress.Some? ==> e.progress.value <= 100)
  {
    if p.line.Some? && p.line.value != "" {
      var line := Strip(p.line.value);
      EventPercentBounded(line, duration, hasProgress);
      AbsorbGrows(w, p.now, line, ParseProgressLine(line, duration, hasProgress), Complains(line));
    }
  }

  lemma AbsorbGrows(w: Watch, now: int, line: string, ev: Option<Event>, complains: bool)
    requires forall e :: e in w.events && e.progress.Some? ==> e.progress.value <= 100
    requires ev.Some? && ev.value.progress.Some? ==> ev.value.progress.value <= 100
    ensures var w1 := Absorb(w, now, line, ev, complains);
      && |w.events| <= |w1.events| && w1.events[..|w.events|] == w.events
      && |w.errorOutput| <= |w1.errorOutput| && w1.errorOutput[..|w.errorOutput|] == w.errorOutput
      && (forall e :: e in w1.events && e.progress.Some? ==> e.progress.value <= 100)
  {
    var w1 := Absorb(w, now, line, ev, complains);
    assert w1.events[..|w.events|] == w.events;
    assert w1.errorOutput[..|w.errorOutput|] == w.errorOutput;
  }

  /** Without a progress callback the loop reports no event at all. */
  lemma {:induction false} NoCallbackNoEvents(polls: seq<Poll>, w: Watch, cancelling: bool, duration: Seconds)
    ensures Watcher(polls, w, cancelling, duration, false).1.events == w.events
    decreases |polls|
  {
    if polls != [] && !cancelling && !polls[0].cancel && polls[0].exitCode.None?
       && polls[0].now - w.lastProgress <= StallLimit {
      var p := polls[0];
      if p.line.Some? && p.line.value != "" {
        EventPercentBounded(Strip(p.line.value), duration, false);
      }
      NoCallbackNoEvents(polls[1..], ReadStep(w, p, duration, false), false, duration);
    }
  }

  /** What the progress callback hears from a job: the start at 0%, each
      event of the loop, and the completion at 100%. */
  datatype Report = Starting | Progressed(event: Event) | Completed

  /** The loop's events as reports, in order. */
  function Reports(events: seq<Event>): (r: seq<Report>)
    ensures |r| == |events| && forall i :: 0 <= i < |r| ==> r[i] == Progressed(events[i])
  {
    seq(|events|, i requires 0 <= i < |events| => Progressed(events[i]))
  }

  // ---------------------------------------------------------------------
  // The output-size estimate

  /** `get_estimated_output_size`: `None` when the input's size cannot be
      read, otherwise the estimate from the compression hint of the entry
      the settings name (an unknown name reads "standard"). */
  function EstimateOutputSize(size: Option<nat>, s: Settings): (r: Option<int>)
    ensures r.Some? <==> size.Some?
    ensures r.Some? ==> size.value / 10 <= r.value <= size.value
    ensures r.Some? && PresetKey(PresetName(s)) == "custom" ==> r.value == size.value / 2
  {
    if size.None? then None
    else
      var k := PresetKey(PresetName(s));
      HintBounded(k, size.value);
      Some(SizeEstimate(size.value, Catalog[k].compressionRatio))
  }

  /** Every catalog hint is at most 100%, and only "custom" has none. */
  lemma HintBounded(k: string, size: nat)
    requires k in Catalog
    ensures var t := Catalog[k].compressionRatio;
      && (FindRatio(t).None? || FindRatio(t).value <= 100)
      && (FindRatio(t).None? <==> k == "custom")
      && size / 10 <= SizeEstimate(size, t) <= size
  {
    var t := Catalog[k].compressionRatio;
    if k == "high_quality" {
      assert t == ['3', '0', '%'];
      PercentHint('3', '0');
    } else if k == "standard" {
      assert t == ['5', '0', '%'];
      PercentHint('5', '0');
    } else if k == "high_compression" {
      assert t == ['7', '0', '%'];
      PercentHint('7', '0');
    } else if k == "web_optimized" {
      assert t == ['6', '0', '%'];
      PercentHint('6', '0');
    } else {
      assert k == "custom";
      NoHint();
    }
    SizeEstimateBounds(size, t);
  }

  /** A gigabyte under "high_compression" (hint 70%) is estimated at 300
      MB; an unknown preset name estimates like "standard" (hint 50%). */
  lemma EstimateExamples(s: Settings, size: nat)
    ensures s.preset == Some("high_compression") ==>
      EstimateOutputSize(Some(1000000000), s) == Some(300000000)
    ensures s.preset.Some? && s.preset.value !in Catalog ==>
      EstimateOutputSize(Some(size), s) == Some(Max(TruncDiv(size * 50, 100), size / 10))
  {
    if s.preset == Some("high_compression") {
      assert Catalog["high_compression"].compressionRatio == ['7', '0', '%'];
      CatalogHints(size);
    }
    if s.preset.Some? && s.preset.value !in Catalog {
      assert Catalog["standard"].compressionRatio == ['5', '0', '%'];
      PercentHint('5', '0');
    }
  }

  /** What a job observes of the world outside: whether ffmpeg is
      available and where, whether the input exists, the probe's
      diagnostics, the polls of the loop and the clock at its start, the
      text left in ffmpeg's error stream after it exits, and whether the
      output file exists afterwards. */
  datatype Environment = Environment(
    available: bool, ffmpegPath: string, inputExists: bool, probeText: string,
    polls: seq<Poll>, start: int, remaining: string, outputExists: bool)

  /** The outcome of `compress_video`: whether it succeeded, what the
      progress callback heard and what the error callback heard. */
  function Job(env: Environment, inputFile: string, hasProgress: bool, hasError: bool)
    : (bool, seq<Report>, seq<Failure>)
  {
    if !env.available then (false, [], if hasError then [FfmpegUnavailable] else [])
    else if !env.inputExists then (false, [], if hasError then [InputMissing(inputFile)] else [])
    else
      var (o, w) := Watcher(env.polls, Watch(env.start, "", []), false, VideoDuration(env.probeText), hasProgress);
      var ok := o == Exited(0);
      (ok,
       ReportLog(w.events, ok, hasProgress),
       Verdict(o, w, env.remaining, hasError).1)
  }

  /** What the progress callback hears of a run that reached ffmpeg: 0%,
      every parsed event, and 100% when ffmpeg exited with 0. */
  function ReportLog(events: seq<Event>, ok: bool, hasProgress: bool): seq<Report> {
    (if hasProgress then [Starting] else []) + Reports(events) + (if ok && hasProgress then [Completed] else [])
  }

  /** The callback hears 0% first, 100% exactly on success, nothing above
      100%, and nothing at all without a callback. */
  predicate WellReported(reports: seq<Report>, ok: bool, hasProgress: bool) {
    && (Completed in reports <==> ok && hasProgress)
    && (!hasProgress ==> reports == [])
    && (hasProgress ==> reports != [] && reports[0] == Starting)
    && (forall r :: r in reports && r.Progressed? && r.event.progress.Some? ==> r.event.progress.value <= 100)
  }

  lemma ReportLogSound(events: seq<Event>, ok: bool, hasProgress: bool)
    requires forall e :: e in events && e.progress.Some? ==> e.progress.value <= 100
    requires !hasProgress ==> events == []
    ensures WellReported(ReportLog(events, ok, hasProgress), ok, hasProgress)
  {
    var reports := ReportLog(events, ok, hasProgress);
    assert Completed !in Reports(events);
    forall r | r in reports && r.Progressed? && r.event.progress.Some?
      ensures r.event.progress.value <= 100
    {
      var i :| 0 <= i < |reports| && reports[i] == r;
      var j := i - (if hasProgress then 1 else 0);
      assert r == Reports(events)[j];
      assert r.event == events[j];
    }
  }

  /** `Job` once ffmpeg is available and the input exists. */
  lemma JobRuns(env: Environment, inputFile: string, hasProgress: bool, hasError: bool)
    requires env.available && env.inputExists
    ensures var ow := Watcher(env.polls, Watch(env.start, "", []), false, VideoDuration(env.probeText), hasProgress);
      var ok := ow.0 == Exited(0);
      Job(env, inputFile, hasProgress, hasError)
        == (ok,
            ReportLog(ow.1.events, ok, hasProgress),
            Verdict(ow.0, ow.1, env.remaining, hasError).1)
  {
  }

  /** A job succeeds exactly when ffmpeg is available, the input exists
      and ffmpeg exits with 0 before any cancel or stall; success and an
      error report exclude each other; the callback hears 0% first and
      100% exactly on success, every percentage it hears is at most 100,
      and without a callback nothing is heard. */
  lemma JobProperties(env: Environment, inputFile: string, hasProgress: bool, hasError: bool)
    ensures var (ok, reports, failures) := Job(env, inputFile, hasProgress, hasError);
      && (ok <==> env.available && env.inputExists
                  && Watcher(env.polls, Watch(env.start, "", []), false, VideoDuration(env.probeText), hasProgress).0
                     == Exited(0))
      && (ok ==> failures == [])
      && |failures| <= 1 && (failures != [] ==> hasError)
      && (Completed in reports <==> ok && hasProgress)
      && (!hasProgress ==> reports == [])
      && (hasProgress && env.available && env.inputExists ==> reports[0] == Starting)
      && (forall r :: r in reports && r.Progressed? && r.event.progress.Some? ==> r.event.progress.value <= 100)
  {
    if env.available && env.inputExists {
      var d := VideoDuration(env.probeText);
      var w0 := Watch(env.start, "", []);
      var (o, w) := Watcher(env.polls, w0, false, d, hasProgress);
      WatcherGrows(env.polls, w0, false, d, hasProgress);
      if !hasProgress {
        NoCallbackNoEvents(env.polls, w0, false, d);
      }
      ReportLogSound(w.events, o == Exited(0), hasProgress);
    }
  }

  /** The state of the ffmpeg process the compressor holds. */
  datatype Process = NoProcess | Running | Finished(code: int) | Terminated

  /** `VideoCompressor`: the running process and the cancel flag. */
  class VideoCompressor {
    var process: Process
    var isCancelling: bool

    constructor ()
      ensures process == NoProcess && !isCancelling
    {
      process := NoProcess;
      isCancelling := false;
    }

    /** `is_compression_running`. */
    function IsCompressionRunning(): (r: bool)
      reads this
      ensures r ==> !isCancelling
    {
      process.Running? && !isCancelling
    }

    /** `cancel_compression`: raise the flag and stop a running process. */
    method CancelCompression()
      modifies this
      ensures isCancelling && !IsCompressionRunning()
      ensures process == (if old(process).Running? then Terminated else old(process))
    {
      isCancelling := true;
      if process.Running? {
        process := Terminated;
      }
    }

    /** `_monitor_progress` over the given polls: the loop variables
        follow `Watcher`, a cancel or a stall stops the process, and an
        exit records its code. */
    method MonitorProgress(polls: seq<Poll>, start: int, duration: Seconds, hasProgress: bool,
                           hasError: bool, remaining: string)
      returns (ok: bool, outcome: Outcome, events: seq<Event>, failures: seq<Failure>)
      modifies this
      ensures var (o, w) := Watcher(polls, Watch(start, "", []), old(isCancelling), duration, hasProgress);
        && outcome == o && events == w.events
        && (ok, failures) == Verdict(o, w, remaining, hasError)
      ensures outcome.Cancelled? || outcome.Stalled? ==>
        isCancelling && process == (if old(process).Running? then Terminated else old(process))
      ensures outcome.Exited? ==> process == Finished(outcome.code) && isCancelling == old(isCancelling)
      ensures outcome.Watching? ==> process == old(process) && isCancelling == old(isCancelling)
    {
      var w := Watch(start, "", []);
      var i := 0;
      while i < |polls|
        invariant 0 <= i <= |polls|
        invariant Watcher(polls, Watch(start, "", []), old(isCancelling), duration, hasProgress)
          == Watcher(polls[i..], w, isCancelling, duration, hasProgress)
        invariant process == old(process)
        invariant i > 0 ==> !isCancelling
        invariant isCancelling == old(isCancelling)
      {
        var p := polls[i];
        if isCancelling || p.cancel {
          CancelCompression();
          outcome := Cancelled;
          ok, failures := Verdict(outcome, w, remaining, hasError).0, Verdict(outcome, w, remaining, hasError).1;
          events := w.events;
          return;
        }
        if p.exitCode.Some? {
          process := Finished(p.exitCode.value);
          outcome := Exited(p.exitCode.value);
          ok, failures := Verdict(outcome, w, remaining, hasError).0, Verdict(outcome, w, remaining, hasError).1;
          events := w.events;
          return;
        }
        if p.now - w.lastProgress > StallLimit {
          CancelCompression();
          outcome := Stalled;
          ok, failures := Verdict(outcome, w, remaining, hasError).0, Verdict(outcome, w, remaining, hasError).1;
          events := w.events;
          return;
        }
        assert polls[i..][1..] == polls[i + 1..];
        w := ReadStep(w, p, duration, hasProgress);
        i := i + 1;
      }
      outcome := Watching;
      ok, failures := false, [];
      events := w.events;
    }
  
    /** `_execute_compression`: the flag is cleared, ffmpeg is started and
        the loop watches it from a clear flag. */
    method ExecuteCompression(polls: seq<Poll>, start: int, duration: Seconds, hasProgress: bool,
                              hasError: bool, remaining: string)
      returns (ok: bool, outcome: Outcome, events: seq<Event>, failures: seq<Failure>)
      modifies this
      ensures var (o, w) := Watcher(polls, Watch(start, "", []), false, duration, hasProgress);
        && outcome == o && events == w.events
        && (ok, failures) == Verdict(o, w, remaining, hasError)
      ensures outcome.Cancelled? || outcome.Stalled? ==> isCancelling && process == Terminated
      ensures outcome.Exited? ==> process == Finished(outcome.code) && !isCancelling
      ensures outcome.Watching? ==> process == Running && !isCancelling
    {
      isCancelling := false;
      process := Running;
      ok, outcome, events, failures := MonitorProgress(polls, start, duration, hasProgress, hasError, remaining);
    }

    /** `compress_video`: ffmpeg must be available and the input must
        exist; then the command is built (writing the overrides into the
        catalog's shared blocks), the duration is read from the probe's
        diagnostics, and the loop watches ffmpeg; the outcome is `Job`. */
    method CompressVideo(store: PresetStore, env: Environment, inputFile: string, outputFile: string,
                         s: Settings, hasProgress: bool, hasError: bool)
      returns (ok: bool, reports: seq<Report>, failures: seq<Failure>)
      requires store.Valid()
      modifies this, store
      ensures store.Valid()
      ensures (ok, reports, failures) == Job(env, inputFile, hasProgress, hasError)
      ensures !env.available || !env.inputExists ==> unchanged(store) && unchanged(this)
      ensures env.available && env.inputExists ==>
        var k := PresetKey(PresetName(s));
        && store.video == old(store.video)[k := OverrideVideo(old(store.video)[k], s)]
        && store.audio == old(store.audio)[k := OverrideAudio(old(store.audio)[k], s)]
    {
      reports := [];
      if !env.available {
        ok, failures := false, if hasError then [FfmpegUnavailable] else [];
        assert (ok, reports, failures) == Job(env, inputFile, hasProgress, hasError);
        return;
      }
      if !env.inputExists {
        ok, failures := false, if hasError then [InputMissing(inputFile)] else [];
        assert (ok, reports, failures) == Job(env, inputFile, hasProgress, hasError);
        return;
      }
      var cmd := BuildFfmpegCommand(store, env.ffmpegPath, inputFile, outputFile, s);
      reports := if hasProgress then [Starting] else [];
      var duration := VideoDuration(env.probeText);
      var success, outcome, events;
      success, outcome, events, failures :=
        ExecuteCompression(env.polls, env.start, duration, hasProgress, hasError, env.remaining);
      ghost var ow := Watcher(env.polls, Watch(env.start, "", []), false, duration, hasProgress);
      assert outcome == ow.0 && events == ow.1.events;
      assert (success, failures) == Verdict(ow.0, ow.1, env.remaining, hasError);
      assert success ==> !isCancelling;
      ok := success && !isCancelling;
      assert ok == (ow.0 == Exited(0));
      reports := reports + Reports(events) + (if ok && hasProgress then [Completed] else []);
      JobRuns(env, inputFile, hasProgress, hasError);
      assert ok == Job(env, inputFile, hasProgress, hasError).0;
      assert reports == Job(env, inputFile, hasProgress, hasError).1;
      assert failures == Job(env, inputFile, hasProgress, hasError).2;
    }
  }
}
