/** The preset catalog and the ffmpeg argument builder
    (app/core/compression_presets.py).

    A preset is a record whose nested `video` and `audio` blocks are
    separate dictionaries. `get_preset` hands out a shallow copy, so every
    copy shares those two blocks with the catalog entry it came from:
    `PresetStore` holds the blocks as mutable state, and a `PresetCopy`
    records the catalog entry whose blocks it shares. */
module Presets {
  import opened Text

  datatype Video = Video(
    codec: string, crf: int, preset: string, profile: string,
    level: string, pixelFormat: string, tune: Option<string>)

  datatype Audio = Audio(codec: string, bitrate: string, sampleRate: int, channels: int)

  /** A preset with its blocks resolved to values. */
  datatype Preset = Preset(
    name: string, description: string, icon: string, compressionRatio: string,
    useCase: string, video: Video, audio: Audio, filters: seq<string>, outputFormat: string)

  /** A shallow copy of a catalog entry: its own top-level fields, and the
      `video`/`audio` blocks of catalog entry `shares`. */
  datatype PresetCopy = PresetCopy(
    name: string, description: string, icon: string, compressionRatio: string,
    useCase: string, filters: seq<string>, outputFormat: string, shares: string)

  datatype DisplayInfo = DisplayInfo(
    name: string, description: string, icon: string, compressionRatio: string, useCase: string)

  const DefaultPreset := "standard"

  const X264Video := Video("libx264", 23, "medium", "high", "4.1", "yuv420p", None)
  const AacAudio := Audio("aac", "96k", 44100, 2)

  /** `PRESETS`, as the program starts with it. */
  const Catalog: map<string, Preset> := map[
    "high_quality" := Preset(
      "高质量", "适合存档保存，轻微压缩，保持最佳画质", "🎥", "30%", "存档、专业用途、高质量需求",
      X264Video.(crf := 18), AacAudio.(bitrate := "128k"), [], "mp4"),
    "standard" := Preset(
      "标准质量", "平衡文件大小和画质，适合日常使用", "⚖️", "50%", "日常分享、网络传输、一般用途",
      X264Video, AacAudio, [], "mp4"),
    "high_compression" := Preset(
      "高压缩", "最小文件大小，适合存储空间有限的场景", "📱", "70%", "移动设备、网络传输、存储节约",
      X264Video.(crf := 28, preset := "slow"), AacAudio.(bitrate := "64k"), [], "mp4"),
    "web_optimized" := Preset(
      "网络优化", "针对网络播放优化，快速加载", "🌐", "60%", "网站视频、在线播放、流媒体",
      Video("libx264", 25, "fast", "baseline", "3.1", "yuv420p", Some("fastdecode")),
      AacAudio.(bitrate := "80k"), ["-movflags", "+faststart"], "mp4"),
    "custom" := Preset(
      "自定义", "完全自定义压缩参数", "🛠️", "可变", "专业用户、特殊需求",
      X264Video, AacAudio, [], "mp4")
  ]

  datatype ResolutionEntry = ResolutionEntry(name: string, width: Option<int>, height: Option<int>)
  datatype FramerateEntry = FramerateEntry(name: string, fps: Option<int>)

  /** `RESOLUTION_PRESETS`: "original" carries no dimensions. */
  const ResolutionPresets: map<string, ResolutionEntry> := map[
    "original" := ResolutionEntry("原始分辨率", None, None),
    "4k" := ResolutionEntry("4K (3840x2160)", Some(3840), Some(2160)),
    "1080p" := ResolutionEntry("1080p (1920x1080)", Some(1920), Some(1080)),
    "720p" := ResolutionEntry("720p (1280x720)", Some(1280), Some(720)),
    "480p" := ResolutionEntry("480p (854x480)", Some(854), Some(480)),
    "360p" := ResolutionEntry("360p (640x360)", Some(640), Some(360))
  ]

  /** `FRAMERATE_PRESETS`: "original" carries no rate. */
  const FrameratePresets: map<string, FramerateEntry> := map[
    "original" := FramerateEntry("原始帧率", None),
    "60" := FramerateEntry("60 FPS", Some(60)),
    "30" := FramerateEntry("30 FPS", Some(30)),
    "24" := FramerateEntry("24 FPS", Some(24)),
    "15" := FramerateEntry("15 FPS", Some(15))
  ]

  /** Only the "original" entries of the two tables leave the size or the
      rate unset. */
  lemma TableEntries(size: string, rate: string)
    requires size in ResolutionPresets && rate in FrameratePresets
    ensures var e := ResolutionPresets[size];
      (e.width.Some? && e.width.value != 0 && e.height.Some? && e.height.value != 0) <==> size != "original"
    ensures FramerateSet(FrameratePresets[rate].fps) <==> rate != "original"
  {
  }

  /** The catalog entry `get_preset` reads: the named one, else "standard". */
  function PresetKey(name: string): string {
    if name in Catalog then name else DefaultPreset
  }

  /** `get_preset(name)`: a shallow copy of the named entry or of "standard". */
  function GetPreset(name: string): (r: PresetCopy)
    ensures r.shares in Catalog
  {
    var key := PresetKey(name);
    var p := Catalog[key];
    PresetCopy(p.name, p.description, p.icon, p.compressionRatio, p.useCase, p.filters, p.outputFormat, key)
  }

  /** `get_preset_display_info(name)`, with the same fallback. */
  function GetPresetDisplayInfo(name: string): DisplayInfo {
    var p := Catalog[if name in Catalog then name else "standard"];
    DisplayInfo(p.name, p.description, p.icon, p.compressionRatio, p.useCase)
  }

  /** A known name gives its own entry; any other name gives exactly what
      "standard" gives, for both lookups. */
  lemma GetPresetFallback(name: string)
    ensures name in Catalog ==>
      (GetPreset(name).shares == name && GetPreset(name).name == Catalog[name].name
       && GetPreset(name).filters == Catalog[name].filters)
    ensures name !in Catalog ==>
      (GetPreset(name) == GetPreset(DefaultPreset)
       && GetPresetDisplayInfo(name) == GetPresetDisplayInfo(DefaultPreset))
    ensures var c := GetPreset(name); var d := GetPresetDisplayInfo(name);
      d == DisplayInfo(c.name, c.description, c.icon, c.compressionRatio, c.useCase)
  {
  }

  /** The keys a caller passes to `dict.update` on a `video` block: a
      `Some` field is a key present in the update. */
  datatype VideoUpdate = VideoUpdate(
    codec: Option<string>, crf: Option<int>, preset: Option<string>, profile: Option<string>,
    level: Option<string>, pixelFormat: Option<string>, tune: Option<Option<string>>)

  datatype AudioUpdate = AudioUpdate(
    codec: Option<string>, bitrate: Option<string>, sampleRate: Option<int>, channels: Option<int>)

  function Pick<T>(update: Option<T>, current: T): T {
    if update.Some? then update.value else current
  }

  /** `video.update(params)`. */
  function UpdateVideo(v: Video, u: VideoUpdate): Video {
    Video(Pick(u.codec, v.codec), Pick(u.crf, v.crf), Pick(u.preset, v.preset),
          Pick(u.profile, v.profile), Pick(u.level, v.level),
          Pick(u.pixelFormat, v.pixelFormat), Pick(u.tune, v.tune))
  }

  /** `audio.update(params)`. */
  function UpdateAudio(a: Audio, u: AudioUpdate): Audio {
    Audio(Pick(u.codec, a.codec), Pick(u.bitrate, a.bitrate),
          Pick(u.sampleRate, a.sampleRate), Pick(u.channels, a.channels))
  }

  /** `dict.update` applied twice is applied once, and an empty update
      leaves a block as it is. */
  lemma UpdateIdempotent(v: Video, u: VideoUpdate, a: Audio, w: AudioUpdate)
    ensures UpdateVideo(UpdateVideo(v, u), u) == UpdateVideo(v, u)
    ensures UpdateAudio(UpdateAudio(a, w), w) == UpdateAudio(a, w)
    ensures UpdateVideo(v, VideoUpdate(None, None, None, None, None, None, None)) == v
    ensures UpdateAudio(a, AudioUpdate(None, None, None, None)) == a
  {
  }

  /** The nested `video` and `audio` dictionaries of the `PRESETS`
      entries: the state every shallow copy of an entry shares. */
  class PresetStore {
    var video: map<string, Video>
    var audio: map<string, Audio>

    ghost predicate Valid()
      reads this
    {
      video.Keys == Catalog.Keys && audio.Keys == Catalog.Keys
    }

    constructor ()
      ensures Valid()
      ensures forall k :: k in Catalog ==> video[k] == Catalog[k].video && audio[k] == Catalog[k].audio
    {
      video := map k | k in Catalog :: Catalog[k].video;
      audio := map k | k in Catalog :: Catalog[k].audio;
    }

    /** What a shallow copy reads as now: its own top-level fields and the
        current contents of the blocks it shares. */
    function View(c: PresetCopy): (p: Preset)
      reads this
      requires Valid() && c.shares in Catalog
      ensures p.video == video[c.shares] && p.audio == audio[c.shares]
      ensures p.name == c.name && p.filters == c.filters && p.compressionRatio == c.compressionRatio
    {
      Preset(c.name, c.description, c.icon, c.compressionRatio, c.useCase,
             video[c.shares], audio[c.shares], c.filters, c.outputFormat)
    }

    /** `create_custom_preset`: the copy gets its own name and description,
        and the updates are written into the blocks the "custom" entry
        shares, so every later `get_preset("custom")` sees them too. */
    method CreateCustomPreset(name: string, videoParams: VideoUpdate, audioParams: AudioUpdate,
                              description: string := "自定义预设")
      returns (r: PresetCopy)
      requires Valid()
      modifies this
      ensures Valid()
      ensures video == old(video)["custom" := UpdateVideo(old(video)["custom"], videoParams)]
      ensures audio == old(audio)["custom" := UpdateAudio(old(audio)["custom"], audioParams)]
      ensures r == GetPreset("custom").(name := name, description := description)
      ensures View(r).video == View(GetPreset("custom")).video
      ensures View(r).audio == View(GetPreset("custom")).audio
    {
      r := GetPreset("custom");
      r := r.(name := name, description := description);
      video := video["custom" := UpdateVideo(video["custom"], videoParams)];
      audio := audio["custom" := UpdateAudio(audio["custom"], audioParams)];
    }
  }

  /** The loosely typed values a preset dictionary may hold. */
  datatype Value = VNone | VInt(i: int) | VStr(s: string) | VList(items: seq<Value>) | VDict(entries: map<string, Value>)

  /** Python's `key in container`; `None` is the `TypeError` raised when the
      container is neither a dict, a string nor a list. */
  function KeyIn(key: string, container: Value): Option<bool> {
    match container
    case VDict(m) => Some(key in m)
    case VStr(s) => Some(Contains(s, key))
    case VList(xs) => Some(VStr(key) in xs)
    case _ => None
  }

  /** `all(key in container for key in keys)`, which stops at the first
      `False` and propagates a `TypeError`. */
  function AllIn(keys: seq<string>, container: Value): Option<bool> {
    if keys == [] then Some(true)
    else match KeyIn(keys[0], container)
      case None => None
      case Some(false) => Some(false)
      case Some(true) => AllIn(keys[1..], container)
  }

  const PresetRequired := ["video", "audio", "output_format"]
  const VideoRequired := ["codec", "crf", "preset"]
  const AudioRequired := ["codec", "bitrate"]

  /** `validate_preset`; `None` is the `TypeError` raised when a block is
      not a container. */
  function ValidatePreset(p: map<string, Value>): Option<bool> {
    if !(forall k :: k in PresetRequired ==> k in p) then Some(false)
    else match AllIn(VideoRequired, p["video"])
      case None => None
      case Some(false) => Some(false)
      case Some(true) => AllIn(AudioRequired, p["audio"])
  }

  lemma {:induction false} AllInDict(keys: seq<string>, m: map<string, Value>)
    ensures AllIn(keys, VDict(m)) == Some(forall k :: k in keys ==> k in m)
  {
    if keys != [] {
      AllInDict(keys[1..], m);
    }
  }

  /** For a preset whose blocks are dictionaries, `validate_preset` holds
      exactly when the top-level, video and audio keys are all present. */
  lemma ValidateIff(p: map<string, Value>)
    requires "video" in p ==> p["video"].VDict?
    requires "audio" in p ==> p["audio"].VDict?
    ensures ValidatePreset(p) == Some(
      && (forall k :: k in PresetRequired ==> k in p)
      && (forall k :: k in VideoRequired ==> k in p["video"].entries)
      && (forall k :: k in AudioRequired ==> k in p["audio"].entries))
  {
    if forall k :: k in PresetRequired ==> k in p {
      AllInDict(VideoRequired, p["video"].entries);
      AllInDict(AudioRequired, p["audio"].entries);
    }
  }

  function OptStr(x: Option<string>): Value {
    if x.Some? then VStr(x.value) else VNone
  }

  /** A preset record as the dictionary the program stores. */
  function ToDict(p: Preset): map<string, Value> {
    map[
      "name" := VStr(p.name), "description" := VStr(p.description), "icon" := VStr(p.icon),
      "compression_ratio" := VStr(p.compressionRatio), "use_case" := VStr(p.useCase),
      "video" := VDict(map[
        "codec" := VStr(p.video.codec), "crf" := VInt(p.video.crf), "preset" := VStr(p.video.preset),
        "profile" := VStr(p.video.profile), "level" := VStr(p.video.level),
        "pixel_format" := VStr(p.video.pixelFormat), "tune" := OptStr(p.video.tune)]),
      "audio" := VDict(map[
        "codec" := VStr(p.audio.codec), "bitrate" := VStr(p.audio.bitrate),
        "sample_rate" := VInt(p.audio.sampleRate), "channels" := VInt(p.audio.channels)]),
      "filters" := VList(seq(|p.filters|, i requires 0 <= i < |p.filters| => VStr(p.filters[i]))),
      "output_format" := VStr(p.outputFormat)]
  }

  /** Every preset record, and so every catalog entry, validates; and
      only "web_optimized" has filters or a tune. */
  lemma CatalogValid(p: Preset, key: string)
    requires key in Catalog
    ensures ValidatePreset(ToDict(p)) == Some(true)
    ensures ValidatePreset(ToDict(Catalog[key])) == Some(true)
    ensures (Catalog[key].filters != []) <==> key == "web_optimized"
    ensures TuneSet(Catalog[key].video) <==> key == "web_optimized"
  {
    ValidateIff(ToDict(p));
    ValidateIff(ToDict(Catalog[key]));
  }

  /** One element of an argument list, tagged with the role it plays:
      an option name, an option's value, a preset filter passed through
      verbatim, or a positional path. */
  datatype Token = Flag(text: string) | Arg(text: string) | Raw(text: string) | Target(text: string)

  /** The strings handed to the process. */
  function Render(ts: seq<Token>): (r: seq<string>)
    ensures |r| == |ts| && forall i :: 0 <= i < |ts| ==> r[i] == ts[i].text
  {
    seq(|ts|, i requires 0 <= i < |ts| => ts[i].text)
  }

  /** The option names of a token list, in order. */
  function FlagNames(ts: seq<Token>): seq<string> {
    if ts == [] then [] else (if ts[0].Flag? then [ts[0].text] else []) + FlagNames(ts[1..])
  }

  lemma {:induction false} FlagNamesConcat(a: seq<Token>, b: seq<Token>)
    ensures FlagNames(a + b) == FlagNames(a) + FlagNames(b)
  {
    if a == [] {
      assert a + b == b;
    } else {
      assert (a + b)[0] == a[0];
      assert (a + b)[1..] == a[1..] + b;
      FlagNamesConcat(a[1..], b);
    }
  }

  lemma OptFlags(flag: string, value: string)
    ensures FlagNames(Opt(flag, value)) == [flag]
  {
    PairFlags(flag, Arg(value));
  }

  lemma PairFlags(flag: string, second: Token)
    requires !second.Flag?
    ensures FlagNames([Flag(flag), second]) == [flag]
  {
    var ts := [Flag(flag), second];
    var last := [second];
    assert last[1..] == [];
    assert FlagNames(last) == [] + FlagNames([]);
    assert ts[1..] == last;
    assert FlagNames(ts) == [flag] + FlagNames(last);
  }

  lemma WhenFlags(cond: bool, flag: string, value: string)
    ensures FlagNames(When(cond, Opt(flag, value))) == Named(cond, flag)
  {
    OptFlags(flag, value);
  }

  function Opt(flag: string, value: string): seq<Token> {
    [Flag(flag), Arg(value)]
  }

  function When(cond: bool, ts: seq<Token>): seq<Token> {
    if cond then ts else []
  }

  predicate TuneSet(v: Video) { v.tune.Some? && v.tune.value != "" }

  /** The concatenation of a list of pieces. */
  function Flatten<T>(xs: seq<seq<T>>): seq<T> {
    if xs == [] then [] else xs[0] + Flatten(xs[1..])
  }

  lemma FlattenAt<T>(xs: seq<seq<T>>, i: nat)
    requires i < |xs|
    ensures Flatten(xs[i..]) == xs[i] + Flatten(xs[i + 1..])
  {
    assert xs[i..][1..] == xs[i + 1..];
  }

  lemma {:induction false} FlagNamesFlatten(pieces: seq<seq<Token>>, names: seq<seq<string>>)
    requires |pieces| == |names|
    requires forall i :: 0 <= i < |pieces| ==> FlagNames(pieces[i]) == names[i]
    ensures FlagNames(Flatten(pieces)) == Flatten(names)
  {
    if pieces != [] {
      FlagNamesFlatten(pieces[1..], names[1..]);
      FlagNamesConcat(pieces[0], Flatten(pieces[1..]));
    }
  }

  function TuneText(v: Video): string {
    if v.tune.Some? then v.tune.value else ""
  }

  function VideoPieces(v: Video): seq<seq<Token>> {
    [Opt("-c:v", v.codec), Opt("-crf", IntToString(v.crf)), Opt("-preset", v.preset),
     When(v.profile != "", Opt("-profile:v", v.profile)),
     When(v.level != "", Opt("-level", v.level)),
     When(v.pixelFormat != "", Opt("-pix_fmt", v.pixelFormat)),
     When(TuneSet(v), Opt("-tune", TuneText(v)))]
  }

  /** The video block: codec, quality and speed always; profile, level,
      pixel format and tune each only when truthy. */
  function VideoTokens(v: Video): (ts: seq<Token>)
    ensures |ts| >= 6
  {
    var ps := VideoPieces(v);
    FlattenAt(ps, 0);
    FlattenAt(ps, 1);
    FlattenAt(ps, 2);
    Flatten(ps)
  }

  predicate ResolutionSet(res: Option<(int, int)>) {
    res.Some? && res.value.0 != 0 && res.value.1 != 0
  }

  function SizeText(w: int, h: int): string {
    IntToString(w) + "x" + IntToString(h)
  }

  function ResolutionTokens(res: Option<(int, int)>): seq<Token> {
    if ResolutionSet(res) then Opt("-s", SizeText(res.value.0, res.value.1)) else []
  }

  predicate FramerateSet(fps: Option<int>) { fps.Some? && fps.value != 0 }

  function FramerateTokens(fps: Option<int>): seq<Token> {
    if FramerateSet(fps) then Opt("-r", IntToString(fps.value)) else []
  }

  function AudioPieces(a: Audio): seq<seq<Token>> {
    [Opt("-c:a", a.codec), Opt("-b:a", a.bitrate),
     When(a.sampleRate != 0, Opt("-ar", IntToString(a.sampleRate))),
     When(a.channels != 0, Opt("-ac", IntToString(a.channels)))]
  }

  /** Either the audio block (codec, bitrate, then rate and channels when
      truthy) or the single "no audio" flag. */
  function AudioTokens(a: Audio, keepAudio: bool): (ts: seq<Token>)
    ensures |ts| >= 1 && ts[0] == (if keepAudio then Flag("-c:a") else Flag("-an"))
  {
    if keepAudio then
      var ps := AudioPieces(a);
      FlattenAt(ps, 0);
      Flatten(ps)
    else [Flag("-an")]
  }

  function FilterTokens(filters: seq<string>): (ts: seq<Token>)
    ensures |ts| == |filters| && forall i :: 0 <= i < |ts| ==> ts[i] == Raw(filters[i])
  {
    seq(|filters|, i requires 0 <= i < |filters| => Raw(filters[i]))
  }

  /** Everything before the preset filters: input, video block, size,
      rate and the audio section. */
  function LeadTokens(p: Preset, inputFile: string, keepAudio: bool,
                      resolution: Option<(int, int)>, framerate: Option<int>): (ts: seq<Token>)
    ensures |ts| >= 9 && ts[..2] == Opt("-i", inputFile)
  {
    var ps := LeadPieces(p, inputFile, keepAudio, resolution, framerate);
    FlattenFive(ps);
    Flatten(ps)
  }

  function LeadPieces(p: Preset, inputFile: string, keepAudio: bool,
                      resolution: Option<(int, int)>, framerate: Option<int>): seq<seq<Token>>
  {
    [Opt("-i", inputFile), VideoTokens(p.video), ResolutionTokens(resolution),
     FramerateTokens(framerate), AudioTokens(p.audio, keepAudio)]
  }

  /** `get_ffmpeg_args`, with the role of every element kept. */
  function ArgTokens(p: Preset, inputFile: string, outputFile: string, keepAudio: bool,
                     resolution: Option<(int, int)>, framerate: Option<int>): seq<Token>
  {
    LeadTokens(p, inputFile, keepAudio, resolution, framerate) + FilterTokens(p.filters)
    + [Flag("-y"), Target(outputFile)]
  }

  /** `get_ffmpeg_args(preset, input_file, output_file, keep_audio,
      custom_resolution, custom_framerate)`. */
  function GetFfmpegArgs(p: Preset, inputFile: string, outputFile: string, keepAudio: bool,
                         resolution: Option<(int, int)>, framerate: Option<int>): seq<string>
  {
    Render(ArgTokens(p, inputFile, outputFile, keepAudio, resolution, framerate))
  }

  function Named(cond: bool, flag: string): seq<string> {
    if cond then [flag] else []
  }

  /** The documented order of the video options. */
  function VideoFlags(v: Video): seq<string> {
    Flatten([["-c:v"], ["-crf"], ["-preset"], Named(v.profile != "", "-profile:v"),
             Named(v.level != "", "-level"), Named(v.pixelFormat != "", "-pix_fmt"), Named(TuneSet(v), "-tune")])
  }

  /** The documented order of the audio options. */
  function AudioFlags(a: Audio, keepAudio: bool): seq<string> {
    if keepAudio then Flatten([["-c:a"], ["-b:a"], Named(a.sampleRate != 0, "-ar"), Named(a.channels != 0, "-ac")])
    else ["-an"]
  }

  lemma VideoTokenFlags(v: Video)
    ensures FlagNames(VideoTokens(v)) == VideoFlags(v)
  {
    var ps := VideoPieces(v);
    var names := [["-c:v"], ["-crf"], ["-preset"], Named(v.profile != "", "-profile:v"),
      Named(v.level != "", "-level"), Named(v.pixelFormat != "", "-pix_fmt"), Named(TuneSet(v), "-tune")];
    assert FlagNames(ps[0]) == names[0] by { OptFlags("-c:v", v.codec); }
    assert FlagNames(ps[1]) == names[1] by { OptFlags("-crf", IntToString(v.crf)); }
    assert FlagNames(ps[2]) == names[2] by { OptFlags("-preset", v.preset); }
    assert FlagNames(ps[3]) == names[3] by { WhenFlags(v.profile != "", "-profile:v", v.profile); }
    assert FlagNames(ps[4]) == names[4] by { WhenFlags(v.level != "", "-level", v.level); }
    assert FlagNames(ps[5]) == names[5] by { WhenFlags(v.pixelFormat != "", "-pix_fmt", v.pixelFormat); }
    assert FlagNames(ps[6]) == names[6] by { WhenFlags(TuneSet(v), "-tune", TuneText(v)); }
    FlagNamesFlatten(VideoPieces(v), names);
  }

  lemma FlattenSeven<T>(xs: seq<seq<T>>)
    requires |xs| == 7
    ensures Flatten(xs) == xs[0] + xs[1] + xs[2] + xs[3] + xs[4] + xs[5] + xs[6]
  {
    FlattenFour(xs[3..]);
    FlattenAt(xs, 0);
    FlattenAt(xs, 1);
    FlattenAt(xs, 2);
  }

  lemma FlattenFour<T>(xs: seq<seq<T>>)
    requires |xs| == 4
    ensures Flatten(xs) == xs[0] + xs[1] + xs[2] + xs[3]
  {
    FlattenAt(xs, 0);
    FlattenAt(xs, 1);
    FlattenAt(xs, 2);
    FlattenAt(xs, 3);
    assert xs[4..] == [];
  }

  lemma AudioTokenFlags(a: Audio, keepAudio: bool)
    ensures FlagNames(AudioTokens(a, keepAudio)) == AudioFlags(a, keepAudio)
  {
    if keepAudio {
      OptFlags("-c:a", a.codec);
      OptFlags("-b:a", a.bitrate);
      WhenFlags(a.sampleRate != 0, "-ar", IntToString(a.sampleRate));
      WhenFlags(a.channels != 0, "-ac", IntToString(a.channels));
      var names := [["-c:a"], ["-b:a"], Named(a.sampleRate != 0, "-ar"), Named(a.channels != 0, "-ac")];
      FlagNamesFlatten(AudioPieces(a), names);
    } else {
      assert [Flag("-an")][1..] == [];
    }
  }

  lemma {:induction false} FilterTokensNoFlags(filters: seq<string>)
    ensures FlagNames(FilterTokens(filters)) == []
    decreases |filters|
  {
    if filters != [] {
      assert FilterTokens(filters)[1..] == FilterTokens(filters[1..]);
      FilterTokensNoFlags(filters[1..]);
    }
  }

  lemma LeadFlags(p: Preset, inputFile: string, keepAudio: bool,
                  resolution: Option<(int, int)>, framerate: Option<int>)
    ensures FlagNames(LeadTokens(p, inputFile, keepAudio, resolution, framerate))
      == ["-i"] + VideoFlags(p.video) + Named(ResolutionSet(resolution), "-s")
         + Named(FramerateSet(framerate), "-r") + AudioFlags(p.audio, keepAudio)
  {
    var names := LeadNames(p, keepAudio, resolution, framerate);
    LeadPieceFlags(p, inputFile, keepAudio, resolution, framerate);
    FlagNamesFlatten(LeadPieces(p, inputFile, keepAudio, resolution, framerate), names);
    FlattenFive(names);
  }

  /** Each piece has the option names listed for it. */
  predicate Piecewise(pieces: seq<seq<Token>>, names: seq<seq<string>>) {
    |pieces| == |names| && forall i :: 0 <= i < |pieces| ==> FlagNames(pieces[i]) == names[i]
  }

  /** The option names of each piece before the filters. */
  function LeadNames(p: Preset, keepAudio: bool, resolution: Option<(int, int)>, framerate: Option<int>)
    : seq<seq<string>>
  {
    [["-i"], VideoFlags(p.video), Named(ResolutionSet(resolution), "-s"),
     Named(FramerateSet(framerate), "-r"), AudioFlags(p.audio, keepAudio)]
  }

  lemma LeadPieceFlags(p: Preset, inputFile: string, keepAudio: bool,
                       resolution: Option<(int, int)>, framerate: Option<int>)
    ensures Piecewise(LeadPieces(p, inputFile, keepAudio, resolution, framerate),
                      LeadNames(p, keepAudio, resolution, framerate))
  {
    var ps := LeadPieces(p, inputFile, keepAudio, resolution, framerate);
    var names := LeadNames(p, keepAudio, resolution, framerate);
    assert FlagNames(ps[0]) == names[0] by { OptFlags("-i", inputFile); }
    assert FlagNames(ps[1]) == names[1] by { VideoTokenFlags(p.video); }
    assert FlagNames(ps[2]) == names[2] by { ResolutionFlags(resolution); }
    assert FlagNames(ps[3]) == names[3] by { FramerateFlags(framerate); }
    assert FlagNames(ps[4]) == names[4] by { AudioTokenFlags(p.audio, keepAudio); }
  }

  lemma ResolutionFlags(res: Option<(int, int)>)
    ensures FlagNames(ResolutionTokens(res)) == Named(ResolutionSet(res), "-s")
  {
    if ResolutionSet(res) {
      OptFlags("-s", SizeText(res.value.0, res.value.1));
    }
  }

  lemma FramerateFlags(fps: Option<int>)
    ensures FlagNames(FramerateTokens(fps)) == Named(FramerateSet(fps), "-r")
  {
    if FramerateSet(fps) {
      OptFlags("-r", IntToString(fps.value));
    }
  }

  lemma FlattenFive<T>(xs: seq<seq<T>>)
    requires |xs| == 5
    ensures Flatten(xs) == xs[0] + xs[1] + xs[2] + xs[3] + xs[4]
  {
    FlattenFour(xs[1..]);
    FlattenAt(xs, 0);
  }

  /** The options appear in exactly this order: input, the video block,
      the size and the rate when given, the audio block or "-an", and the
      overwrite flag; preset filters contribute no option of their own. */
  lemma ArgFlags(p: Preset, inputFile: string, outputFile: string, keepAudio: bool,
                 resolution: Option<(int, int)>, framerate: Option<int>)
    ensures FlagNames(ArgTokens(p, inputFile, outputFile, keepAudio, resolution, framerate))
      == ["-i"] + VideoFlags(p.video) + Named(ResolutionSet(resolution), "-s")
         + Named(FramerateSet(framerate), "-r") + AudioFlags(p.audio, keepAudio) + ["-y"]
  {
    var lead := LeadTokens(p, inputFile, keepAudio, resolution, framerate);
    var f := FilterTokens(p.filters);
    var g := [Flag("-y"), Target(outputFile)];
    LeadFlags(p, inputFile, keepAudio, resolution, framerate);
    FilterTokensNoFlags(p.filters);
    FlagNamesConcat(lead, f);
    FlagNamesConcat(lead + f, g);
    PairFlags("-y", Target(outputFile));
  }

  lemma NamedCountAt(cond: bool, flag: string, x: string)
    ensures multiset(Named(cond, flag))[x] == Indicator(x == flag && cond)
  {
  }

  lemma PairCount(a: string, b: string, x: string)
    ensures multiset{a, b}[x] == Indicator(x == a) + Indicator(x == b)
  {
    assert multiset{a, b} == multiset{a} + multiset{b};
  }

  lemma TripleCount(a: string, b: string, c: string, x: string)
    ensures multiset{a, b, c}[x] == Indicator(x == a) + Indicator(x == b) + Indicator(x == c)
  {
    assert multiset{a, b, c} == multiset{a} + multiset{b} + multiset{c};
  }

  /** The option names of a video block, counted. */
  lemma VideoFlagCount(v: Video)
    ensures multiset(VideoFlags(v)) == multiset{"-c:v", "-crf", "-preset"}
      + multiset(Named(v.profile != "", "-profile:v")) + multiset(Named(v.level != "", "-level"))
      + multiset(Named(v.pixelFormat != "", "-pix_fmt")) + multiset(Named(TuneSet(v), "-tune"))
  {
    var x0, x1, x2, x3, x4, x5, x6 := ["-c:v"], ["-crf"], ["-preset"], Named(v.profile != "", "-profile:v"),
      Named(v.level != "", "-level"), Named(v.pixelFormat != "", "-pix_fmt"), Named(TuneSet(v), "-tune");
    FlattenSeven([x0, x1, x2, x3, x4, x5, x6]);
    assert VideoFlags(v) == x0 + x1 + x2 + x3 + x4 + x5 + x6;
    assert multiset(x0 + x1 + x2) == multiset{"-c:v", "-crf", "-preset"};
  }

  /** The option names of an audio section, counted. */
  lemma AudioFlagCount(a: Audio, keepAudio: bool)
    ensures multiset(AudioFlags(a, keepAudio)) == if keepAudio then multiset{"-c:a", "-b:a"}
      + multiset(Named(a.sampleRate != 0, "-ar")) + multiset(Named(a.channels != 0, "-ac"))
      else multiset{"-an"}
  {
    if keepAudio {
      var x0, x1, x2, x3 := ["-c:a"], ["-b:a"], Named(a.sampleRate != 0, "-ar"), Named(a.channels != 0, "-ac");
      FlattenFour([x0, x1, x2, x3]);
      assert AudioFlags(a, keepAudio) == x0 + x1 + x2 + x3;
      assert multiset(x0 + x1) == multiset{"-c:a", "-b:a"};
    }
  }

  lemma ArgFlagMultiset(p: Preset, inputFile: string, outputFile: string, keepAudio: bool,
                        resolution: Option<(int, int)>, framerate: Option<int>)
    ensures multiset(FlagNames(ArgTokens(p, inputFile, outputFile, keepAudio, resolution, framerate)))
      == multiset{"-i", "-y"} + multiset(VideoFlags(p.video)) + multiset(Named(ResolutionSet(resolution), "-s"))
         + multiset(Named(FramerateSet(framerate), "-r")) + multiset(AudioFlags(p.audio, keepAudio))
  {
    ArgFlags(p, inputFile, outputFile, keepAudio, resolution, framerate);
    MultisetOfSections(FlagNames(ArgTokens(p, inputFile, outputFile, keepAudio, resolution, framerate)),
      VideoFlags(p.video), Named(ResolutionSet(resolution), "-s"),
      Named(FramerateSet(framerate), "-r"), AudioFlags(p.audio, keepAudio));
  }

  lemma MultisetOfSections(names: seq<string>, v: seq<string>, s: seq<string>, r: seq<string>, a: seq<string>)
    requires names == ["-i"] + v + s + r + a + ["-y"]
    ensures multiset(names) == multiset{"-i", "-y"} + multiset(v) + multiset(s) + multiset(r) + multiset(a)
  {
  }

  function Indicator(b: bool): nat { if b then 1 else 0 }

  lemma VideoFlagCountAt(v: Video, x: string)
    ensures multiset(VideoFlags(v))[x] == Indicator(x == "-c:v") + Indicator(x == "-crf") + Indicator(x == "-preset")
      + Indicator(x == "-profile:v" && v.profile != "") + Indicator(x == "-level" && v.level != "")
      + Indicator(x == "-pix_fmt" && v.pixelFormat != "") + Indicator(x == "-tune" && TuneSet(v))
  {
    VideoFlagCount(v);
    TripleCount("-c:v", "-crf", "-preset", x);
    NamedCountAt(v.profile != "", "-profile:v", x);
    NamedCountAt(v.level != "", "-level", x);
    NamedCountAt(v.pixelFormat != "", "-pix_fmt", x);
    NamedCountAt(TuneSet(v), "-tune", x);
  }

  lemma AudioFlagCountAt(a: Audio, keepAudio: bool, x: string)
    ensures multiset(AudioFlags(a, keepAudio))[x] == if keepAudio then
      Indicator(x == "-c:a") + Indicator(x == "-b:a")
      + Indicator(x == "-ar" && a.sampleRate != 0) + Indicator(x == "-ac" && a.channels != 0)
      else Indicator(x == "-an")
  {
    AudioFlagCount(a, keepAudio);
    PairCount("-c:a", "-b:a", x);
    NamedCountAt(a.sampleRate != 0, "-ar", x);
    NamedCountAt(a.channels != 0, "-ac", x);
  }

  /** How often option `x` occurs in the arguments, section by section. */
  lemma ArgFlagCountAt(p: Preset, inputFile: string, outputFile: string, keepAudio: bool,
                       resolution: Option<(int, int)>, framerate: Option<int>, x: string)
    ensures multiset(FlagNames(ArgTokens(p, inputFile, outputFile, keepAudio, resolution, framerate)))[x]
      == Indicator(x == "-i") + Indicator(x == "-y") + multiset(VideoFlags(p.video))[x]
         + Indicator(x == "-s" && ResolutionSet(resolution)) + Indicator(x == "-r" && FramerateSet(framerate))
         + multiset(AudioFlags(p.audio, keepAudio))[x]
  {
    ArgFlagMultiset(p, inputFile, outputFile, keepAudio, resolution, framerate);
    PairCount("-i", "-y", x);
    NamedCountAt(ResolutionSet(resolution), "-s", x);
    NamedCountAt(FramerateSet(framerate), "-r", x);
  }

  /** The audio decision is exclusive and exhaustive: with audio kept the
      arguments hold one "-c:a" and one "-b:a" and no "-an"; otherwise
      exactly one "-an" and neither of the others. */
  lemma AudioOptionsExclusive(p: Preset, inputFile: string, outputFile: string, keepAudio: bool,
                              resolution: Option<(int, int)>, framerate: Option<int>)
    ensures var names := multiset(FlagNames(ArgTokens(p, inputFile, outputFile, keepAudio, resolution, framerate)));
      && names["-an"] == (if keepAudio then 0 else 1)
      && names["-c:a"] == (if keepAudio then 1 else 0)
      && names["-b:a"] == (if keepAudio then 1 else 0)
  {
    AudioCount(p, inputFile, outputFile, keepAudio, resolution, framerate, "-an");
    AudioCount(p, inputFile, outputFile, keepAudio, resolution, framerate, "-c:a");
    AudioCount(p, inputFile, outputFile, keepAudio, resolution, framerate, "-b:a");
  }

  lemma AudioCount(p: Preset, inputFile: string, outputFile: string, keepAudio: bool,
                   resolution: Option<(int, int)>, framerate: Option<int>, x: string)
    requires x == "-an" || x == "-c:a" || x == "-b:a"
    ensures multiset(FlagNames(ArgTokens(p, inputFile, outputFile, keepAudio, resolution, framerate)))[x]
      == if keepAudio then Indicator(x != "-an") else Indicator(x == "-an")
  {
    ArgFlagCountAt(p, inputFile, outputFile, keepAudio, resolution, framerate, x);
    VideoFlagCountAt(p.video, x);
    AudioFlagCountAt(p.audio, keepAudio, x);
  }

  /** The tune, size and rate options appear exactly once when their
      values are truthy and not at all otherwise; the input and the
      overwrite flag appear exactly once. */
  lemma OptionalOptionsPresent(p: Preset, inputFile: string, outputFile: string, keepAudio: bool,
                               resolution: Option<(int, int)>, framerate: Option<int>)
    ensures var names := multiset(FlagNames(ArgTokens(p, inputFile, outputFile, keepAudio, resolution, framerate)));
      && names["-tune"] == (if TuneSet(p.video) then 1 else 0)
      && names["-s"] == (if ResolutionSet(resolution) then 1 else 0)
      && names["-r"] == (if FramerateSet(framerate) then 1 else 0)
      && names["-i"] == 1 && names["-y"] == 1
  {
    OptionalCount(p, inputFile, outputFile, keepAudio, resolution, framerate, "-tune");
    OptionalCount(p, inputFile, outputFile, keepAudio, resolution, framerate, "-s");
    OptionalCount(p, inputFile, outputFile, keepAudio, resolution, framerate, "-r");
    OptionalCount(p, inputFile, outputFile, keepAudio, resolution, framerate, "-i");
    OptionalCount(p, inputFile, outputFile, keepAudio, resolution, framerate, "-y");
  }

  lemma OptionalCount(p: Preset, inputFile: string, outputFile: string, keepAudio: bool,
                      resolution: Option<(int, int)>, framerate: Option<int>, x: string)
    requires x == "-tune" || x == "-s" || x == "-r" || x == "-i" || x == "-y"
    ensures multiset(FlagNames(ArgTokens(p, inputFile, outputFile, keepAudio, resolution, framerate)))[x]
      == Indicator(x == "-i") + Indicator(x == "-y") + Indicator(x == "-tune" && TuneSet(p.video))
         + Indicator(x == "-s" && ResolutionSet(resolution)) + Indicator(x == "-r" && FramerateSet(framerate))
  {
    ArgFlagCountAt(p, inputFile, outputFile, keepAudio, resolution, framerate, x);
    VideoFlagCountAt(p.video, x);
    AudioFlagCountAt(p.audio, keepAudio, x);
  }

  /** The list starts with the input and ends with "-y" and the output,
      and the preset's filters sit verbatim, in order, just before "-y". */
  lemma ArgsFrame(p: Preset, inputFile: string, outputFile: string, keepAudio: bool,
                  resolution: Option<(int, int)>, framerate: Option<int>)
    ensures Opens(GetFfmpegArgs(p, inputFile, outputFile, keepAudio, resolution, framerate),
                  inputFile, outputFile, p.filters)
  {
    var ts := ArgTokens(p, inputFile, outputFile, keepAudio, resolution, framerate);
    ArgTokensFrame(p, inputFile, outputFile, keepAudio, resolution, framerate);
    RenderFramed(ts, inputFile, outputFile, p.filters);
  }

  /** An argument list opens with "-i" and the input, closes with "-y" and
      the output, and has the preset filters just before that. */
  predicate Opens(args: seq<string>, inputFile: string, outputFile: string, filters: seq<string>) {
    && |args| >= 11 + |filters|
    && args[..2] == ["-i", inputFile]
    && args[|args| - 2..] == ["-y", outputFile]
    && args[|args| - 2 - |filters|..|args| - 2] == filters
  }

  /** What a framed token list renders to. */
  lemma RenderFramed(ts: seq<Token>, inputFile: string, outputFile: string, filters: seq<string>)
    requires Framed(ts, inputFile, outputFile, filters)
    ensures Opens(Render(ts), inputFile, outputFile, filters)
  {
    var args := Render(ts);
    var n := |ts|;
    var m := |filters|;
    assert args[..2] == ["-i", inputFile];
    assert args[n - 2..] == ["-y", outputFile];
    forall i | 0 <= i < m
      ensures args[n - 2 - m..n - 2][i] == filters[i]
    {
      assert ts[n - 2 - m + i] == Raw(filters[i]);
    }
  }

  /** A token list opens with the input, closes with "-y" and the output,
      and has the preset filters just before that. */
  predicate Framed(ts: seq<Token>, inputFile: string, outputFile: string, filters: seq<string>) {
    var n := |ts|;
    && n >= 11 + |filters|
    && ts[0] == Flag("-i") && ts[1] == Arg(inputFile)
    && ts[n - 2] == Flag("-y") && ts[n - 1] == Target(outputFile)
    && forall i :: 0 <= i < |filters| ==> ts[n - 2 - |filters| + i] == Raw(filters[i])
  }

  /** The same, on the tokens. */
  lemma ArgTokensFrame(p: Preset, inputFile: string, outputFile: string, keepAudio: bool,
                       resolution: Option<(int, int)>, framerate: Option<int>)
    ensures Framed(ArgTokens(p, inputFile, outputFile, keepAudio, resolution, framerate),
                   inputFile, outputFile, p.filters)
  {
    var lead := LeadTokens(p, inputFile, keepAudio, resolution, framerate);
    assert lead[0] == lead[..2][0] && lead[1] == lead[..2][1];
    FramedConcat(lead, inputFile, outputFile, p.filters);
  }

  lemma FramedConcat(lead: seq<Token>, inputFile: string, outputFile: string, filters: seq<string>)
    requires |lead| >= 9 && lead[0] == Flag("-i") && lead[1] == Arg(inputFile)
    ensures Framed(lead + FilterTokens(filters) + [Flag("-y"), Target(outputFile)], inputFile, outputFile, filters)
  {
    var f := FilterTokens(filters);
    var body := lead + f;
    var ts := body + [Flag("-y"), Target(outputFile)];
    var n := |ts|;
    assert n == |lead| + |filters| + 2;
    assert ts[0] == body[0] == lead[0] && ts[1] == body[1] == lead[1];
    assert ts[n - 2] == Flag("-y") && ts[n - 1] == Target(outputFile);
    forall i | 0 <= i < |filters|
      ensures ts[n - 2 - |filters| + i] == Raw(filters[i])
    {
      assert ts[|lead| + i] == body[|lead| + i] == f[i];
    }
  }

  /** The size and rate options, when present, carry "WxH" and the rate
      and come after the whole video block and before the audio section. */
  lemma ResolutionAndRateValues(p: Preset, inputFile: string, outputFile: string, keepAudio: bool,
                                w: int, h: int, fps: int)
    requires w != 0 && h != 0 && fps != 0
    ensures PlacedAt(GetFfmpegArgs(p, inputFile, outputFile, keepAudio, Some((w, h)), Some(fps)),
                     2 + |VideoTokens(p.video)|,
                     ["-s", SizeText(w, h), "-r", IntToString(fps)],
                     if keepAudio then "-c:a" else "-an")
  {
    var ts := ArgTokens(p, inputFile, outputFile, keepAudio, Some((w, h)), Some(fps));
    var k := 2 + |VideoTokens(p.video)|;
    var mid := Opt("-s", SizeText(w, h)) + Opt("-r", IntToString(fps));
    var next := if keepAudio then Flag("-c:a") else Flag("-an");
    assert PlacedAt(ts, k, mid, next) by {
      SizeRateTokens(p, inputFile, outputFile, keepAudio, w, h, fps);
    }
    assert PlacedAt(Render(ts), k, Render(mid), next.text) by {
      RenderPlaced(ts, k, mid, next);
    }
    assert Render(mid) == ["-s", SizeText(w, h), "-r", IntToString(fps)];
    assert GetFfmpegArgs(p, inputFile, outputFile, keepAudio, Some((w, h)), Some(fps)) == Render(ts);
  }

  /** `mid` sits at `k` and `next` right after it. */
  predicate PlacedAt<T(==)>(ts: seq<T>, k: nat, mid: seq<T>, next: T) {
    |ts| > k + |mid| && ts[k..k + |mid|] == mid && ts[k + |mid|] == next
  }

  lemma RenderPlaced(ts: seq<Token>, k: nat, mid: seq<Token>, next: Token)
    requires PlacedAt(ts, k, mid, next)
    ensures PlacedAt(Render(ts), k, Render(mid), next.text)
  {
    assert Render(ts)[k..k + |mid|] == Render(ts[k..k + |mid|]);
  }

  /** The same, on the tokens. */
  lemma SizeRateTokens(p: Preset, inputFile: string, outputFile: string, keepAudio: bool,
                       w: int, h: int, fps: int)
    requires w != 0 && h != 0 && fps != 0
    ensures PlacedAt(ArgTokens(p, inputFile, outputFile, keepAudio, Some((w, h)), Some(fps)),
                     2 + |VideoTokens(p.video)|,
                     Opt("-s", SizeText(w, h)) + Opt("-r", IntToString(fps)),
                     if keepAudio then Flag("-c:a") else Flag("-an"))
  {
    var ts := ArgTokens(p, inputFile, outputFile, keepAudio, Some((w, h)), Some(fps));
    var head := Opt("-i", inputFile) + VideoTokens(p.video);
    var mid := Opt("-s", SizeText(w, h)) + Opt("-r", IntToString(fps));
    var au := AudioTokens(p.audio, keepAudio);
    var rest := FilterTokens(p.filters) + [Flag("-y"), Target(outputFile)];
    FlattenFive(LeadPieces(p, inputFile, keepAudio, Some((w, h)), Some(fps)));
    assert LeadTokens(p, inputFile, keepAudio, Some((w, h)), Some(fps)) == head + mid + au;
    assert ts == head + mid + (au + rest);
    PlacedBetween(head, mid, au + rest);
  }

  lemma PlacedBetween(head: seq<Token>, mid: seq<Token>, tail: seq<Token>)
    requires tail != []
    ensures PlacedAt(head + mid + tail, |head|, mid, tail[0])
  {
    var ts := head + mid + tail;
    assert ts[|head|..|head| + |mid|] == mid;
  }

  /** The audio section as handed to ffmpeg: "-c:a codec -b:a bitrate",
      then "-ar rate" and "-ac channels" when truthy, or "-an" alone. */
  lemma AudioBlock(a: Audio, keepAudio: bool)
    ensures keepAudio ==>
      Render(AudioTokens(a, keepAudio))
        == ["-c:a", a.codec, "-b:a", a.bitrate]
           + (if a.sampleRate != 0 then ["-ar", IntToString(a.sampleRate)] else [])
           + (if a.channels != 0 then ["-ac", IntToString(a.channels)] else [])
    ensures !keepAudio ==> Render(AudioTokens(a, keepAudio)) == ["-an"]
  {
    if keepAudio {
      var ps := AudioPieces(a);
      FlattenFour(ps);
      assert Render(ps[0] + ps[1] + ps[2] + ps[3])
        == Render(ps[0]) + Render(ps[1]) + Render(ps[2]) + Render(ps[3]);
    }
  }

  /** `mid` fills `ts` from `k` on, and exactly `after` elements follow it. */
  predicate Spans<T(==)>(ts: seq<T>, k: nat, mid: seq<T>, after: nat) {
    |ts| == k + |mid| + after && ts[k..k + |mid|] == mid
  }

  /** The audio section comes right after the video block and the size and
      rate options (two elements each when given), and right before the
      preset filters, "-y" and the output. */
  lemma AudioPlacement(p: Preset, inputFile: string, outputFile: string, keepAudio: bool,
                       resolution: Option<(int, int)>, framerate: Option<int>)
    ensures Spans(GetFfmpegArgs(p, inputFile, outputFile, keepAudio, resolution, framerate),
                  2 + |VideoTokens(p.video)| + |ResolutionTokens(resolution)| + |FramerateTokens(framerate)|,
                  Render(AudioTokens(p.audio, keepAudio)),
                  |p.filters| + 2)
    ensures |ResolutionTokens(resolution)| == if ResolutionSet(resolution) then 2 else 0
    ensures |FramerateTokens(framerate)| == if FramerateSet(framerate) then 2 else 0
  {
    var head := Opt("-i", inputFile) + VideoTokens(p.video) + ResolutionTokens(resolution)
                + FramerateTokens(framerate);
    var tail := FilterTokens(p.filters) + [Flag("-y"), Target(outputFile)];
    ArgTokensSplit(p, inputFile, outputFile, keepAudio, resolution, framerate);
    RenderedSpans(GetFfmpegArgs(p, inputFile, outputFile, keepAudio, resolution, framerate),
                  ArgTokens(p, inputFile, outputFile, keepAudio, resolution, framerate),
                  head, AudioTokens(p.audio, keepAudio), tail,
                  2 + |VideoTokens(p.video)| + |ResolutionTokens(resolution)| + |FramerateTokens(framerate)|,
                  |p.filters| + 2);
  }

  /** `RenderSpans` for a rendered list known by another name. */
  lemma RenderedSpans(args: seq<string>, ts: seq<Token>, head: seq<Token>, mid: seq<Token>,
                      tail: seq<Token>, k: nat, after: nat)
    requires args == Render(ts) && ts == head + mid + tail && k == |head| && after == |tail|
    ensures Spans(args, k, Render(mid), after)
  {
    RenderSpans(head, mid, tail);
  }

/** The argument list in three parts: everything before the audio
      section, the audio section, and the filters with "-y" and the output. */
  lemma ArgTokensSplit(p: Preset, inputFile: string, outputFile: string, keepAudio: bool,
                       resolution: Option<(int, int)>, framerate: Option<int>)
    ensures ArgTokens(p, inputFile, outputFile, keepAudio, resolution, framerate)
      == (Opt("-i", inputFile) + VideoTokens(p.video) + ResolutionTokens(resolution) + FramerateTokens(framerate))
         + AudioTokens(p.audio, keepAudio)
         + (FilterTokens(p.filters) + [Flag("-y"), Target(outputFile)])
  {
    FlattenFive(LeadPieces(p, inputFile, keepAudio, resolution, framerate));
  }

    lemma RenderSpans(head: seq<Token>, mid: seq<Token>, tail: seq<Token>)
    ensures Spans(Render(head + mid + tail), |head|, Render(mid), |tail|)
  {
    var ts := head + mid + tail;
    assert ts[|head|..|head| + |mid|] == mid;
    assert Render(ts)[|head|..|head| + |mid|] == Render(mid);
  }
}
