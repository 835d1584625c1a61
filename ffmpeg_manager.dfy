/** Locating the encoder (app/core/ffmpeg_manager.py): the download URL for
    a platform and processor, the order in which the PATH binary and the
    bundled binary are tried, the bundled binary's name, the choice of
    extractor by archive suffix and the choice of member inside an archive.
    Whether a binary exists and answers `-version` is an observation
    handed in; downloading and unpacking are not modelled. */
module FfmpegManager {
  import opened Text
  import Paths

  /** A dictionary with string keys, in insertion order. */
  type Table<V> = seq<(string, V)>

  /** `t.get(key)`: the value of the first entry with that key. */
  function Lookup<V>(t: Table<V>, key: string): (r: Option<V>)
    ensures r.None? <==> forall i :: 0 <= i < |t| ==> t[i].0 != key
    ensures r.Some? ==> (key, r.value) in t
  {
    if t == [] then None
    else if t[0].0 == key then Some(t[0].1)
    else Lookup(t[1..], key)
  }

  const WinX64Url := "https://github.com/BtbN/FFmpeg-Builds/releases/download/latest/ffmpeg-master-latest-win64-gpl.zip"
  const WinX86Url := "https://github.com/BtbN/FFmpeg-Builds/releases/download/latest/ffmpeg-master-latest-win32-gpl.zip"
  const MacUrl := "https://evermeet.cx/ffmpeg/ffmpeg-6.1.zip"
  const LinuxAmd64Url := "https://johnvansickle.com/ffmpeg/releases/ffmpeg-release-amd64-static.tar.xz"
  const LinuxI686Url := "https://johnvansickle.com/ffmpeg/releases/ffmpeg-release-i686-static.tar.xz"

  const WindowsUrls: Table<string> := [("x64", WinX64Url), ("x86", WinX86Url)]
  const DarwinUrls: Table<string> := [("x86_64", MacUrl), ("arm64", MacUrl)]
  const LinuxUrls: Table<string> := [("x86_64", LinuxAmd64Url), ("i686", LinuxI686Url)]

  /** `download_urls`: per lower-cased system name, per processor. */
  const DownloadUrls: Table<Table<string>> :=
    [("windows", WindowsUrls), ("darwin", DarwinUrls), ("linux", LinuxUrls)]

  /** The three systems of the table, and no other. */
  lemma Platforms(system: string)
    ensures Lookup(DownloadUrls, "windows") == Some(WindowsUrls)
    ensures Lookup(DownloadUrls, "darwin") == Some(DarwinUrls)
    ensures Lookup(DownloadUrls, "linux") == Some(LinuxUrls)
    ensures system !in {"windows", "darwin", "linux"} ==> Lookup(DownloadUrls, system).None?
  {
    assert DownloadUrls[1..] == [("darwin", DarwinUrls), ("linux", LinuxUrls)];
    assert DownloadUrls[1..][1..] == [("linux", LinuxUrls)];
    assert DownloadUrls[1..][1..][1..] == [];
    assert Lookup(DownloadUrls[1..][1..], "linux") == Some(LinuxUrls);
    assert Lookup(DownloadUrls[1..], "linux") == Some(LinuxUrls);
  }

  /** Other names of a processor, tried in this order. */
  const ArchAliases: Table<string> := [("amd64", "x86_64"), ("x64", "x86_64"), ("aarch64", "arm64")]

  /** The URL for processor `arch` once no key of `urls` is `arch`: the
      first alias naming `arch` whose canonical key `urls` has, else the
      first URL of the table. */
  function AliasUrl(urls: Table<string>, arch: string, aliases: Table<string>): Option<string>
    decreases |aliases|
  {
    if aliases == [] then (if urls == [] then None else Some(urls[0].1))
    else if aliases[0].0 == arch && Lookup(urls, aliases[0].1).Some? then Lookup(urls, aliases[0].1)
    else AliasUrl(urls, arch, aliases[1..])
  }

  /** What `get_download_url` answers for a system and processor. */
  function DownloadUrl(system: string, arch: string): Option<string> {
    match Lookup(DownloadUrls, system)
    case None => None
    case Some(urls) => if Lookup(urls, arch).Some? then Lookup(urls, arch) else AliasUrl(urls, arch, ArchAliases)
  }

  /** `get_download_url`, with its loop over the alias table. */
  method GetDownloadUrl(system: string, arch: string) returns (url: Option<string>)
    ensures url == DownloadUrl(system, arch)
  {
    var platformUrls := Lookup(DownloadUrls, system);
    if platformUrls.None? {
      return None;
    }
    var urls := platformUrls.value;
    var exact := Lookup(urls, arch);
    if exact.Some? {
      return exact;
    }
    var i := 0;
    while i < |ArchAliases|
      invariant 0 <= i <= |ArchAliases|
      invariant AliasUrl(urls, arch, ArchAliases) == AliasUrl(urls, arch, ArchAliases[i..])
    {
      var (alias, canonical) := ArchAliases[i];
      if arch == alias && Lookup(urls, canonical).Some? {
        return Lookup(urls, canonical);
      }
      assert ArchAliases[i..][1..] == ArchAliases[i + 1..];
      i := i + 1;
    }
    url := if urls == [] then None else Some(urls[0].1);
  }

  /** `u` is one of the URLs of `urls`. */
  predicate InTable(urls: Table<string>, u: string) {
    exists i :: 0 <= i < |urls| && urls[i].1 == u
  }

  /** The alias pass never fails on a non-empty table, and it answers with
      one of the table's URLs. */
  lemma {:induction false} AliasUrlInTable(urls: Table<string>, arch: string, aliases: Table<string>)
    requires urls != []
    ensures AliasUrl(urls, arch, aliases).Some?
    ensures InTable(urls, AliasUrl(urls, arch, aliases).value)
    decreases |aliases|
  {
    if aliases == [] {
      assert urls[0].1 == AliasUrl(urls, arch, aliases).value;
    } else if aliases[0].0 == arch && Lookup(urls, aliases[0].1).Some? {
      var u := Lookup(urls, aliases[0].1).value;
      var i :| 0 <= i < |urls| && urls[i] == (aliases[0].1, u);
      assert urls[i].1 == u;
    } else {
      AliasUrlInTable(urls, arch, aliases[1..]);
    }
  }

  /** A system outside the table has no URL; a system in it always gets one
      of its own URLs, the one of its exact processor key when it has it. */
  lemma DownloadUrlChoice(system: string, arch: string)
    ensures Lookup(DownloadUrls, system).None? ==> DownloadUrl(system, arch).None?
    ensures Lookup(DownloadUrls, system).Some? ==>
      var urls := Lookup(DownloadUrls, system).value;
      && DownloadUrl(system, arch).Some?
      && InTable(urls, DownloadUrl(system, arch).value)
      && (Lookup(urls, arch).Some? ==> DownloadUrl(system, arch) == Lookup(urls, arch))
  {
    if Lookup(DownloadUrls, system).Some? {
      var urls := Lookup(DownloadUrls, system).value;
      assert urls != [];
      UrlChoice(urls, arch);
      var u := if Lookup(urls, arch).Some? then Lookup(urls, arch) else AliasUrl(urls, arch, ArchAliases);
      assert DownloadUrl(system, arch) == u;
    }
  }

  /** The answer for one system's table: one of its URLs, the exact key's
      when there is one. */
  lemma UrlChoice(urls: Table<string>, arch: string)
    requires urls != []
    ensures var u := if Lookup(urls, arch).Some? then Lookup(urls, arch) else AliasUrl(urls, arch, ArchAliases);
      u.Some? && InTable(urls, u.value)
  {
    if Lookup(urls, arch).None? {
      AliasUrlInTable(urls, arch, ArchAliases);
    } else {
      var u := Lookup(urls, arch).value;
      var i :| 0 <= i < |urls| && urls[i] == (arch, u);
      assert urls[i].1 == u;
    }
  }

  /** An exact processor key wins: "x86" on windows takes the 32-bit
      build, and a system outside the table gets nothing. */
  lemma ExactExamples()
    ensures DownloadUrl("windows", "x86") == Some(WinX86Url)
    ensures DownloadUrl("freebsd", "x86_64") == None
  {
    Platforms("freebsd");
    assert Lookup(WindowsUrls, "x86") == Some(WinX86Url) by {
      assert WindowsUrls[1..] == [("x86", WinX86Url)];
    }
  }

  /** "amd64" on linux takes the x86_64 build through its alias. */
  lemma AliasApplies()
    ensures DownloadUrl("linux", "amd64") == Some(LinuxAmd64Url)
  {
    Platforms("linux");
    assert LinuxUrls[1..] == [("i686", LinuxI686Url)];
    assert Lookup(LinuxUrls, "amd64") == None;
    assert Lookup(LinuxUrls, "x86_64") == Some(LinuxAmd64Url);
    assert AliasUrl(LinuxUrls, "amd64", ArchAliases) == Some(LinuxAmd64Url);
  }

  /** "amd64" on windows, which has no "x86_64" key, falls back to the
      first URL: the x64 build. */
  lemma AliasFallsBackOnWindows()
    ensures DownloadUrl("windows", "amd64") == Some(WinX64Url)
  {
    Platforms("windows");
    assert WindowsUrls[1..] == [("x86", WinX86Url)];
    assert Lookup(WindowsUrls, "amd64") == None;
    assert Lookup(WindowsUrls, "x86_64") == None;
    assert ArchAliases[1..] == [("x64", "x86_64"), ("aarch64", "arm64")];
    assert ArchAliases[1..][1..] == [("aarch64", "arm64")];
    assert ArchAliases[1..][1..][1..] == [];
    assert AliasUrl(WindowsUrls, "amd64", ArchAliases) == Some(WinX64Url);
  }

  /** "aarch64" on darwin takes the arm64 entry; on linux, which has no
      arm64 key, it falls back to the x86_64 build. */
  lemma AliasArm()
    ensures DownloadUrl("darwin", "aarch64") == Some(MacUrl)
    ensures DownloadUrl("linux", "aarch64") == Some(LinuxAmd64Url)
  {
    Platforms("darwin");
    assert DarwinUrls[1..] == [("arm64", MacUrl)];
    assert Lookup(DarwinUrls, "aarch64") == None;
    assert Lookup(DarwinUrls, "arm64") == Some(MacUrl);
    assert ArchAliases[1..] == [("x64", "x86_64"), ("aarch64", "arm64")];
    assert ArchAliases[1..][1..] == [("aarch64", "arm64")];
    assert ArchAliases[1..][1..][1..] == [];
    assert AliasUrl(DarwinUrls, "aarch64", ArchAliases) == Some(MacUrl);
    assert LinuxUrls[1..] == [("i686", LinuxI686Url)];
    assert Lookup(LinuxUrls, "aarch64") == None;
    assert Lookup(LinuxUrls, "arm64") == None;
    assert AliasUrl(LinuxUrls, "aarch64", ArchAliases) == Some(LinuxAmd64Url);
  }

  /** The bundled binary's file name. */
  function BinaryName(system: string): string {
    if system == "windows" then "ffmpeg.exe" else "ffmpeg"
  }

  /** `str(ffmpeg_dir / name)`. */
  function InDir(dir: string, name: string): string {
    Paths.Normalize(dir + "/" + name)
  }

  /** `check_system_ffmpeg`: the PATH binary `shutil.which` found, when it
      answers `-version` with exit code 0. */
  function CheckSystemFfmpeg(which: Option<string>, answers: bool): (r: Option<string>)
    ensures r.Some? <==> which.Some? && which.value != "" && answers
    ensures r.Some? ==> r == which
  {
    if which.Some? && which.value != "" && answers then which else None
  }

  /** `check_embedded_ffmpeg`: the bundled binary, when it exists, is
      executable and answers `-version` with exit code 0. */
  function CheckEmbeddedFfmpeg(dir: string, system: string, usable: bool): (r: Option<string>)
    ensures r.Some? <==> usable
    ensures r.Some? ==> r.value == InDir(dir, BinaryName(system))
  {
    if usable then Some(InDir(dir, BinaryName(system))) else None
  }

  /** `get_ffmpeg_path`: the first truthy answer, system first. */
  function GetFfmpegPath(system: Option<string>, embedded: Option<string>): (r: Option<string>)
  {
    if system.Some? && system.value != "" then system
    else if embedded.Some? && embedded.value != "" then embedded
    else None
  }

  /** The PATH binary wins whenever it works; the bundled one is used only
      when it does not; with neither there is no path. */
  lemma PathPrecedence(which: Option<string>, answers: bool, dir: string, system: string, usable: bool)
    ensures var s := CheckSystemFfmpeg(which, answers);
      var e := CheckEmbeddedFfmpeg(dir, system, usable);
      var r := GetFfmpegPath(s, e);
      && (s.Some? ==> r == s)
      && (s.None? && usable ==> r == Some(InDir(dir, BinaryName(system))))
      && (s.None? && !usable ==> r.None?)
  {
    if !CheckSystemFfmpeg(which, answers).Some? && usable {
      NormalizeNotEmpty(dir + "/" + BinaryName(system));
    }
  }

  /** `str(Path(p))` is never the empty string. */
  lemma NormalizeNotEmpty(p: string)
    ensures Paths.Normalize(p) != ""
  {
    var parts := Paths.Parts(p);
    Paths.PartsArePartsOf(p);
    if !Paths.IsRooted(p) && parts != [] {
      assert parts[0] != "";
      Paths.JoinHead(parts);
    }
  }

  /** The bundled binary is "ffmpeg.exe" on windows and "ffmpeg" elsewhere. */
  lemma BinaryNames(system: string)
    ensures system == "windows" ==> BinaryName(system) == "ffmpeg.exe"
    ensures system != "windows" ==> BinaryName(system) == "ffmpeg"
    ensures EndsWith(BinaryName(system), "ffmpeg") || EndsWith(BinaryName(system), "ffmpeg.exe")
  {
  }

  /** What `get_ffmpeg_info` reports. */
  datatype Info = Unavailable | Available(path: string, version: string, isSystem: bool)

  /** The first line of a text: `text.split('\n')[0]`. */
  function FirstLine(text: string): (r: string)
    ensures StartsWith(text, r) && forall j :: 0 <= j < |r| ==> r[j] != '\n'
  {
    text[..IndexOf(text, '\n')]
  }

  /** `get_ffmpeg_info`: unavailable without a path or when the binary does
      not answer `-version`; otherwise the path, the first line of the
      version text, and whether the path is other than the bundled one. */
  function GetFfmpegInfo(dir: string, system: string, path: Option<string>, answers: bool, versionText: string)
    : (r: Info)
    ensures r.Available? <==> path.Some? && path.value != "" && answers
    ensures r.Available? ==> r.path == path.value && (r.isSystem <==> r.path != InDir(dir, BinaryName(system)))
  {
    if path.None? || path.value == "" || !answers then Unavailable
    else Available(path.value, FirstLine(versionText), path.value != InDir(dir, BinaryName(system)))
  }

  /** When only the bundled binary works, the report says it is not the
      system's; when the PATH binary works and lives elsewhere, it says it
      is. */
  lemma IsSystemReport(which: Option<string>, answers: bool, dir: string, system: string, usable: bool,
                       versionText: string)
    ensures var s := CheckSystemFfmpeg(which, answers);
      var p := GetFfmpegPath(s, CheckEmbeddedFfmpeg(dir, system, usable));
      var info := GetFfmpegInfo(dir, system, p, true, versionText);
      && (s.None? && usable ==> info.Available? && !info.isSystem)
      && (s.Some? && s.value != InDir(dir, BinaryName(system)) ==> info.Available? && info.isSystem)
      && (s.None? && !usable ==> info == Unavailable)
  {
    PathPrecedence(which, answers, dir, system, usable);
    if CheckSystemFfmpeg(which, answers).None? && usable {
      NormalizeNotEmpty(dir + "/" + BinaryName(system));
    }
  }

  // ---------------------------------------------------------------------
  // Unpacking

  datatype Extractor = ZipExtractor | TarExtractor | NoExtractor

  /** `_extract_ffmpeg`'s dispatch on the lower-cased last suffix. */
  function ExtractorFor(archivePath: string): (r: Extractor)
    ensures r.ZipExtractor? <==> Lower(Paths.Suffix(archivePath)) == ".zip"
    ensures r.TarExtractor? <==> Lower(Paths.Suffix(archivePath)) in [".tar", ".xz"]
  {
    var ext := Lower(Paths.Suffix(archivePath));
    if ext == ".zip" then ZipExtractor
    else if ext == ".tar" || ext == ".xz" then TarExtractor
    else NoExtractor
  }

  /** A zip member `_extract_zip` takes: named after the binary and not a
      directory. */
  predicate IsZipBinary(name: string) {
    (EndsWith(name, "ffmpeg.exe") || EndsWith(name, "ffmpeg")) && !EndsWith(name, "/")
  }

  /** The member `_extract_zip` extracts: the first that qualifies. */
  function ZipMember(names: seq<string>): Option<string> {
    if names == [] then None
    else if IsZipBinary(names[0]) then Some(names[0])
    else ZipMember(names[1..])
  }

  /** No member qualifies exactly when none is chosen; the chosen one
      qualifies and every member before it does not. */
  lemma {:induction false} ZipMemberFirst(names: seq<string>)
    ensures ZipMember(names).None? <==> forall i :: 0 <= i < |names| ==> !IsZipBinary(names[i])
    ensures ZipMember(names).Some? ==>
      exists i :: 0 <= i < |names| && names[i] == ZipMember(names).value && IsZipBinary(names[i])
                  && forall j :: 0 <= j < i ==> !IsZipBinary(names[j])
  {
    if names != [] && !IsZipBinary(names[0]) {
      ZipMemberFirst(names[1..]);
      var r := ZipMember(names[1..]);
      if r.Some? {
        var i :| 0 <= i < |names[1..]| && names[1..][i] == r.value && IsZipBinary(names[1..][i])
                 && forall j :: 0 <= j < i ==> !IsZipBinary(names[1..][j]);
        assert names[i + 1] == r.value;
        forall j | 0 <= j < i + 1
          ensures !IsZipBinary(names[j])
        {
          if j > 0 { assert names[j] == names[1..][j - 1]; }
        }
      } else {
        forall i | 0 <= i < |names|
          ensures !IsZipBinary(names[i])
        {
          if i > 0 { assert names[i] == names[1..][i - 1]; }
        }
      }
    } else if names != [] {
      assert names[0] == ZipMember(names).value;
    }
  }

  /** A tar member as `_extract_tar` sees it. */
  datatype TarMember = TarMember(name: string, isFile: bool)

  predicate IsTarBinary(m: TarMember) {
    m.isFile && EndsWith(m.name, "ffmpeg")
  }

  /** The member `_extract_tar` extracts: the first regular file whose name
      ends in "ffmpeg". */
  function TarMemberChoice(members: seq<TarMember>): Option<string> {
    if members == [] then None
    else if IsTarBinary(members[0]) then Some(members[0].name)
    else TarMemberChoice(members[1..])
  }

  /** No member qualifies exactly when none is chosen; the chosen one is
      the first that qualifies. */
  lemma {:induction false} TarMemberFirst(members: seq<TarMember>)
    ensures TarMemberChoice(members).None? <==> forall i :: 0 <= i < |members| ==> !IsTarBinary(members[i])
    ensures TarMemberChoice(members).Some? ==>
      exists i :: 0 <= i < |members| && members[i].name == TarMemberChoice(members).value && IsTarBinary(members[i])
                  && forall j :: 0 <= j < i ==> !IsTarBinary(members[j])
  {
    if members != [] && !IsTarBinary(members[0]) {
      TarMemberFirst(members[1..]);
      var r := TarMemberChoice(members[1..]);
      if r.Some? {
        var i :| 0 <= i < |members[1..]| && members[1..][i].name == r.value && IsTarBinary(members[1..][i])
                 && forall j :: 0 <= j < i ==> !IsTarBinary(members[1..][j]);
        assert members[i + 1] == members[1..][i];
        forall j | 0 <= j < i + 1
          ensures !IsTarBinary(members[j])
        {
          if j > 0 { assert members[j] == members[1..][j - 1]; }
        }
      } else {
        forall i | 0 <= i < |members|
          ensures !IsTarBinary(members[i])
        {
          if i > 0 { assert members[i] == members[1..][i - 1]; }
        }
      }
    } else if members != [] {
      assert members[0].name == TarMemberChoice(members).value;
    }
  }

  /** `_extract_ffmpeg`: which member is moved to which name in the
      bundled directory, or `None` when nothing is extracted. The contents
      of the archive are handed in. */
  function ExtractFfmpeg(archivePath: string, system: string, zipNames: seq<string>, tarMembers: seq<TarMember>)
    : (r: Option<(string, string)>)
    ensures ExtractorFor(archivePath).NoExtractor? ==> r.None?
    ensures ExtractorFor(archivePath).ZipExtractor? ==>
      r == (if ZipMember(zipNames).Some? then Some((ZipMember(zipNames).value, BinaryName(system))) else None)
    ensures ExtractorFor(archivePath).TarExtractor? ==>
      r == (if TarMemberChoice(tarMembers).Some? then Some((TarMemberChoice(tarMembers).value, "ffmpeg")) else None)
  {
    match ExtractorFor(archivePath)
    case ZipExtractor =>
      (match ZipMember(zipNames) case None => None case Some(m) => Some((m, BinaryName(system))))
    case TarExtractor =>
      (match TarMemberChoice(tarMembers) case None => None case Some(m) => Some((m, "ffmpeg")))
    case NoExtractor => None
  }

  /** A file name made of a stem and an extension has that extension as its
      suffix. */
  lemma SuffixOfName(stem: string, ext: string)
    requires stem != "" && Extension(ext)
    requires forall j :: 0 <= j < |stem| ==> stem[j] != '/'
    ensures Paths.Suffix(stem + ext) == ext
  {
    var name := stem + ext;
    assert forall j :: 0 <= j < |name| ==> name[j] != '/' by {
      forall j | 0 <= j < |name| ensures name[j] != '/' {
        if j >= |stem| { assert name[j] == ext[j - |stem|]; }
      }
    }
    Paths.NoSlash(name);
    assert Paths.Split(name) == [name];
    assert name != "." by { assert |name| >= 3; }
    assert [name][1..] == [];
    assert Paths.Clean([name]) == [name];
    assert Paths.Parts(name) == [name];
    assert name[|stem|] == '.';
    assert forall j :: |stem| < j < |name| ==> name[j] != '.' by {
      forall j | |stem| < j < |name| ensures name[j] != '.' {
        assert name[j] == ext[j - |stem|];
      }
    }
    Paths.RFindLast(name, |stem|);
    assert name[|stem|..] == ext;
  }

  /** A suffix `SuffixOfName` accepts: a dot, then at least one
      character, none of them a '/' or another dot. */
  predicate Extension(ext: string) {
    ext != "" && ext[0] == '.' && |ext| >= 2
    && (forall j :: 0 <= j < |ext| ==> ext[j] != '/')
    && (forall j :: 1 <= j < |ext| ==> ext[j] != '.')
  }

  lemma ZipExtensions()
    ensures Extension(".zip") && Lower(".zip") == ".zip"
    ensures Extension(".ZIP") && Lower(".ZIP") == ".zip"
  {
  }

  lemma TarExtensions()
    ensures Extension(".xz") && Lower(".xz") == ".xz"
    ensures Extension(".gz") && Lower(".gz") == ".gz"
  {
  }

  /** A plain file name ending in ".zip", in either letter case, is
      unpacked as a zip. */
  lemma ZipDispatch(stem: string)
    requires stem != "" && forall j :: 0 <= j < |stem| ==> stem[j] != '/'
    ensures ExtractorFor(stem + ".zip").ZipExtractor?
    ensures ExtractorFor(stem + ".ZIP").ZipExtractor?
  {
    ZipExtensions();
    SuffixOfName(stem, ".zip");
    SuffixOfName(stem, ".ZIP");
  }

  /** A plain name with ".tar" appended is still a plain name. */
  lemma TarStem(stem: string)
    requires stem != "" && forall j :: 0 <= j < |stem| ==> stem[j] != '/'
    ensures var tar := stem + ".tar"; tar != "" && forall j :: 0 <= j < |tar| ==> tar[j] != '/'
  {
    var tar := stem + ".tar";
    forall j | 0 <= j < |tar|
      ensures tar[j] != '/'
    {
      if j >= |stem| { assert tar[j] == ".tar"[j - |stem|]; }
    }
  }

  /** One ending in ".tar.xz" is unpacked as a tar on its last suffix
      alone. */
  lemma TarXzDispatch(stem: string)
    requires stem != "" && forall j :: 0 <= j < |stem| ==> stem[j] != '/'
    ensures ExtractorFor(stem + ".tar.xz").TarExtractor?
  {
    TarStem(stem);
    TarExtensions();
    SuffixOfName(stem + ".tar", ".xz");
    assert stem + ".tar" + ".xz" == stem + ".tar.xz";
  }

  /** One ending in ".tar.gz" is not unpacked at all. */
  lemma TarGzDispatch(stem: string)
    requires stem != "" && forall j :: 0 <= j < |stem| ==> stem[j] != '/'
    ensures ExtractorFor(stem + ".tar.gz").NoExtractor?
  {
    TarStem(stem);
    TarExtensions();
    SuffixOfName(stem + ".tar", ".gz");
    assert stem + ".tar" + ".gz" == stem + ".tar.gz";
  }

  /** Directories and unrelated files are passed over: the binary under
      "bin/" is chosen even after a directory named after it. */
  lemma ZipMemberExample()
    ensures ZipMember(["ffmpeg/", "doc/readme.txt", "bin/ffmpeg.exe", "bin/ffplay.exe"]) == Some("bin/ffmpeg.exe")
    ensures ZipMember(["ffprobe", "ffmpeg-6.1/"]) == None
  {
    assert IsZipBinary("bin/ffmpeg.exe");
    assert !IsZipBinary("ffmpeg/") by { assert EndsWith("ffmpeg/", "/"); }
    assert !IsZipBinary("doc/readme.txt");
    assert !IsZipBinary("ffprobe");
    assert !IsZipBinary("ffmpeg-6.1/") by { assert EndsWith("ffmpeg-6.1/", "/"); }
  }
}
