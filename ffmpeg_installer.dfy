/** The encoder installer (app/core/ffmpeg_installer.py): the one download
    it knows for each system, where it expects the bundled binary, the
    order in which it looks for a working binary, the name under which a
    download is saved, the percentages it reports while downloading and
    installing, and the dispatch on the archive type. The network, the
    archive libraries and the subprocesses are observations handed in. */
module FfmpegInstaller {
  import opened Text
  import Paths
  import opened Telemetry
  import FfmpegManager

  /** The `download_urls` dictionary when it is not empty. */
  datatype Download = Download(url: string, kind: string)

  /** `_get_download_urls`: darwin gets the same zip whatever the
      processor, windows the 64-bit zip, linux the amd64 tarball, and any
      other system an empty dictionary. */
  function InstallerUrls(system: string, arch: string): Option<Download> {
    if system == "darwin" then
      if Contains(arch, "arm") || Contains(arch, "aarch64") then
        Some(Download(FfmpegManager.MacUrl, "zip"))
      else
        Some(Download(FfmpegManager.MacUrl, "zip"))
    else if system == "windows" then Some(Download(FfmpegManager.WinX64Url, "zip"))
    else if system == "linux" then Some(Download(FfmpegManager.LinuxAmd64Url, "tar.xz"))
    else None
  }

  /** An installer as `__init__` leaves it: the lower-cased system and
      processor names, the bundled directory and the download table. */
  datatype Installer = Installer(system: string, architecture: string, ffmpegDir: string,
                                 downloadUrls: Option<Download>)

  function NewInstaller(platformSystem: string, machine: string, ffmpegDir: string): (r: Installer)
    ensures r.system == Lower(platformSystem) && r.architecture == Lower(machine)
    ensures r.downloadUrls == InstallerUrls(r.system, r.architecture)
  {
    var system := Lower(platformSystem);
    var arch := Lower(machine);
    Installer(system, arch, ffmpegDir, InstallerUrls(system, arch))
  }

  /** The table is empty exactly for the systems other than darwin,
      windows and linux; the processor never matters; the type names the
      archive the URL ends with. */
  lemma InstallerUrlsShape(system: string, arch: string, arch2: string)
    ensures InstallerUrls(system, arch).None? <==> system !in {"darwin", "windows", "linux"}
    ensures InstallerUrls(system, arch) == InstallerUrls(system, arch2)
    ensures InstallerUrls(system, arch).Some? ==>
      var d := InstallerUrls(system, arch).value;
      && (d.kind == "zip" <==> system in {"darwin", "windows"})
      && (d.kind == "zip" ==> EndsWith(d.url, ".zip"))
      && (d.kind == "tar.xz" <==> system == "linux")
      && (d.kind == "tar.xz" ==> EndsWith(d.url, ".tar.xz"))
  {
    UrlEndings();
  }

  lemma UrlEndings()
    ensures EndsWith(FfmpegManager.MacUrl, ".zip")
    ensures EndsWith(FfmpegManager.WinX64Url, ".zip")
    ensures EndsWith(FfmpegManager.LinuxAmd64Url, ".tar.xz")
  {
    MacUrlEnding();
    WinUrlEnding();
    LinuxUrlEnding();
  }

  lemma MacUrlEnding()
    ensures EndsWith(FfmpegManager.MacUrl, ".zip")
  {
    assert FfmpegManager.MacUrl == "https://evermeet.cx/ffmpeg/ffmpeg-6.1" + ".zip";
  }

  lemma WinUrlEnding()
    ensures EndsWith(FfmpegManager.WinX64Url, ".zip")
  {
    assert FfmpegManager.WinX64Url
      == "https://github.com/BtbN/FFmpeg-Builds/releases/download/latest/ffmpeg-master-latest-win64-gpl" + ".zip";
  }

  lemma LinuxUrlEnding()
    ensures EndsWith(FfmpegManager.LinuxAmd64Url, ".tar.xz")
  {
    assert FfmpegManager.LinuxAmd64Url
      == "https://johnvansickle.com/ffmpeg/releases/ffmpeg-release-amd64-static" + ".tar.xz";
  }

  /** The installer always fetches what the manager's table gives a 64-bit
      processor of the same system. */
  lemma InstallerMatchesManager(arch: string)
    ensures Some(InstallerUrls("windows", arch).value.url) == FfmpegManager.DownloadUrl("windows", "x64")
    ensures Some(InstallerUrls("linux", arch).value.url) == FfmpegManager.DownloadUrl("linux", "x86_64")
    ensures Some(InstallerUrls("darwin", arch).value.url) == FfmpegManager.DownloadUrl("darwin", "arm64")
  {
    FfmpegManager.Platforms("windows");
    assert FfmpegManager.Lookup(FfmpegManager.WindowsUrls, "x64") == Some(FfmpegManager.WinX64Url);
    assert FfmpegManager.Lookup(FfmpegManager.LinuxUrls, "x86_64") == Some(FfmpegManager.LinuxAmd64Url);
    assert FfmpegManager.DarwinUrls[1..] == [("arm64", FfmpegManager.MacUrl)];
    assert FfmpegManager.Lookup(FfmpegManager.DarwinUrls, "arm64") == Some(FfmpegManager.MacUrl);
  }

  /** A 32-bit windows or linux processor still gets the 64-bit build from
      the installer, where the manager picks the 32-bit one. */
  lemma InstallerIgnores32Bit()
    ensures Some(InstallerUrls("windows", "x86").value.url) != FfmpegManager.DownloadUrl("windows", "x86")
    ensures Some(InstallerUrls("linux", "i686").value.url) != FfmpegManager.DownloadUrl("linux", "i686")
  {
    FfmpegManager.ExactExamples();
    FfmpegManager.Platforms("linux");
    assert FfmpegManager.LinuxUrls[1..] == [("i686", FfmpegManager.LinuxI686Url)];
    assert FfmpegManager.Lookup(FfmpegManager.LinuxUrls, "i686") == Some(FfmpegManager.LinuxI686Url);
    assert FfmpegManager.LinuxAmd64Url[57] != FfmpegManager.LinuxI686Url[57];
    assert FfmpegManager.WinX64Url[87] != FfmpegManager.WinX86Url[87];
  }

  // ---------------------------------------------------------------------
  // Where the binary is

  /** `get_embedded_ffmpeg_path`: "bin/ffmpeg.exe" under the bundled
      directory on windows, "ffmpeg" elsewhere; `None` when it is missing. */
  function EmbeddedPath(inst: Installer, exists_: bool): (r: Option<string>)
    ensures r.Some? <==> exists_
  {
    if !exists_ then None
    else if inst.system == "windows" then Some(FfmpegManager.InDir(FfmpegManager.InDir(inst.ffmpegDir, "bin"), "ffmpeg.exe"))
    else Some(FfmpegManager.InDir(inst.ffmpegDir, "ffmpeg"))
  }

  /** What `which ffmpeg` (`where` on windows) does. */
  datatype Which = Found(stdout: string) | NotFound | TimedOut

  /** `is_ffmpeg_installed`: the bundled binary first; then a PATH binary
      that answers `-version` with exit code 0, named by `which`'s stripped
      output or "system" when `which` fails. A `which` that times out
      makes the whole check answer "not installed". */
  function IsFfmpegInstalled(inst: Installer, embeddedExists: bool, answers: bool, which: Which)
    : (r: (bool, Option<string>))
    ensures r.0 <==> r.1.Some?
    ensures embeddedExists ==> r == (true, EmbeddedPath(inst, true))
    ensures !embeddedExists ==> (r.0 <==> answers && !which.TimedOut?)
    ensures !embeddedExists && answers && which.NotFound? ==> r.1 == Some("system")
  {
    if embeddedExists then (true, EmbeddedPath(inst, true))
    else if !answers then (false, None)
    else match which
      case Found(out) => (true, Some(Strip(out)))
      case NotFound => (true, Some("system"))
      case TimedOut => (false, None)
  }

  /** With both binaries working the two classes disagree: the installer
      names the bundled binary and the manager the one on the PATH. */
  lemma OppositePrecedence(inst: Installer, pathBinary: string)
    requires pathBinary != ""
    ensures IsFfmpegInstalled(inst, true, true, Found(pathBinary)).1 == EmbeddedPath(inst, true)
    ensures FfmpegManager.GetFfmpegPath(
              FfmpegManager.CheckSystemFfmpeg(Some(pathBinary), true),
              FfmpegManager.CheckEmbeddedFfmpeg(inst.ffmpegDir, inst.system, true)) == Some(pathBinary)
  {
  }

  /** Off windows the two classes expect the bundled binary at the same
      place; on windows the installer looks one directory deeper, under
      "bin", than the manager, although both expect "ffmpeg.exe". */
  lemma EmbeddedPathsCompared(inst: Installer)
    ensures inst.system != "windows" ==>
      EmbeddedPath(inst, true) == FfmpegManager.CheckEmbeddedFfmpeg(inst.ffmpegDir, inst.system, true)
    ensures inst.system == "windows" ==>
      var mine := EmbeddedPath(inst, true).value;
      var theirs := FfmpegManager.CheckEmbeddedFfmpeg(inst.ffmpegDir, inst.system, true).value;
      && mine != theirs
      && Paths.Name(mine) == Paths.Name(theirs) == "ffmpeg.exe"
  {
    if inst.system == "windows" {
      var dir := inst.ffmpegDir;
      var bin := FfmpegManager.InDir(dir, "bin");
      Paths.NoSlash("bin");
      Paths.NoSlash("ffmpeg.exe");
      PartsInDir(dir, "bin");
      PartsInDir(bin, "ffmpeg.exe");
      PartsInDir(dir, "ffmpeg.exe");
    }
  }

  /** `Path(dir) / name` for a single component: the components of `dir`
      and then `name`. */
  lemma PartsInDir(dir: string, name: string)
    requires Paths.IsPart(name)
    ensures Paths.Parts(FfmpegManager.InDir(dir, name)) == Paths.Parts(dir) + [name]
  {
    Paths.PartsOfPart(name);
    Paths.PartsConcat(dir, name);
    Paths.NormalizeIdempotent(dir + "/" + name);
  }

  // ---------------------------------------------------------------------
  // Downloading

  /** The first index of one of `stops` in `s`, or `|s|` when there is none. */
  function FirstOf(s: string, stops: set<char>): (i: nat)
    ensures i <= |s|
    ensures i < |s| ==> s[i] in stops
    ensures forall j :: 0 <= j < i ==> s[j] !in stops
  {
    if |s| == 0 then 0 else if s[0] in stops then 0 else 1 + FirstOf(s[1..], stops)
  }

  /** `urlparse(url).path` for a URL written `scheme://netloc/path`: the
      network location ends at the first '/', '?' or '#', the path at the
      first '?' or '#'. */
  function UrlPath(url: string): string {
    var c := IndexOf(url, ':');
    if c + 3 <= |url| && url[c..c + 3] == "://" then
      var rest := url[c + 3..];
      var path := rest[FirstOf(rest, {'/', '?', '#'})..];
      path[..FirstOf(path, {'?', '#'})]
    else
      url[..FirstOf(url, {'?', '#'})]
  }

  /** The name a download is saved under: the last component of the URL's
      path, or "ffmpeg_download.<type>" when it has none; `None` stands for
      the `KeyError` of an empty table. The source also falls back on a
      name equal to "/", which a component never is. */
  function DownloadName(inst: Installer, url: string): (r: Option<string>)
    ensures Paths.Name(UrlPath(url)) != "" ==> r == Some(Paths.Name(UrlPath(url)))
    ensures Paths.Name(UrlPath(url)) == "" && inst.downloadUrls.Some? ==>
      r == Some("ffmpeg_download." + inst.downloadUrls.value.kind)
    ensures r.Some? ==> r.value != ""
  {
    var name := Paths.Name(UrlPath(url));
    NameNotSlash(UrlPath(url));
    if name == "" || name == "/" then
      if inst.downloadUrls.Some? then Some("ffmpeg_download." + inst.downloadUrls.value.kind) else None
    else Some(name)
  }

  /** A path's name never is "/". */
  lemma NameNotSlash(p: string)
    ensures Paths.Name(p) != "/"
  {
    Paths.PartsArePartsOf(p);
    if Paths.Parts(p) != [] {
      var last := Paths.Parts(p)[|Paths.Parts(p)| - 1];
      assert Paths.IsPart(last);
      assert IndexOf("/", '/') == 0;
    }
  }

  /** The text has no character of `stops`. */
  predicate Avoids(s: string, stops: set<char>) {
    forall j :: 0 <= j < |s| ==> s[j] !in stops
  }

  lemma {:induction false} FirstOfNone(s: string, stops: set<char>)
    requires Avoids(s, stops)
    ensures FirstOf(s, stops) == |s|
  {
    if s != [] {
      FirstOfNone(s[1..], stops);
    }
  }

  lemma {:induction false} FirstOfAt(s: string, t: string, stops: set<char>)
    requires Avoids(s, stops) && t != [] && t[0] in stops
    ensures FirstOf(s + t, stops) == |s|
  {
    if s != [] {
      assert (s + t)[1..] == s[1..] + t;
      FirstOfAt(s[1..], t, stops);
    }
  }

  /** The path of "https://host/dir/file" is "/dir/file". */
  lemma HttpsPath(host: string, path: string)
    requires Avoids(host, {'/', '?', '#'}) && Avoids(path, {'?', '#'})
    requires path != [] && path[0] == '/'
    ensures UrlPath("https://" + host + path) == path
  {
    var url := "https://" + host + path;
    assert url[5] == ':';
    assert IndexOf(url, ':') == 5;
    assert url[5..8] == "://";
    var rest := url[8..];
    assert rest == host + path;
    FirstOfAt(host, path, {'/', '?', '#'});
    assert rest[|host|..] == path;
    FirstOfNone(path, {'?', '#'});
  }

  /** A URL whose path ends in a file name is saved under that name. */
  lemma NamedDownload(inst: Installer, host: string, dirs: string, file: string)
    requires Avoids(host, {'/', '?', '#'}) && Avoids(dirs, {'?', '#'}) && Avoids(file, {'?', '#'})
    requires dirs == "" || dirs[0] == '/'
    requires Paths.IsPart(file)
    ensures DownloadName(inst, "https://" + host + dirs + "/" + file) == Some(file)
  {
    var path := dirs + "/" + file;
    assert Avoids(path, {'?', '#'}) by {
      forall j | 0 <= j < |path| ensures path[j] !in {'?', '#'} {
        if j < |dirs| { assert path[j] == dirs[j]; }
        else if j > |dirs| { assert path[j] == file[j - |dirs| - 1]; }
      }
    }
    assert "https://" + host + dirs + "/" + file == "https://" + host + path;
    HttpsPath(host, path);
    Paths.PartsConcat(dirs, file);
    Paths.PartsOfPart(file);
  }

  /** A URL with no path at all is saved as "ffmpeg_download.<type>". */
  lemma UnnamedDownload(inst: Installer, host: string)
    requires Avoids(host, {'/', '?', '#'})
    requires inst.downloadUrls.Some?
    ensures DownloadName(inst, "https://" + host) == Some("ffmpeg_download." + inst.downloadUrls.value.kind)
  {
    var url := "https://" + host;
    assert url[5] == ':';
    assert IndexOf(url, ':') == 5;
    assert url[5..8] == "://";
    FirstOfNone(url[8..], {'/', '?', '#'});
    assert Paths.Split("") == [""];
    assert Paths.Parts("") == [];
  }

  /** The mac download is saved as "ffmpeg-6.1.zip", a name the manager
      would also unpack as a zip. */
  lemma MacDownloadName(inst: Installer)
    ensures DownloadName(inst, FfmpegManager.MacUrl) == Some("ffmpeg-6.1.zip")
    ensures FfmpegManager.ExtractorFor("ffmpeg-6.1.zip").ZipExtractor?
  {
    MacUrlPieces();
    MacPieces(inst);
  }

  lemma MacUrlPieces()
    ensures FfmpegManager.MacUrl == "https://" + "evermeet.cx" + "/ffmpeg" + "/" + "ffmpeg-6.1.zip"
  {
    MacUrlHalves();
    MacHostText();
    MacPathText();
    var a, b, c, d, e := "https://", "evermeet.cx", "/ffmpeg", "/", "ffmpeg-6.1.zip";
    assert a + b + c + d + e == (a + b) + (c + d + e);
  }

  lemma MacUrlHalves()
    ensures FfmpegManager.MacUrl == "https://evermeet.cx" + "/ffmpeg/ffmpeg-6.1.zip"
  {
  }

  lemma MacHostText()
    ensures "https://" + "evermeet.cx" == "https://evermeet.cx"
  {
  }

  lemma MacPathText()
    ensures "/ffmpeg" + "/" + "ffmpeg-6.1.zip" == "/ffmpeg/ffmpeg-6.1.zip"
  {
  }

  lemma MacPieces(inst: Installer)
    ensures DownloadName(inst, "https://" + "evermeet.cx" + "/ffmpeg" + "/" + "ffmpeg-6.1.zip") == Some("ffmpeg-6.1.zip")
    ensures FfmpegManager.ExtractorFor("ffmpeg-6.1.zip").ZipExtractor?
  {
    MacHost();
    MacFile();
    NamedDownload(inst, "evermeet.cx", "/ffmpeg", "ffmpeg-6.1.zip");
    MacStem();
    FfmpegManager.ZipDispatch("ffmpeg-6.1");
  }

  lemma MacHost()
    ensures Avoids("evermeet.cx", {'/', '?', '#'}) && Avoids("/ffmpeg", {'?', '#'})
  {
  }

  lemma MacFile()
    ensures Paths.IsPart("ffmpeg-6.1.zip") && Avoids("ffmpeg-6.1.zip", {'?', '#'})
  {
    MacFileName();
    MacFileAvoids();
  }

  lemma MacFileAvoids()
    ensures Avoids("ffmpeg-6.1.zip", {'?', '#'})
  {
  }

  lemma MacFileName()
    ensures Paths.IsPart("ffmpeg-6.1.zip")
  {
    Paths.NoSlash("ffmpeg-6.1.zip");
    assert |"ffmpeg-6.1.zip"| == 14;
  }

  lemma MacStem()
    ensures "ffmpeg-6.1" + ".zip" == "ffmpeg-6.1.zip"
    ensures forall j :: 0 <= j < |"ffmpeg-6.1"| ==> "ffmpeg-6.1"[j] != '/'
  {
  }

  /** The total size of the chunks. */
  function Sum(chunks: seq<nat>): nat {
    if chunks == [] then 0 else chunks[0] + Sum(chunks[1..])
  }

  /** `int(downloaded / total * 60) + 10`. */
  function DownloadPercent(downloaded: nat, total: Pos): int {
    60 * downloaded / total + 10
  }

  /** The figure grows with the bytes received and stays within 10..70
      while the content length is not exceeded. */
  lemma DownloadPercentBounds(a: nat, b: nat, total: Pos)
    requires a <= b <= total
    ensures 10 <= DownloadPercent(a, total) <= DownloadPercent(b, total) <= 70
  {
    assert 60 * a <= 60 * b <= 60 * total;
    DivMonotonic(60 * a, 60 * b, total);
    DivMonotonic(60 * b, 60 * total, total);
    SixtyShare(total);
  }

  lemma SixtyShare(total: Pos)
    ensures 60 * total / total == 60
  {
  }

  /** The percentages `_download_ffmpeg` reports after `downloaded` bytes
      have arrived, one per non-empty chunk. */
  function DownloadPercents(chunks: seq<nat>, total: Pos, downloaded: nat): (r: seq<int>)
    ensures |r| <= |chunks|
  {
    if chunks == [] then []
    else if chunks[0] == 0 then DownloadPercents(chunks[1..], total, downloaded)
    else
      var d := downloaded + chunks[0];
      [DownloadPercent(d, total)] + DownloadPercents(chunks[1..], total, d)
  }

  predicate Ordered(xs: seq<int>) {
    forall i, j :: 0 <= i < j < |xs| ==> xs[i] <= xs[j]
  }

  predicate Within(xs: seq<int>, lo: int, hi: int) {
    forall i :: 0 <= i < |xs| ==> lo <= xs[i] <= hi
  }

  /** Putting a value no greater than the first in front keeps the order. */
  lemma Prepend(x: int, xs: seq<int>, lo: int, hi: int)
    requires Ordered(xs) && Within(xs, lo, hi) && lo <= x <= hi
    requires xs != [] ==> x <= xs[0]
    ensures Ordered([x] + xs) && Within([x] + xs, lo, hi)
  {
    var ys := [x] + xs;
    forall i, j | 0 <= i < j < |ys| ensures ys[i] <= ys[j] {
      assert ys[j] == xs[j - 1];
      if i > 0 { assert ys[i] == xs[i - 1]; }
    }
    forall i | 0 <= i < |ys| ensures lo <= ys[i] <= hi {
      if i > 0 { assert ys[i] == xs[i - 1]; }
    }
  }

  /** Putting a value no smaller than the last at the end keeps the order. */
  lemma Append(xs: seq<int>, x: int, lo: int, hi: int)
    requires Ordered(xs) && Within(xs, lo, hi) && lo <= x <= hi
    requires xs != [] ==> xs[|xs| - 1] <= x
    ensures Ordered(xs + [x]) && Within(xs + [x], lo, hi)
  {
    var ys := xs + [x];
    forall i, j | 0 <= i < j < |ys| ensures ys[i] <= ys[j] {
      assert ys[i] == xs[i];
      if j < |xs| { assert ys[j] == xs[j]; }
    }
  }

  /** A wider range still holds the values. */
  lemma Widen(xs: seq<int>, lo: int, hi: int, lo2: int, hi2: int)
    requires Within(xs, lo, hi) && lo2 <= lo && hi <= hi2
    ensures Within(xs, lo2, hi2)
  {
  }

  /** While the content length is not exceeded the download percentages
      stay between 10 and 70 and never go down. */
  lemma {:induction false} DownloadPercentsRange(chunks: seq<nat>, total: Pos, downloaded: nat)
    requires downloaded + Sum(chunks) <= total
    ensures var r := DownloadPercents(chunks, total, downloaded);
      Ordered(r) && Within(r, DownloadPercent(downloaded, total), 70)
  {
    if chunks != [] {
      var d := downloaded + chunks[0];
      DownloadPercentsRange(chunks[1..], total, d);
      DownloadPercentBounds(downloaded, d, total);
      if chunks[0] != 0 {
        var rest := DownloadPercents(chunks[1..], total, d);
        Widen(rest, DownloadPercent(d, total), 70, DownloadPercent(downloaded, total), 70);
        Prepend(DownloadPercent(d, total), rest, DownloadPercent(downloaded, total), 70);
      }
    }
  }

  /** A content length smaller than what arrives pushes the figure past
      70: two bytes announced as one give 130. */
  lemma DownloadOvershoot()
    ensures DownloadPercents([2], 1, 0) == [130]
  {
    assert [2 as nat][1..] == [];
    assert DownloadPercent(2, 1) == 130;
  }

  /** What the network does for one download. `total` is `None` when the
      content length is not a number. */
  datatype Transfer = Transfer(reachable: bool, total: Option<int>, chunks: seq<nat>, completes: bool,
                               extracted: bool)

  /** `_download_ffmpeg`, as a value: the saved file, or `None` when a
      step raised, and the percentages reported. */
  function Fetch(inst: Installer, url: string, t: Transfer, hasCallback: bool)
    : (r: (Option<string>, seq<int>))
  {
    if !t.reachable || DownloadName(inst, url).None? || t.total.None? then (None, [])
    else
      var reports := if hasCallback && t.total.value > 0 then DownloadPercents(t.chunks, t.total.value, 0) else [];
      (if t.completes then Some(FfmpegManager.InDir(inst.ffmpegDir, DownloadName(inst, url).value)) else None,
       reports)
  }

  /** `_download_ffmpeg`: the request, the file name, the content length,
      then the chunk loop. */
  method DownloadFfmpeg(inst: Installer, url: string, t: Transfer, hasCallback: bool)
    returns (path: Option<string>, reports: seq<int>)
    ensures path == Fetch(inst, url, t, hasCallback).0
    ensures reports == Fetch(inst, url, t, hasCallback).1
  {
    if !t.reachable {
      return None, [];
    }
    var name := DownloadName(inst, url);
    if name.None? || t.total.None? {
      return None, [];
    }
    reports := ReceiveChunks(t.chunks, t.total.value, hasCallback);
    path := if t.completes then Some(FfmpegManager.InDir(inst.ffmpegDir, name.value)) else None;
  }

  /** The chunk loop of `_download_ffmpeg`: empty chunks are skipped, and
      after every other one the running figure is reported when there is a
      callback and a positive content length. */
  method ReceiveChunks(chunks: seq<nat>, total: int, hasCallback: bool) returns (reports: seq<int>)
    ensures hasCallback && total > 0 ==> reports == DownloadPercents(chunks, total, 0)
    ensures !(hasCallback && total > 0) ==> reports == []
  {
    var downloaded: nat := 0;
    reports := [];
    var i := 0;
    while i < |chunks|
      invariant 0 <= i <= |chunks|
      invariant !(hasCallback && total > 0) ==> reports == []
      invariant hasCallback && total > 0 ==>
        reports + DownloadPercents(chunks[i..], total, downloaded) == DownloadPercents(chunks, total, 0)
    {
      var chunk := chunks[i];
      assert chunks[i..] == [chunk] + chunks[i + 1..];
      if chunk > 0 {
        downloaded := downloaded + chunk;
        if hasCallback && total > 0 {
          reports := reports + [DownloadPercent(downloaded, total)];
        }
      }
      i := i + 1;
    }
    assert chunks[i..] == [];
    assert reports + [] == reports;
  }

  // ---------------------------------------------------------------------
  // Installing

  /** `_extract_and_install`'s dispatch on the table's type; the result of
      the zip or tar step is an observation. */
  function ExtractAndInstall(kind: string, extracted: bool): (r: bool)
    ensures r ==> kind == "zip" || kind == "tar.xz"
    ensures kind == "zip" || kind == "tar.xz" ==> r == extracted
  {
    if kind == "zip" then extracted
    else if kind == "tar.xz" then extracted
    else false
  }

  /** The message `install_ffmpeg` returns. */
  datatype Message = Unsupported(system: string) | DownloadFailed | ExtractFailed | Installed

  /** `install_ffmpeg`, as a value: success, message and the percentages
      reported. */
  function Install(inst: Installer, t: Transfer, hasCallback: bool): (bool, Message, seq<int>) {
    if inst.downloadUrls.None? then (false, Unsupported(inst.system), [])
    else
      var d := inst.downloadUrls.value;
      var start := if hasCallback then [10] else [];
      var fetched := Fetch(inst, d.url, t, hasCallback);
      if fetched.0.None? then (false, DownloadFailed, start + fetched.1)
      else
        var unpacking := start + fetched.1 + (if hasCallback then [70] else []);
        if ExtractAndInstall(d.kind, t.extracted) then
          (true, Installed, unpacking + (if hasCallback then [100] else []))
        else (false, ExtractFailed, unpacking)
  }

  /** `install_ffmpeg`: unsupported systems stop before any download;
      then 10, the download, 70, the extraction and 100. */
  method InstallFfmpeg(inst: Installer, t: Transfer, hasCallback: bool)
    returns (ok: bool, message: Message, progress: seq<int>)
    ensures (ok, message, progress) == Install(inst, t, hasCallback)
  {
    if inst.downloadUrls.None? {
      return false, Unsupported(inst.system), [];
    }
    var d := inst.downloadUrls.value;
    progress := if hasCallback then [10] else [];
    var path, reports := DownloadFfmpeg(inst, d.url, t, hasCallback);
    progress := progress + reports;
    if path.None? {
      return false, DownloadFailed, progress;
    }
    var unpacking := progress + (if hasCallback then [70] else []);
    progress := unpacking;
    var success := ExtractAndInstall(d.kind, t.extracted);
    if success {
      progress := progress + (if hasCallback then [100] else []);
      return true, Installed, progress;
    }
    return false, ExtractFailed, progress;
  }

  /** The stages a run with a callback reports around download figures
      within 10..70: each prefix it can stop at is ordered, within
      10..100, and only the full one ends at 100. */
  lemma Stages(reports: seq<int>)
    requires Ordered(reports) && Within(reports, 10, 70)
    ensures Ordered([10] + reports) && Within([10] + reports, 10, 100)
    ensures Ordered([10] + reports + [70]) && Within([10] + reports + [70], 10, 100)
    ensures Ordered([10] + reports + [70] + [100]) && Within([10] + reports + [70] + [100], 10, 100)
    ensures ([10] + reports)[|[10] + reports| - 1] <= 70
  {
    Prepend(10, reports, 10, 70);
    var stages := [10] + reports;
    assert stages[|stages| - 1] <= 70;
    Append(stages, 70, 10, 70);
    Widen(stages, 10, 70, 10, 100);
    Widen(stages + [70], 10, 70, 10, 100);
    Append(stages + [70], 100, 10, 100);
  }

  /** The download figures of a transfer whose content length is not
      exceeded are ordered and within 10..70. */
  lemma FetchFigures(inst: Installer, url: string, t: Transfer)
    requires t.total.Some? && t.total.value > 0 ==> Sum(t.chunks) <= t.total.value
    ensures Ordered(Fetch(inst, url, t, true).1) && Within(Fetch(inst, url, t, true).1, 10, 70)
  {
    var reports := Fetch(inst, url, t, true).1;
    if reports != [] {
      DownloadPercentsRange(t.chunks, t.total.value, 0);
      assert DownloadPercent(0, t.total.value) == 10;
    }
  }

  /** Success is exactly the `Installed` message; an unsupported system
      stops before any download and reports nothing; without a callback
      nothing is reported. */
  lemma InstallOutcome(inst: Installer, t: Transfer, hasCallback: bool)
    ensures var r := Install(inst, t, hasCallback);
      && (r.0 <==> r.1 == Installed)
      && (inst.downloadUrls.None? ==> r.2 == [] && r.1 == Unsupported(inst.system))
      && (!hasCallback ==> r.2 == [])
  {
    var r := Install(inst, t, hasCallback);
    if inst.downloadUrls.Some? && !hasCallback {
      var f := Fetch(inst, inst.downloadUrls.value.url, t, false);
      assert f.1 == [];
      assert r.2 == [];
    }
  }

  /** With a callback and a content length the download does not exceed,
      the percentages of a supported system start at 10, never go down,
      stay within 10..100, and reach 100 exactly on success. */
  lemma InstallProgress(inst: Installer, t: Transfer)
    requires inst.downloadUrls.Some?
    requires t.total.Some? && t.total.value > 0 ==> Sum(t.chunks) <= t.total.value
    ensures var r := Install(inst, t, true);
      && r.2 != [] && r.2[0] == 10
      && Within(r.2, 10, 100)
      && Ordered(r.2)
      && (r.2[|r.2| - 1] == 100 <==> r.0)
  {
    var r := Install(inst, t, true);
    var d := inst.downloadUrls.value;
    var f := Fetch(inst, d.url, t, true);
    FetchFigures(inst, d.url, t);
    Stages(f.1);
    if f.0.None? {
      assert r.2 == [10] + f.1;
    } else if ExtractAndInstall(d.kind, t.extracted) {
      assert r.2 == [10] + f.1 + [70] + [100];
    } else {
      assert r.2 == [10] + f.1 + [70];
    }
  }
}
