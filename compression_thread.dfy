/** The background job (app/core/compression_thread.py): it stores a job's
    parameters, checks them, settles the output name on ".mp4", runs the
    compressor and turns what the compressor's callbacks hear into the
    signals the window listens to. Signals are appended to a log in the
    order they are emitted. */
module CompressionJob {
  import opened Text
  import Paths
  import opened Presets
  import opened Telemetry
  import opened Compressor

  /** Why the job reports an error. */
  datatype Complaint =
    | Incomplete                    // an empty input or output path
    | Crashed                       // an exception escaped `run`
    | Relayed(failure: Failure)     // the compressor's error callback

  datatype Signal =
    | ProgressUpdated(percent: int, report: Report)
    | CompressionFinished(success: bool, path: string)
    | CompressionError(complaint: Complaint)

  /** `_on_progress`: an indeterminate progress is sent as -1, any other
      is sent as it is. */
  function OnProgress(progress: Option<int>): (r: int)
    ensures progress.None? ==> r == -1
    ensures progress.Some? ==> r == progress.value
  {
    if progress.Some? then progress.value else -1
  }

  /** The percentage a report carries to the callback. */
  function ReportProgress(r: Report): Option<int> {
    match r
    case Starting => Some(0)
    case Progressed(e) => e.progress
    case Completed => Some(100)
  }

  /** A non-negative percentage and an indeterminate one never look alike
      once forwarded. */
  lemma OnProgressDistinct(a: Option<int>, b: Option<int>)
    requires a.Some? ==> a.value >= 0
    requires b.Some? ==> b.value >= 0
    ensures OnProgress(a) == OnProgress(b) <==> a == b
  {
  }

  /** A negative `out_time_us` gives a negative percentage, which is sent
      unchanged: one second before the start of a 100-second input is
      sent as -1, the same number as an indeterminate progress. */
  lemma NegativeTimeLooksIndeterminate()
    ensures OnProgress(Some(Percent(-1000000, Seconds(100, 1)))) == OnProgress(None) == -1
  {
    assert TruncDiv(-100000000, 100000000) == -1;
  }

  /** The signals the job's callbacks send, in order: every report, then
      every error. */
  function Relay(reports: seq<Report>, failures: seq<Failure>): (r: seq<Signal>)
    ensures |r| == |reports| + |failures|
    ensures forall i :: 0 <= i < |reports| ==>
      r[i] == ProgressUpdated(OnProgress(ReportProgress(reports[i])), reports[i])
    ensures forall i :: 0 <= i < |failures| ==> r[|reports| + i] == CompressionError(Relayed(failures[i]))
  {
    seq(|reports|, i requires 0 <= i < |reports| =>
          ProgressUpdated(OnProgress(ReportProgress(reports[i])), reports[i]))
    + seq(|failures|, i requires 0 <= i < |failures| => CompressionError(Relayed(failures[i])))
  }

  /** The output path `run` settles on: kept when it ends in ".mp4" (letter
      case counts), otherwise given the suffix ".mp4"; `None` when
      `with_suffix` raises for a path with an empty name. */
  function Mp4Output(p: string): (r: Option<string>)
    ensures EndsWith(p, ".mp4") ==> r == Some(p)
    ensures !EndsWith(p, ".mp4") ==> r == Paths.WithSuffix(p, ".mp4")
  {
    if EndsWith(p, ".mp4") then Some(p) else Paths.WithSuffix(p, ".mp4")
  }

  /** Whatever path the job settles on ends in ".mp4" and has exactly the
      suffix ".mp4", and settling again keeps it. */
  lemma Mp4OutputSettles(p: string)
    requires Mp4Output(p).Some?
    ensures var r := Mp4Output(p).value;
      && EndsWith(r, ".mp4")
      && (!EndsWith(p, ".mp4") ==> Paths.Suffix(r) == ".mp4")
      && Mp4Output(r) == Some(r)
  {
    if !EndsWith(p, ".mp4") {
      Paths.WithSuffixMp4(p);
    }
  }

  /** "out.MP4" becomes "out.mp4": the check is case-sensitive and the
      old suffix is replaced. */
  lemma Mp4OutputUpperCase()
    ensures Mp4Output("out.MP4") == Some("out.mp4")
  {
    Paths.BareName("out.MP4", 3);
    assert "out.MP4"[3..] == ".MP4";
    assert !EndsWith("out.MP4", ".mp4") by { assert "out.MP4"[4] != ".mp4"[1]; }
    Paths.WithSuffixOfPart("out.MP4", ".mp4");
    assert "out.MP4"[..3] + ".mp4" == "out.mp4";
  }

  /** "clip" becomes "clip.mp4": a missing suffix is appended. */
  lemma Mp4OutputAppends()
    ensures Mp4Output("clip") == Some("clip.mp4")
  {
    Paths.BareName("clip", -1);
    Paths.WithSuffixOfPart("clip", ".mp4");
    assert "clip"[..4] + ".mp4" == "clip.mp4";
  }

  /** "/" has no name, so `with_suffix` raises. */
  lemma Mp4OutputRoot()
    ensures Mp4Output("/") == None
  {
    assert "/"[1..] == "";
    assert Paths.Split("/") == ["", ""];
    assert Paths.Parts("/") == [];
  }

  /** The last signal of a run that reached the compressor: success with
      the output's `str(Path(...))` only when the compressor succeeded
      and the file exists. */
  function Announce(ok: bool, outputExists: bool, outputFile: string): (r: Signal)
    ensures r.CompressionFinished?
    ensures r.success <==> ok && outputExists
    ensures !r.success ==> r.path == ""
  {
    if ok && outputExists then CompressionFinished(true, Paths.Normalize(outputFile))
    else CompressionFinished(false, "")
  }

  /** The settings a new thread starts with: an empty dictionary. */
  const NoSettings := Settings(None, None, None, None, None, None, Resolution(None, None), None, None)

  /** `CompressionThread`. */
  class CompressionThread {
    var inputFile: string
    var outputFile: string
    var settings: Settings
    var isRunning: bool
    var signals: seq<Signal>

    constructor ()
      ensures inputFile == "" && outputFile == "" && settings == NoSettings
      ensures !isRunning && signals == []
    {
      inputFile := "";
      outputFile := "";
      settings := NoSettings;
      isRunning := false;
      signals := [];
    }

    /** `setup_compression`: the settings are a value, so the job keeps
        them as they are now, whatever the caller does with its own. */
    method SetupCompression(input: string, output: string, s: Settings)
      modifies this
      ensures inputFile == input && outputFile == output && settings == s
      ensures isRunning == old(isRunning) && signals == old(signals)
    {
      inputFile := input;
      outputFile := output;
      settings := s;
    }

    /** `run`: incomplete parameters are reported and the compressor is
        never called; otherwise the output path is settled on ".mp4", the
        compressor runs with both callbacks, and the result is announced.
        The job is running while `run` works and not afterwards. */
    method Run(compressor: VideoCompressor, store: PresetStore, env: Environment)
      requires store.Valid()
      modifies this, compressor, store
      ensures store.Valid()
      ensures !isRunning
      ensures inputFile == old(inputFile) && settings == old(settings)
      ensures old(inputFile) == "" || old(outputFile) == "" ==>
        && signals == old(signals) + [CompressionError(Incomplete)]
        && outputFile == old(outputFile) && unchanged(compressor) && unchanged(store)
      ensures old(inputFile) != "" && old(outputFile) != "" && Mp4Output(old(outputFile)).None? ==>
        && signals == old(signals) + [CompressionError(Crashed)]
        && outputFile == old(outputFile) && unchanged(compressor) && unchanged(store)
      ensures old(inputFile) != "" && old(outputFile) != "" && Mp4Output(old(outputFile)).Some? ==>
        var (ok, reports, failures) := Job(env, inputFile, true, true);
        && outputFile == Mp4Output(old(outputFile)).value
        && signals == old(signals) + Relay(reports, failures) + [Announce(ok, env.outputExists, outputFile)]
    {
      isRunning := true;
      if inputFile == "" || outputFile == "" {
        signals := signals + [CompressionError(Incomplete)];
        isRunning := false;
        return;
      }
      if !EndsWith(outputFile, ".mp4") {
        var renamed := Paths.WithSuffix(outputFile, ".mp4");
        if renamed.None? {
          signals := signals + [CompressionError(Crashed)];
          isRunning := false;
          return;
        }
        outputFile := renamed.value;
      }
      var ok, reports, failures := compressor.CompressVideo(store, env, inputFile, outputFile, settings, true, true);
      signals := signals + Relay(reports, failures) + [Announce(ok, env.outputExists, outputFile)];
      isRunning := false;
    }

    /** `stop_compression`: only a running job cancels the compressor. */
    method StopCompression(compressor: VideoCompressor)
      modifies compressor
      ensures isRunning ==> compressor.isCancelling && !compressor.IsCompressionRunning()
      ensures !isRunning ==> unchanged(compressor)
    {
      if isRunning {
        compressor.CancelCompression();
      }
    }
  }

  /** A run that reaches the compressor ends with exactly one
      `compression_finished`, whose success means the compressor succeeded
      and the output exists; an error signal and success exclude each
      other, and no forwarded percentage is above 100. */
  lemma RunAnnouncement(env: Environment, inputFile: string, outputFile: string)
    ensures var (ok, reports, failures) := Job(env, inputFile, true, true);
      var sig := Relay(reports, failures) + [Announce(ok, env.outputExists, outputFile)];
      && sig[|sig| - 1].CompressionFinished?
      && (forall i :: 0 <= i < |sig| - 1 ==> !sig[i].CompressionFinished?)
      && (sig[|sig| - 1].success <==>
            env.available && env.inputExists && env.outputExists
            && Watcher(env.polls, Watch(env.start, "", []), false, VideoDuration(env.probeText), true).0
               == Exited(0))
      && (sig[|sig| - 1].success ==> forall i :: 0 <= i < |sig| ==> !sig[i].CompressionError?)
      && (forall i :: 0 <= i < |sig| && sig[i].ProgressUpdated? ==> sig[i].percent <= 100)
  {
    JobProperties(env, inputFile, true, true);
    var (ok, reports, failures) := Job(env, inputFile, true, true);
    var sig := Relay(reports, failures) + [Announce(ok, env.outputExists, outputFile)];
    forall i | 0 <= i < |sig| && sig[i].ProgressUpdated?
      ensures sig[i].percent <= 100
    {
      assert i < |reports|;
      assert reports[i] in reports;
    }
  }
}
