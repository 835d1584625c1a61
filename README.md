# video-compressor, modelled in Dafny

This project models the logic at the heart of video-compressor, a desktop
front end that compresses videos with ffmpeg. It covers six parts:

- **Preset catalog and argument builder.** Five named quality presets, plus
  the resolution and frame-rate tables. `get_preset` falls back to
  "standard" for unknown names and returns a shallow copy, so every copy
  shares the nested `video` and `audio` dictionaries of its catalog entry.
  `validate_preset` is modelled over loosely typed values. `get_ffmpeg_args`
  is modelled on tagged tokens (option, value, raw filter, path), and the
  strings handed to ffmpeg are those tokens rendered.
- **The compressor.**
  - The overrides that `_build_ffmpeg_command` writes into the shared preset
    blocks, and the command it wraps around `args[2:-1]`.
  - The duration pattern in the probe's text, and the three-way
    classification of `-progress` lines.
  - The clock format of status messages and the output-size estimate.
  - The watch loop as a function over a run of observations. Each
    observation says whether a cancel was asked for, the exit code, the
    clock and the line read. The loop decides in this order: cancel, exit,
    stall, read. A method with a `while` loop and its invariants is proved
    equal to that function.
  - `compress_video`, `cancel_compression` and `is_compression_running`
    on a `VideoCompressor` object.
- **The background job.** It stores its parameters, rejects incomplete ones,
  settles the output name on ".mp4", forwards indeterminate progress as -1
  and announces the result as a log of signals.
- **The file picker.** Acceptance by the lower-cased last suffix; the order
  of checks (exists, then format, then at most 2 GiB); the replaceable
  list of extensions.
- **The encoder manager.** Download-URL choice by system and processor,
  including aliases and the fallback; the order in which the PATH binary and
  the bundled binary are tried; the bundled binary's name; archive dispatch
  and the choice of member inside an archive.
- **The encoder installer.** Its URL table; where it expects the bundled
  binary and the opposite search order; the download's file name; the
  10–70 download percentages, computed by a chunk loop; the 10 / download /
  70 / 100 stage sequence; and dispatch on the archive type.

Numbers are unbounded integers. Seconds are exact fractions taken from the
digits of the duration pattern, and times are integer microseconds. Python's
`int()` truncation toward zero is written out (`Telemetry.TruncDiv`).
Processes, pipes, the clock, the file system and the network are values
handed in.

The model shows behaviour that the code has, even where a design reading
would expect otherwise.

- **`frame=` events.** A `frame=N` line (N > 0) yields an indeterminate event
  even when the duration is known.
- **Leaking overrides.** The overrides are written into the catalog's shared
  blocks, so a quality set by one job is still in effect for the next job
  on the same preset that sets none (`Compressor.OverrideOutlivesJob`).
  `create_custom_preset` likewise writes into the "custom" entry's blocks.
- **Repeated `-y`.** The final command carries "-y" twice, because
  `args[2:-1]` keeps the builder's trailing "-y".
- **Negative times.** A negative `out_time_us` yields a negative percentage
  that reaches the job unchanged. The job forwards an indeterminate event
  as -1, so a time of -1 s on a 100 s file looks the same
  (`CompressionJob.NegativeTimeLooksIndeterminate`).
- **Installer and manager disagree.** On windows the installer looks for
  `bin/ffmpeg.exe` but the manager looks for `ffmpeg.exe`. The installer
  tries the bundled binary first, the manager the PATH binary first. The
  installer always picks the 64-bit download, even on 32-bit processors.
- **Aliases that fall back.** The manager's `aarch64` alias finds no `arm64`
  entry on linux and falls back to the amd64 download. `amd64` on windows
  falls back to the x64 download because the windows table has no `x86_64`
  key.
- **Timeouts.** In `is_ffmpeg_installed`, a `which` that times out makes the
  answer "not installed", even though `ffmpeg -version` succeeded.
- **Percent overshoot.** Download percentages go above 70 when the
  advertised content length is smaller than the data received.

## Model

| member | source | states |
|---|---|---|
| Presets.GetPresetFallback | app/core/compression_presets.py:207-232 | A known name gives its own entry. Any other name gives exactly what "standard" gives, for both the preset copy and the display info. The display info agrees with the copy's fields. |
| Presets.TableEntries | app/core/compression_presets.py:141-158 | In the resolution and frame-rate tables, only the "original" entries leave the size or the rate unset. |
| Presets.PresetStore.constructor | app/core/compression_presets.py:14-139 | The shared blocks start as the catalog's video and audio blocks, one pair per entry. |
| Presets.PresetStore.View | app/core/compression_presets.py:207-210 | A shallow copy reads its own top-level fields and the current contents of the blocks of the entry it was copied from. |
| Presets.PresetStore.CreateCustomPreset | app/core/compression_presets.py:234-243 | The result is the "custom" copy with a new name and description. The updates are written into the "custom" entry's shared blocks, so later copies of "custom" see the same blocks. No other entry changes. |
| Presets.UpdateIdempotent | app/core/compression_presets.py:241-242 | `dict.update` with the same keys twice equals once, and an empty update changes nothing. |
| Presets.AllInDict | app/core/compression_presets.py:250-261 | `all(key in d ...)` over a dictionary is true exactly when every key is present. |
| Presets.ValidateIff | app/core/compression_presets.py:245-263 | When the blocks are dictionaries, `validate_preset` is true exactly when the three top-level keys, the three video keys and the two audio keys are present. Both directions. |
| Presets.CatalogValid | app/core/compression_presets.py:14-139 | Every preset record, and so every catalog entry, validates. Only "web_optimized" has filters, and only it has a tune. |
| Presets.VideoTokenFlags | app/core/compression_presets.py:273-288 | The video block's options are "-c:v", "-crf" and "-preset" in that order, then "-profile:v", "-level", "-pix_fmt" and "-tune" in that order, each only when its value is truthy. |
| Presets.AudioTokenFlags | app/core/compression_presets.py:298-310 | The option names of the audio section. With audio kept: "-c:a", "-b:a", then "-ar" and "-ac" when truthy. Otherwise just "-an". The values that follow each name are stated by Presets.AudioBlock. |
| Presets.ResolutionFlags | app/core/compression_presets.py:290-292 | "-s" appears exactly when a size with both components non-zero is given. |
| Presets.FramerateFlags | app/core/compression_presets.py:294-296 | "-r" appears exactly when a non-zero rate is given. |
| Presets.FilterTokensNoFlags | app/core/compression_presets.py:312-314 | Preset filters are passed through verbatim and add no option of the builder's own. |
| Presets.LeadFlags | app/core/compression_presets.py:270-310 | The options before the filters are "-i", the video block, "-s", "-r", then the audio section, in that order. |
| Presets.ArgFlags | app/core/compression_presets.py:266-319 | The whole argument list's options, in order: "-i", video block, optional "-s", optional "-r", audio section, "-y". |
| Presets.VideoFlagCount | app/core/compression_presets.py:273-288 | Counted: exactly one "-c:v", "-crf" and "-preset", plus each optional video option once when truthy. |
| Presets.AudioFlagCount | app/core/compression_presets.py:298-310 | Counted: one "-c:a" and one "-b:a" (plus the optional two), or one "-an". |
| Presets.ArgFlagMultiset | app/core/compression_presets.py:266-319 | The options of the list, counted, are "-i", "-y" and the counts of each section. |
| Presets.ArgFlagCountAt | app/core/compression_presets.py:266-319 | How often any given option occurs, section by section. |
| Presets.AudioOptionsExclusive | app/core/compression_presets.py:298-310 | Across the whole argument list, with audio kept: one "-c:a", one "-b:a" and no "-an". Otherwise: exactly one "-an" and neither of the others. The two are never both present and never both absent. The codec and bitrate values and their place are stated by Presets.AudioBlock and Presets.AudioPlacement. |
| Presets.AudioCount | app/core/compression_presets.py:298-310 | The count of each of "-an", "-c:a" and "-b:a" as a function of `keep_audio`. |
| Presets.AudioBlock | app/core/compression_presets.py:298-310 | With audio kept, the section is exactly "-c:a" and the preset's codec, "-b:a" and its bitrate, then "-ar" with the sample rate and "-ac" with the channel count, each only when truthy. Otherwise it is "-an" alone. |
| Presets.AudioPlacement | app/core/compression_presets.py:289-317 | The audio section directly follows the input pair, the video block and the optional "-s" and "-r" pairs. Exactly the filters, "-y" and the output come after it. "-s" and "-r" take two elements each when present. |
| Presets.ArgTokensSplit | app/core/compression_presets.py:266-319 | The argument list is everything before the audio section, then the section, then the filters, "-y" and the output. |
| Presets.OptionalOptionsPresent | app/core/compression_presets.py:287-296 | "-tune", "-s" and "-r" each occur once when their value is truthy and never otherwise. "-i" and "-y" occur exactly once. With `tune=None` there is no "-tune". |
| Presets.OptionalCount | app/core/compression_presets.py:287-296 | The count of each of "-tune", "-s", "-r", "-i" and "-y". |
| Presets.ArgsFrame | app/core/compression_presets.py:266-319 | The arguments begin with ["-i", input] and end with ["-y", output], with the preset's filters verbatim and in order just before "-y". |
| Presets.ArgTokensFrame | app/core/compression_presets.py:270-317 | The same frame, stated on the tagged tokens. |
| Presets.ResolutionAndRateValues | app/core/compression_presets.py:290-299 | With a size and a rate, "-s WxH -r fps" sit right after the whole video block and right before the audio section's first option. |
| Presets.SizeRateTokens | app/core/compression_presets.py:290-299 | The same placement, on the tokens. |
| Compressor.CustomResolution | app/core/video_compressor.py:109-112 | A size reaches the builder exactly when width and height are both truthy, and then it is (width, height). |
| Compressor.OverrideScope | app/core/video_compressor.py:93-106 | The overrides change only quality, codec and speed of the video block and bitrate and codec of the audio block, each only when the setting is truthy. Applying them again changes nothing. |
| Compressor.Inner | app/core/video_compressor.py:138 | Python's `args[2:-1]`, including the short-list case. |
| Compressor.BuildFfmpegCommand | app/core/video_compressor.py:86-143 | The shared blocks of the chosen entry receive the overrides and nothing else changes. The command is the wrapped builder output for the overridden preset. |
| Compressor.ApplyOverrides | app/core/video_compressor.py:93-106 | Exactly the two shared blocks of entry k are rewritten by the guarded writes. |
| Compressor.CommandText | app/core/video_compressor.py:135-141 | The command is [path, "-y", "-i", input] + args[2:-1] + ["-progress", "pipe:2", "-stats", output]. |
| Compressor.CommandShape | app/core/video_compressor.py:135-141 | The command is five longer than the builder's list; it opens with [path, "-y", "-i", input]; the output is last; the builder's "-y" is kept just before "-progress". |
| Compressor.WrapShape | app/core/video_compressor.py:135-141 | The same shape for any list that opens with the input and closes with "-y" and the output. |
| Compressor.VideoHead | app/core/compression_presets.py:273-276 | The video block always begins "-c:v codec -crf str(crf) -preset speed". |
| Compressor.ArgsVideoHead | app/core/compression_presets.py:270-276 | The video block's first six elements follow the input pair in the argument list. |
| Compressor.TokensVideoHead | app/core/compression_presets.py:270-276 | The same, on the tokens. |
| Compressor.CommandVideoHead | app/core/video_compressor.py:93-100 | In the command, the codec, quality and speed are the truthy settings, and otherwise the preset's values. |
| Compressor.CommandAudioHead | app/core/video_compressor.py:101-105 | In the command, after the video block and the size and rate options, come "-c:a" with the user's codec and "-b:a" with the user's bitrate where those are truthy, and the preset's values otherwise. When audio is dropped, "-an" comes there instead. |
| Compressor.CommandAudioAt | app/core/video_compressor.py:121-141 | For any preset, the command carries that preset's audio codec and bitrate at the same place, or "-an". |
| Compressor.WrapSpans | app/core/video_compressor.py:135-141 | Any slice of the builder's list between the input pair and the closing "-y" and output keeps its content in the command, two places further on. |
| Compressor.CommandCountAt | app/core/video_compressor.py:135-141 | The command's option counts are the builder's plus one "-y", one "-progress" and one "-stats". |
| Compressor.CommandFlagCounts | app/core/video_compressor.py:108-141 | "-y" occurs twice and "-i" once. "-s" occurs only for a truthy width and height, "-r" only for a truthy rate, and "-tune" only for a truthy tune. Audio is kept unless `keep_audio` is set false: its default is true. |
| Compressor.TableEntriesInCommand | app/core/video_compressor.py:108-116 | Choosing a table entry puts exactly one "-s" (or "-r") in the command, except for the "original" entries, which put none. |
| Compressor.OverrideOutlivesJob | app/core/video_compressor.py:89-106 | After one job sets a quality, a later job on the same preset that sets none runs with the first job's quality and not the catalog's. |
| Compressor.LeakedQuality | app/core/video_compressor.py:89-106 | Over-written blocks show the earlier quality in the later command. |
| Compressor.Absorb | app/core/video_compressor.py:243-251 | A parsed progress event is appended and restarts the timer. A complaining line joins the error text with a newline. |
| Compressor.ReadStepTimer | app/core/video_compressor.py:242-251 | The timer restarts exactly on lines that parse as progress, and events only grow. |
| Compressor.QuietRunStalls | app/core/video_compressor.py:221-235 | With no cancel, no exit and no progress line, the loop ends as a stall once more than 300 s pass. |
| Compressor.NoCallbackStalls | app/core/video_compressor.py:230-235 | Without a progress callback no line resets the timer, so a job that has not exited stalls after 300 s. |
| Compressor.WatcherGrows | app/core/video_compressor.py:221-278 | The loop only appends to the events and to the error text, and every percentage it reports is at most 100. |
| Compressor.NoCallbackNoEvents | app/core/video_compressor.py:306-310 | Without a progress callback the loop reports no event. |
| Compressor.Verdict | app/core/video_compressor.py:280-299 | Success exactly for exit code 0. There is at most one error report, and only with an error callback. With one, any other exit code reports the code and the stripped error text, and a stall reports the timeout. A cancel reports nothing. |
| Compressor.EstimateOutputSize | app/core/video_compressor.py:391-412 | An estimate exists exactly when the size is known. It lies between size/10 and size, and for "custom" it is size // 2. |
| Compressor.HintBounded | app/core/video_compressor.py:397-408 | Every catalog hint is a percentage of at most 100, except "custom", which has none. The estimate stays within size/10 and size. |
| Compressor.EstimateExamples | app/core/video_compressor.py:397-408 | 1e9 bytes with "high_compression" gives 3e8. An unknown preset uses "standard"'s 50%. |
| Compressor.ReportLogSound | app/core/video_compressor.py:65-77 | The progress callback hears 0% first and 100% exactly on success, and no percentage above 100. Without a callback it hears nothing. |
| Compressor.JobRuns | app/core/video_compressor.py:44-79 | With ffmpeg available and the input present, the job is the loop's outcome and verdict, framed by the 0% and 100% reports. |
| Compressor.JobProperties | app/core/video_compressor.py:44-84 | Success holds exactly when ffmpeg is available, the input exists and the loop saw exit code 0. Success implies no error report. There is at most one error report, and only with an error callback. 100% is reported exactly on success with a progress callback, and 0% comes first. No percentage exceeds 100. |
| Compressor.VideoCompressor.constructor | app/core/video_compressor.py:20-23 | No process and not cancelling. |
| Compressor.VideoCompressor.IsCompressionRunning | app/core/video_compressor.py:385-389 | Running implies not cancelling. |
| Compressor.VideoCompressor.CancelCompression | app/core/video_compressor.py:373-383 | Sets the cancelling flag and terminates a running process, so nothing counts as running afterwards. |
| Compressor.VideoCompressor.MonitorProgress | app/core/video_compressor.py:211-304 | The `while` loop computes what `Watcher` specifies, and its result is `Verdict`. A cancel or a stall leaves the object cancelling with the process terminated. An exit records the code. |
| Compressor.VideoCompressor.ExecuteCompression | app/core/video_compressor.py:184-209 | The cancelling flag is cleared before the loop runs, so an earlier cancel does not carry over. |
| Compressor.VideoCompressor.CompressVideo | app/core/video_compressor.py:25-84 | The result and what both callbacks hear are `Job`. A missing ffmpeg or input leaves the presets and the object untouched. Otherwise the overrides land in the shared blocks. |
| Telemetry.TruncDiv | app/core/video_compressor.py:321 | Python's `int(x / y)` for a positive divisor: truncation toward zero for either sign of x. |
| Telemetry.NoMarkerNoDuration | app/core/video_compressor.py:164-175 | Text without "Duration: " gives no match, so the duration is 0 (unknown). |
| Telemetry.SkipToMarker | app/core/video_compressor.py:164 | Text without a 'D', which cannot start a match, does not change the search result. |
| Telemetry.DurationRoundTrip | app/core/video_compressor.py:164-171 | "Duration: HH:MM:SS.cc", after text without a 'D' and before a non-digit, reads back as h*3600 + m*60 + s + cc/100 seconds. |
| Telemetry.DurationOfFields | app/core/video_compressor.py:164-169 | Any two-digit fields parse to the corresponding number of hundredths of a second. |
| Telemetry.FormatTimeFields | app/core/video_compressor.py:362-371 | The clock is MM:SS below one hour and HH:MM:SS from one hour on. Minutes and seconds are below 60. |
| Telemetry.FormatTimeRoundTrip | app/core/video_compressor.py:362-371 | Reading the clock back gives the whole number of seconds formatted. |
| Telemetry.Percent | app/core/video_compressor.py:319-321 | The percentage never exceeds 100. |
| Telemetry.PercentNonNegative | app/core/video_compressor.py:321 | A non-negative time gives a non-negative percentage. |
| Telemetry.PercentMonotonic | app/core/video_compressor.py:321 | A later time never gives a smaller percentage. |
| Telemetry.PercentComplete | app/core/video_compressor.py:321 | A time at or past the duration gives exactly 100. |
| Telemetry.PercentWholeMicros | app/core/video_compressor.py:316-321 | For a duration in whole microseconds the percentage is min(100, 100*t // d). |
| Telemetry.OutTimeEvent | app/core/video_compressor.py:313-335 | A time event carries a percentage only when the duration is known, and that percentage is at most 100. "N/A" or an empty value yields no event. |
| Telemetry.FrameEvent | app/core/video_compressor.py:338-345 | A frame event is indeterminate and carries a frame count above 0. |
| Telemetry.SpeedEvent | app/core/video_compressor.py:348-354 | A speed event is indeterminate and carries digits and dots that form a number. |
| Telemetry.EventPercentBounded | app/core/video_compressor.py:306-335 | Only `out_time_us=` lines with a known duration carry a percentage, and it is at most 100. Nothing is reported without a callback. |
| Telemetry.ClassificationOrder | app/core/video_compressor.py:313-356 | `out_time_us=` lines give time events only. `frame=` lines give frame events only. A speed event needs "speed=" in a line that is not a `frame=` line. |
| Telemetry.KeysExclusive | app/core/video_compressor.py:313-338 | No line starts with both keys. |
| Telemetry.OutTimeRoundTrip | app/core/video_compressor.py:313-335 | `out_time_us=<t>` gives the percentage and both clocks when the duration is known, and only the elapsed clock otherwise. |
| Telemetry.NotAvailableNoEvent | app/core/video_compressor.py:315 | `out_time_us=N/A` yields no event. |
| Telemetry.EmptyTimeNoEvent | app/core/video_compressor.py:315 | An empty `out_time_us=` yields no event. |
| Telemetry.FrameRoundTrip | app/core/video_compressor.py:338-345 | `frame=N` yields a frame event exactly when N > 0, whatever the duration. |
| Telemetry.SizeEstimateBounds | app/core/video_compressor.py:402-408 | The estimate is never below size // 10. For a hint of at most 100%, or none, it is never above the size. |
| Telemetry.CatalogHints | app/core/video_compressor.py:399-408 | The catalog hints read as 30, 50, 70 and 60, and "可变" reads as none. 1e9 bytes at 70% gives 3e8, and no hint gives size // 2. |
| Telemetry.PercentHint | app/core/video_compressor.py:402 | A two-digit hint "NN%" reads as NN. |
| Telemetry.NoHint | app/core/video_compressor.py:402-408 | "可变" has no digits before a percent sign. |
| Telemetry.RatioRoundTrip | app/core/video_compressor.py:402-404 | The first "N%" of a hint reads back as N. |
| CompressionJob.OnProgress | app/core/compression_thread.py:75-81 | An indeterminate progress is forwarded as -1, and any number unchanged. |
| CompressionJob.OnProgressDistinct | app/core/compression_thread.py:75-81 | For non-negative percentages the forwarding is one-to-one, indeterminate included. |
| CompressionJob.NegativeTimeLooksIndeterminate | app/core/compression_thread.py:77-81 | The -1% of a time of -1 s on a 100 s file is forwarded exactly as an indeterminate event is. |
| CompressionJob.Relay | app/core/compression_thread.py:49-55 | Every progress report becomes one `progress_updated`, in order, followed by one `compression_error` per error report. |
| CompressionJob.Mp4Output | app/core/compression_thread.py:45-46 | A path ending in ".mp4" (case-sensitive) is kept. Any other path goes through `with_suffix(".mp4")`. |
| CompressionJob.Mp4OutputSettles | app/core/compression_thread.py:45-46 | The settled path ends in ".mp4", its suffix is ".mp4" when renamed, and settling it again changes nothing. |
| CompressionJob.Mp4OutputUpperCase | app/core/compression_thread.py:45-46 | "out.MP4" becomes "out.mp4". |
| CompressionJob.Mp4OutputAppends | app/core/compression_thread.py:45-46 | "clip" becomes "clip.mp4". |
| CompressionJob.Mp4OutputRoot | app/core/compression_thread.py:45-46 | "/" has no name, so `with_suffix` raises. |
| CompressionJob.Announce | app/core/compression_thread.py:58-68 | `compression_finished` reports success exactly when the compressor succeeded and the output exists, and an empty path otherwise. |
| CompressionJob.CompressionThread.constructor | app/core/compression_thread.py:21-26 | Empty paths, empty settings, not running. |
| CompressionJob.CompressionThread.SetupCompression | app/core/compression_thread.py:28-32 | Stores both paths and a copy of the settings, so the caller's later top-level changes do not reach the job. Nothing else changes. |
| CompressionJob.CompressionThread.Run | app/core/compression_thread.py:34-73 | An empty input or output gives an error and never calls the compressor. A name `with_suffix` rejects gives an error. Otherwise the output is settled on ".mp4", the compressor runs and its callbacks are relayed, and the result is announced. The job is not running afterwards on every path. |
| CompressionJob.CompressionThread.StopCompression | app/core/compression_thread.py:87-94 | Only a running job cancels the compressor. Otherwise nothing changes. |
| CompressionJob.RunAnnouncement | app/core/compression_thread.py:49-68 | A run that reaches the compressor ends with exactly one `compression_finished`. Its success means the compressor succeeded and the output exists. Success excludes error signals, and no forwarded percentage exceeds 100. |
| FileDrop.LowerAll | app/widgets/file_drop_widget.py:199-201 | Every entry is lower-cased, in order. |
| FileDrop.LowerIdempotent | app/widgets/file_drop_widget.py:199-201 | Lower-casing twice equals lower-casing once. |
| FileDrop.LowerAllIdempotent | app/widgets/file_drop_widget.py:199-201 | Setting an already lower-cased list changes nothing. |
| FileDrop.FileDropWidget.constructor | app/widgets/file_drop_widget.py:24-28 | The list is exactly the nine default extensions, and nothing has been shown, selected or rejected. |
| FileDrop.FileDropWidget.HandleFileSelection | app/widgets/file_drop_widget.py:135-158 | A missing file is rejected first, an unsupported one second, and a file over 2 GiB third; exactly 2 GiB passes. Only a file that passes all checks is shown and emitted. |
| FileDrop.FileDropWidget.GetSupportedFormats | app/widgets/file_drop_widget.py:195-197 | Returns the list's elements, as a value that the caller cannot change the widget through. |
| FileDrop.FileDropWidget.SetSupportedFormats | app/widgets/file_drop_widget.py:199-201 | The list becomes the lower-cased entries, and nothing else changes. |
| FileDrop.SetFormatsAccepts | app/widgets/file_drop_widget.py:160-166 | After setting a list, a path is accepted exactly when it is non-empty and its lower-cased suffix equals some lower-cased entry. |
| FileDrop.EmptyPathRejected | app/widgets/file_drop_widget.py:160-163 | An empty path is never accepted. |
| FileDrop.UpperCaseSuffixAccepted | app/widgets/file_drop_widget.py:165-166 | "clip.MP4" is accepted by the default list. |
| FileDrop.LastSuffixCounts | app/widgets/file_drop_widget.py:165-166 | "a.mp4.bak" is rejected, because only the last suffix counts. |
| FileDrop.NoSuffixRejected | app/widgets/file_drop_widget.py:165-166 | A name without a suffix is rejected. |
| FileDrop.HiddenNameRejected | app/widgets/file_drop_widget.py:165-166 | ".mp4" alone has no suffix and is rejected. |
| FfmpegManager.Lookup | app/core/ffmpeg_manager.py:132-139 | A dictionary lookup finds a key's value, or none exactly when the key is absent. |
| FfmpegManager.Platforms | app/core/ffmpeg_manager.py:32-45 | The table has windows, darwin and linux and no other system. |
| FfmpegManager.GetDownloadUrl | app/core/ffmpeg_manager.py:130-153 | The early-return loop over the aliases computes `DownloadUrl`. |
| FfmpegManager.AliasUrlInTable | app/core/ffmpeg_manager.py:141-153 | For a non-empty platform table, the alias step always yields one of its URLs. |
| FfmpegManager.DownloadUrlChoice | app/core/ffmpeg_manager.py:130-153 | An unknown system gives none. A known system always gives one of its own URLs, and an exact processor key wins over the aliases. |
| FfmpegManager.UrlChoice | app/core/ffmpeg_manager.py:137-153 | Exact key, then alias, then the first entry: always an entry of the table. |
| FfmpegManager.ExactExamples | app/core/ffmpeg_manager.py:132-139 | windows/x86 gets the 32-bit zip, and freebsd gets none. |
| FfmpegManager.AliasApplies | app/core/ffmpeg_manager.py:142-150 | linux/amd64 maps to linux's x86_64 URL. |
| FfmpegManager.AliasFallsBackOnWindows | app/core/ffmpeg_manager.py:148-153 | windows/amd64 has no x86_64 key to alias to and falls back to the first URL, the x64 zip. |
| FfmpegManager.AliasArm | app/core/ffmpeg_manager.py:142-153 | darwin/aarch64 maps to arm64. linux/aarch64 falls back to the amd64 tarball. |
| FfmpegManager.CheckSystemFfmpeg | app/core/ffmpeg_manager.py:61-78 | A PATH binary is used exactly when `which` prints a non-empty path and that binary answers `-version`. |
| FfmpegManager.CheckEmbeddedFfmpeg | app/core/ffmpeg_manager.py:80-100 | The bundled binary is used exactly when it is usable, and then its path is the directory plus the binary's name. |
| FfmpegManager.PathPrecedence | app/core/ffmpeg_manager.py:47-59 | The PATH binary wins, then the bundled one, then none. |
| FfmpegManager.BinaryNames | app/core/ffmpeg_manager.py:82-85 | The bundled binary is "ffmpeg.exe" on windows and "ffmpeg" elsewhere. |
| FfmpegManager.FirstLine | app/core/ffmpeg_manager.py:244 | The version line is a prefix of the output without a newline. |
| FfmpegManager.GetFfmpegInfo | app/core/ffmpeg_manager.py:229-255 | Available exactly when a path exists and answers. "System" means the path differs from the bundled one. |
| FfmpegManager.IsSystemReport | app/core/ffmpeg_manager.py:229-250 | The bundled fallback reports not-system, a different PATH binary reports system, and neither reports unavailable. |
| FfmpegManager.ExtractorFor | app/core/ffmpeg_manager.py:164-175 | Zip exactly for a lower-cased last suffix ".zip". Tar exactly for ".tar" or ".xz". Nothing otherwise. |
| FfmpegManager.ZipMemberFirst | app/core/ffmpeg_manager.py:181-188 | The zip member chosen is the first non-directory name ending in "ffmpeg.exe" or "ffmpeg". There is none exactly when no name qualifies. |
| FfmpegManager.TarMemberFirst | app/core/ffmpeg_manager.py:208-215 | The tar member chosen is the first regular file whose name ends in "ffmpeg". There is none exactly when no member qualifies. |
| FfmpegManager.ExtractFfmpeg | app/core/ffmpeg_manager.py:164-227 | Dispatch by suffix, then the chosen member and the target name. An unknown suffix or no member gives failure. |
| FfmpegManager.ZipDispatch | app/core/ffmpeg_manager.py:167-168 | "x.zip" and "x.ZIP" go to zip. |
| FfmpegManager.TarXzDispatch | app/core/ffmpeg_manager.py:169-170 | "x.tar.xz" goes to tar. |
| FfmpegManager.TarGzDispatch | app/core/ffmpeg_manager.py:169-175 | "x.tar.gz" is not extracted. |
| FfmpegManager.ZipMemberExample | app/core/ffmpeg_manager.py:181-188 | Directories and other binaries are skipped. A list without a match gives none. |
| FfmpegInstaller.NewInstaller | app/core/ffmpeg_installer.py:22-30 | The system and processor names are lower-cased, and the table follows from them. |
| FfmpegInstaller.InstallerUrlsShape | app/core/ffmpeg_installer.py:32-56 | The table is empty exactly for systems other than darwin, windows and linux. The processor never matters, and the type names the archive the URL ends with. |
| FfmpegInstaller.UrlEndings | app/core/ffmpeg_installer.py:36-56 | The darwin and windows URLs end in ".zip", and the linux URL ends in ".tar.xz". |
| FfmpegInstaller.InstallerMatchesManager | app/core/ffmpeg_installer.py:36-56 | The installer's URLs are the manager's x64, x86_64 and arm64 URLs. |
| FfmpegInstaller.InstallerIgnores32Bit | app/core/ffmpeg_installer.py:46-56 | On 32-bit windows and linux the installer's URL differs from the manager's choice. |
| FfmpegInstaller.EmbeddedPath | app/core/ffmpeg_installer.py:88-95 | A path exactly when the file exists. |
| FfmpegInstaller.IsFfmpegInstalled | app/core/ffmpeg_installer.py:58-86 | Installed exactly when a path is given. The bundled binary is checked first. Otherwise the answer is installed only if `-version` succeeds and `which` does not time out; "system" is used when `which` finds nothing. |
| FfmpegInstaller.OppositePrecedence | app/core/ffmpeg_installer.py:58-63 | With both binaries present the installer reports the bundled one and the manager the PATH one. |
| FfmpegInstaller.EmbeddedPathsCompared | app/core/ffmpeg_installer.py:88-95 | Off windows both look in the same place. On windows the paths differ, with the same file name. |
| FfmpegInstaller.DownloadName | app/core/ffmpeg_installer.py:150-154 | The URL path's last component, or "ffmpeg_download.<type>" when it has none. Never empty. |
| FfmpegInstaller.HttpsPath | app/core/ffmpeg_installer.py:151 | `urlparse(...).path` of "https://host/path" is "/path". |
| FfmpegInstaller.NamedDownload | app/core/ffmpeg_installer.py:150-154 | A URL ending in "/file" is saved as "file". |
| FfmpegInstaller.UnnamedDownload | app/core/ffmpeg_installer.py:150-154 | A bare host is saved as "ffmpeg_download.<type>". |
| FfmpegInstaller.MacDownloadName | app/core/ffmpeg_installer.py:150-156 | The darwin download is saved as "ffmpeg-6.1.zip", which the manager would send to zip. |
| FfmpegInstaller.DownloadPercentBounds | app/core/ffmpeg_installer.py:169 | int(60*d/total) + 10 grows with d and lies in 10..70 while d ≤ total. |
| FfmpegInstaller.DownloadPercentsRange | app/core/ffmpeg_installer.py:159-170 | While the content length is not exceeded, the reported figures are non-decreasing and lie between the starting figure and 70. |
| FfmpegInstaller.DownloadOvershoot | app/core/ffmpeg_installer.py:159-170 | Two bytes against an advertised length of one give 130. |
| FfmpegInstaller.DownloadFfmpeg | app/core/ffmpeg_installer.py:144-176 | The saved path and the reported figures are those of `Fetch`. |
| FfmpegInstaller.ReceiveChunks | app/core/ffmpeg_installer.py:160-170 | The chunk loop skips empty chunks and reports after every other chunk, but only with a callback and a positive length. |
| FfmpegInstaller.ExtractAndInstall | app/core/ffmpeg_installer.py:178-191 | Only "zip" and "tar.xz" can succeed, and then the result is the extraction's. |
| FfmpegInstaller.InstallFfmpeg | app/core/ffmpeg_installer.py:97-142 | The method computes `Install`: unsupported, download failure, extraction failure or success, with the stage figures reported on the way. |
| FfmpegInstaller.Stages | app/core/ffmpeg_installer.py:114-137 | 10, the download figures, 70 and 100 are non-decreasing and within 10..100 at every stop. |
| FfmpegInstaller.FetchFigures | app/core/ffmpeg_installer.py:144-176 | A download that stays within its length reports non-decreasing figures within 10..70. |
| FfmpegInstaller.InstallOutcome | app/core/ffmpeg_installer.py:97-142 | Success exactly with the "installed" message. An unsupported system fails before any download with no figures. Without a callback nothing is reported. |
| FfmpegInstaller.InstallProgress | app/core/ffmpeg_installer.py:97-142 | With a callback the figures start at 10, stay within 10..100 and are non-decreasing. They end at 100 exactly on success. |
| Text.IntToStringRoundTrip | app/core/video_compressor.py:316 | `int(str(i)) == i` for every integer. |
| Text.NatToStringRoundTrip | app/core/video_compressor.py:339-341 | The decimal digits of n read back as n. |
| Text.Lower | app/widgets/file_drop_widget.py:165 | Lower-casing keeps the length and maps each character. |
| Text.StripLeft | app/core/video_compressor.py:245 | The result is a suffix of the input that does not start with white space. Everything removed before it is white space. |
| Text.StripRight | app/core/video_compressor.py:245 | The result is a prefix of the input that does not end with white space. Everything removed after it is white space. |
| Text.Strip | app/core/video_compressor.py:245 | The stripped text neither starts nor ends with white space, and it is a slice of the input with only white space around it: nothing but the padding is removed. |
| Paths.RenderRoundTrip | app/core/compression_thread.py:46 | A path built from a root flag and components splits back into them. |
| Paths.NormalizeIdempotent | app/core/compression_thread.py:64 | `str(Path(p))` is stable under a second normalisation. |
| Paths.WithSuffixMp4 | app/core/compression_thread.py:46 | `with_suffix(".mp4")` keeps the directory components and the root, and gives a last component with suffix ".mp4". |
| Paths.WithSuffixOfPart | app/core/compression_thread.py:46 | For a single component, `with_suffix` replaces the existing suffix or appends the new one. |
| Paths.BareName | app/widgets/file_drop_widget.py:165 | The suffix of a single component is the text from its last dot, when that dot is neither first nor last. |
| Paths.NameSuffix | app/widgets/file_drop_widget.py:165 | A suffix is empty, or a dot and at least one more character that ends the name and is shorter than it. |

## Left out

- Processes, pipes and timing are left out: `subprocess.run`/`Popen`, `select`, `readline`, `sleep`, `time.time`, `terminate`/`kill`. They are modelled only as the observations a job is handed.
- The stdout drain and the `ImportError` branch of the watch loop are left out. Both behave like the modelled read step.
- The 30 s probe timeout and the probe's exceptions are modelled only as text without a duration.
- Qt signals, threads (`wait`, `terminate`, `requestInterruption`), message boxes, drag-and-drop and styling are left out. Signals are entries appended to a log, and messages are abstract tags.
- Floating point is left out: the `speed=` value and its one-decimal formatting, the MB figures, and float rounding of percentages and estimates. Times and durations are exact fractions, so values where float rounding would change a truncated percentage are not modelled.
- Exceptions are modelled where they are caught and change a result: the `with_suffix` error in `run`, and failed downloads and extractions. A malformed `out_time_us` value is modelled: it yields no event. An exception escaping from the callbacks is not modelled.
- A failure to start ffmpeg is left out (`subprocess.Popen` raising, app/core/video_compressor.py:194-209). The model always starts the process. In the source the error callback gets "执行压缩命令失败" and `compress_video` returns False.
- A failure to create the output directory is left out (`mkdir`, app/core/video_compressor.py:59-60, caught at 81-84). The directory is part of the file system, which the model does not hold. In the source the error callback gets "压缩过程中发生错误" and the result is False.
- The monitor's outer `except` is left out (app/core/video_compressor.py:301-304). It catches errors raised while reading the pipes or waiting for the process, which the model receives as finished observations. In the source it reports "监控进度时发生错误" and returns False.
- Compressor.VideoCompressor.MonitorProgress: a run whose observations end while ffmpeg is still running ends as `Watching`. The source loop would go on polling.
- Compressor.VideoCompressor.IsCompressionRunning: states only that a running job is not cancelling, not the full conjunction with the process state.
- `lower()` and `\d` are handled for ASCII only: other Unicode letters and digits are not covered. White space for `strip()` and `\s` is the full set `str.isspace()` accepts.
- `urlparse` is modelled for `scheme://host/path` URLs, with the path ending at `?` or `#`. Path parameters after `;` are not split off.
- pathlib is modelled for POSIX paths only; Windows drive letters and back-slashes are not modelled.
- The thread's `get_estimated_output_size` is left out; it only passes its fields to the compressor's estimate, which is modelled.
- `get_all_presets`, `get_preset_names` and the codec description tables are left out; they are plain data access.
- The manager's `download_ffmpeg`, `_download_file` and `ensure_ffmpeg_available` are left out: they are network and file I/O around the modelled URL choice and extraction dispatch.
- The installer's `_extract_zip`/`_extract_tar` internals, `get_ffmpeg_info`, and the removal of the downloaded archive are left out. Extraction success is an observation handed in.
- The GUI modules, the build script, the icon generator and the entry point are not part of this model.
