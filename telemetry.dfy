/** What the compressor reads out of ffmpeg's text (app/core/video_compressor.py):
    the total duration from the probe's diagnostics, one progress event per
    line of `-progress` output, the clock format of status messages, and
    the output-size estimate from a preset's compression hint.

    Seconds are exact fractions, so the percentage and the clock are
    computed without floating-point rounding. */
module Telemetry {
  import opened Text

  type Pos = n: nat | 0 < n witness 1

  /** A non-negative number of seconds, `num / den`. */
  datatype Seconds = Seconds(num: nat, den: Pos)

  function Pow10(k: nat): Pos {
    if k == 0 then 1 else 10 * Pow10(k - 1)
  }

  function Min(a: int, b: int): int { if a <= b then a else b }
  function Max(a: int, b: int): int { if a >= b then a else b }

  /** Python's `int(x / y)` for a positive divisor: truncation toward zero. */
  function TruncDiv(x: int, y: Pos): (q: int)
    ensures x >= 0 ==> q == x / y
    ensures x < 0 ==> q == -((-x) / y)
  {
    if x >= 0 then x / y else -((-x) / y)
  }

  /** The length of the run of ASCII digits `s` starts with. */
  function DigitRun(s: string): (n: nat)
    ensures n <= |s| && AllDigits(s[..n]) && (n < |s| ==> !IsDigit(s[n]))
  {
    if s != [] && IsDigit(s[0]) then
      var n := 1 + DigitRun(s[1..]);
      assert s[..n] == [s[0]] + s[1..][..n - 1];
      n
    else 0
  }

  /** The length of the run of white space `s` starts with (`\s*`). */
  function SpaceRun(s: string): (n: nat)
    ensures n <= |s| && (n < |s| ==> !IsSpace(s[n]))
  {
    if s != [] && IsSpace(s[0]) then 1 + SpaceRun(s[1..]) else 0
  }

  lemma {:induction false} DigitRunAll(s: string, rest: string)
    requires AllDigits(s) && (rest == [] || !IsDigit(rest[0]))
    ensures DigitRun(s + rest) == |s|
  {
    if s != [] {
      assert (s + rest)[1..] == s[1..] + rest;
      DigitRunAll(s[1..], rest);
    } else {
      assert s + rest == rest;
    }
  }

  // ---------------------------------------------------------------------
  // Duration: (\d{2}):(\d{2}):(\d{2}\.?\d*)

  const DurationTag := "Duration: "

  /** `Duration: dd:dd:dd` at the start of `t`. */
  predicate ClockAt(t: string) {
    |t| >= 18 && StartsWith(t, DurationTag)
    && IsDigit(t[10]) && IsDigit(t[11]) && t[12] == ':'
    && IsDigit(t[13]) && IsDigit(t[14]) && t[15] == ':'
    && IsDigit(t[16]) && IsDigit(t[17])
  }

  /** The seconds group takes an optional dot and then every digit that
      follows; without a dot those digits extend the whole seconds. */
  function DurationAt(t: string): Seconds
    requires ClockAt(t)
  {
    assert |t| >= 18;
    var h := DecimalValue(t[10..12]);
    var m := DecimalValue(t[13..15]);
    var rest := t[18..];
    var dotted := rest != [] && rest[0] == '.';
    var after := if dotted then rest[1..] else rest;
    var run := after[..DigitRun(after)];
    var whole := if dotted then t[16..18] else t[16..18] + run;
    var frac := if dotted then run else "";
    var den := Pow10(|frac|);
    Seconds((h * 3600 + m * 60 + DecimalValue(whole)) * den + DecimalValue(frac), den)
  }

  /** `re.search`: the leftmost match. */
  function FindDuration(text: string): Option<Seconds>
    decreases |text|
  {
    if ClockAt(text) then Some(DurationAt(text))
    else if text == [] then None
    else FindDuration(text[1..])
  }

  /** The duration `_get_video_duration` reads from ffmpeg's diagnostics;
      0 (unknown) when nothing matches. */
  function VideoDuration(text: string): Seconds {
    match FindDuration(text)
    case Some(d) => d
    case None => Seconds(0, 1)
  }

  /** Text without the marker has unknown duration. */
  lemma {:induction false} NoMarkerNoDuration(text: string)
    requires !Contains(text, DurationTag)
    ensures FindDuration(text) == None
    ensures VideoDuration(text) == Seconds(0, 1)
    decreases |text|
  {
    if text != [] {
      NoMarkerNoDuration(text[1..]);
    }
  }

  lemma {:induction false} SkipToMarker(prefix: string, rest: string)
    requires forall j :: 0 <= j < |prefix| ==> prefix[j] != 'D'
    ensures FindDuration(prefix + rest) == FindDuration(rest)
    decreases |prefix|
  {
    if prefix != [] {
      assert (prefix + rest)[0] == 'D' ==> false;
      assert (prefix + rest)[1..] == prefix[1..] + rest;
      SkipToMarker(prefix[1..], rest);
    } else {
      assert prefix + rest == rest;
    }
  }

  /** `HH:MM:SS.cc`, the way ffmpeg prints a duration. */
  function ClockText(h: nat, m: nat, s: nat, cs: nat): string {
    ClockFields(Pad2(h), Pad2(m), Pad2(s), Pad2(cs))
  }

  function ClockFields(hh: string, mm: string, ss: string, cc: string): string {
    hh + ":" + mm + ":" + ss + "." + cc
  }

  /** A duration ffmpeg prints as `Duration: HH:MM:SS.cc` after text that
      holds no earlier marker reads back as exactly that many seconds. */
  lemma DurationRoundTrip(prefix: string, h: nat, m: nat, s: nat, cs: nat, suffix: string)
    requires h < 100 && m < 100 && s < 100 && cs < 100
    requires forall j :: 0 <= j < |prefix| ==> prefix[j] != 'D'
    requires suffix == [] || !IsDigit(suffix[0])
    ensures VideoDuration(prefix + DurationTag + ClockText(h, m, s, cs) + suffix)
      == Seconds((h * 3600 + m * 60 + s) * 100 + cs, 100)
  {
    var t := DurationTag + ClockText(h, m, s, cs) + suffix;
    assert prefix + DurationTag + ClockText(h, m, s, cs) + suffix == prefix + t;
    SkipToMarker(prefix, t);
    DurationOfFields(Pad2(h), Pad2(m), Pad2(s), Pad2(cs), suffix);
  }

  /** Two-digit fields after the marker, followed by a non-digit, read as
      their base-60 value in hundredths. */
  lemma DurationOfFields(hh: string, mm: string, ss: string, cc: string, suffix: string)
    requires |hh| == 2 && |mm| == 2 && |ss| == 2 && |cc| == 2
    requires AllDigits(hh) && AllDigits(mm) && AllDigits(ss) && AllDigits(cc)
    requires suffix == [] || !IsDigit(suffix[0])
    ensures var t := DurationTag + ClockFields(hh, mm, ss, cc) + suffix;
      ClockAt(t) && DurationAt(t) == Seconds(
        (DecimalValue(hh) * 3600 + DecimalValue(mm) * 60 + DecimalValue(ss)) * 100
          + DecimalValue(cc), 100)
  {
    var body := ClockFields(hh, mm, ss, cc) + suffix;
    var t := DurationTag + body;
    assert DurationTag + ClockFields(hh, mm, ss, cc) + suffix == t;
    FieldsLayout(hh, mm, ss, cc, suffix);
    assert body[0] == hh[0] && body[1] == hh[1] && body[3] == mm[0] && body[4] == mm[1];
    assert body[6] == ss[0] && body[7] == ss[1];
    ClockAtBody(body);
    assert t[10..] == body;
    assert t[10..12] == body[0..2];
    assert t[13..15] == body[3..5];
    assert t[16..18] == body[6..8];
    assert t[18..] == body[8..];
    assert DecimalValue(t[10..12]) == DecimalValue(hh);
    assert DecimalValue(t[13..15]) == DecimalValue(mm);
    assert DecimalValue(t[16..18]) == DecimalValue(ss);
    assert ClockAt(t);
    assert t[18..] == "." + cc + suffix;
    DurationAtFields(t, cc, suffix);
  }

  lemma FieldsLayout(hh: string, mm: string, ss: string, cc: string, suffix: string)
    requires |hh| == 2 && |mm| == 2 && |ss| == 2
    ensures var body := ClockFields(hh, mm, ss, cc) + suffix;
      body[0..2] == hh && body[2] == ':' && body[3..5] == mm && body[5] == ':'
      && body[6..8] == ss && body[8..] == "." + cc + suffix
  {
  }

  /** The marker followed by `dd:dd:dd` is a clock, and its fields sit
      ten characters further on. */
  lemma ClockAtBody(body: string)
    requires |body| >= 8 && IsDigit(body[0]) && IsDigit(body[1]) && body[2] == ':'
    requires IsDigit(body[3]) && IsDigit(body[4]) && body[5] == ':'
    requires IsDigit(body[6]) && IsDigit(body[7])
    ensures ClockAt(DurationTag + body)
    ensures (DurationTag + body)[10..] == body
  {
    var t := DurationTag + body;
    assert t[..10] == DurationTag;
  }

  /** With a dot and two digits after the clock, the duration counts in
      hundredths. */
  lemma DurationAtFields(t: string, cc: string, suffix: string)
    requires ClockAt(t) && t[18..] == "." + cc + suffix
    requires |cc| == 2 && AllDigits(cc) && (suffix == [] || !IsDigit(suffix[0]))
    ensures DurationAt(t) == Seconds((DecimalValue(t[10..12]) * 3600 + DecimalValue(t[13..15]) * 60
      + DecimalValue(t[16..18])) * 100 + DecimalValue(cc), 100)
  {
    var tail := t[18..];
    assert tail != [] && tail[0] == '.';
    var after := tail[1..];
    assert after == cc + suffix;
    DigitRunAll(cc, suffix);
    assert DigitRun(after) == 2;
    assert after[..2] == cc;
    assert Pow10(|cc|) == 100;
  }

  // ---------------------------------------------------------------------
  // Clock text: _format_time

  /** `_format_time` of a number of seconds whose floor is `w`: hours,
      minutes and seconds come from floor division and Python's modulo,
      and the hours are shown only when positive. */
  function FormatTime(w: int): string {
    var h := w / 3600;
    var m := (w % 3600) / 60;
    var s := w % 60;
    if h > 0 then Pad2(h) + ":" + Pad2(m) + ":" + Pad2(s) else Pad2(m) + ":" + Pad2(s)
  }

  /** The value of `[[HH:]MM:]SS` text, read as base-60 fields. */
  function ClockValue(s: string): nat
    decreases |s|
  {
    var i := RFind(s, ':');
    if i < 0 then DecimalValue(s) else ClockValue(s[..i]) * 60 + DecimalValue(s[i + 1..])
  }

  lemma LastColon(a: string, b: string)
    requires AllDigits(b)
    ensures RFind(a + ":" + b, ':') == |a|
    ensures (a + ":" + b)[..|a|] == a && (a + ":" + b)[|a| + 1..] == b
  {
    var s := a + ":" + b;
    assert s[|a|] == ':';
    assert s[|a| + 1..] == b;
    forall j | |a| < j < |s|
      ensures s[j] != ':'
    {
      assert s[j] == b[j - |a| - 1];
      assert IsDigit(b[j - |a| - 1]);
    }
    RFindAt(s, ':', |a|);
  }

  lemma RFindAt(s: string, c: char, k: nat)
    requires k < |s| && s[k] == c && forall j :: k < j < |s| ==> s[j] != c
    ensures RFind(s, c) == k
  {
  }

  lemma ClockOfDigits(s: string)
    requires AllDigits(s)
    ensures ClockValue(s) == DecimalValue(s)
  {
  }

  /** `_format_time` always shows minutes and seconds below 60, as the last
      two two-digit fields, and adds an hours field exactly from one hour
      on. */
  lemma FormatTimeFields(w: int)
    ensures var r := FormatTime(w);
      && |r| >= 5 && r[|r| - 3] == ':'
      && DecimalValue(r[|r| - 2..]) < 60 && DecimalValue(r[|r| - 5..|r| - 3]) < 60
      && (|r| == 5 <==> w < 3600)
  {
    var m := (w % 3600) / 60;
    var s := w % 60;
    var tail := Pad2(m) + ":" + Pad2(s);
    var r := FormatTime(w);
    assert r[|r| - 5..] == tail;
    assert r[|r| - 2..] == Pad2(s);
    assert r[|r| - 5..|r| - 3] == Pad2(m);
  }

  /** For a non-negative time, reading the clock text back as base-60
      fields gives the number of whole seconds. */
  lemma FormatTimeRoundTrip(w: nat)
    ensures ClockValue(FormatTime(w)) == w
  {
    var h := w / 3600;
    var m := (w % 3600) / 60;
    var s := w % 60;
    var ms := Pad2(m) + ":" + Pad2(s);
    LastColon(Pad2(m), Pad2(s));
    ClockOfDigits(Pad2(m));
    assert ClockValue(ms) == m * 60 + s;
    ClockArith(w);
    if h > 0 {
      var r := Pad2(h) + ":" + Pad2(m) + ":" + Pad2(s);
      LastColon(Pad2(h) + ":" + Pad2(m), Pad2(s));
      LastColon(Pad2(h), Pad2(m));
      ClockOfDigits(Pad2(h));
      assert ClockValue(Pad2(h) + ":" + Pad2(m)) == h * 60 + m;
      assert ClockValue(r) == (h * 60 + m) * 60 + s;
    }
  }

  lemma ClockArith(w: nat)
    ensures (w / 3600 * 60 + (w % 3600) / 60) * 60 + w % 60 == w
    ensures w / 3600 == 0 ==> (w % 3600) / 60 * 60 + w % 60 == w
  {
    var h := w / 3600;
    var r := w % 3600;
    var m := r / 60;
    var s := r % 60;
    assert w == h * 3600 + r;
    assert r == m * 60 + s;
    assert w == (h * 60 + m) * 60 + s;
    DivUnique(w, 60, h * 60 + m, s);
  }

  // ---------------------------------------------------------------------
  // Progress lines: _parse_progress_line

  /** The status message of an event, as a tag with its values. */
  datatype Status =
    | Timed(current: string, total: string, percent: int)
    | Elapsed(current: string)
    | FrameCount(frame: nat)
    | Speed(speed: string)

  /** One call of the progress callback: a percentage or `None`, and the status. */
  datatype Event = Event(progress: Option<int>, status: Status)

  /** `min(100, int((t / duration) * 100))` with `t` in microseconds. */
  function Percent(timeUs: int, d: Seconds): (p: int)
    requires d.num > 0
    ensures p <= 100
  {
    Min(100, TruncDiv(100 * timeUs * d.den, 1000000 * d.num))
  }

  /** The percentage is non-negative for non-negative times. */
  lemma PercentNonNegative(t: int, d: Seconds)
    requires d.num > 0 && t >= 0
    ensures Percent(t, d) >= 0
  {
    MulMono(0, 100 * t, d.den);
    DivMonotonic(0, 100 * t * d.den, 1000000 * d.num);
  }

  /** The percentage grows with the time. */
  lemma PercentMonotonic(t1: int, t2: int, d: Seconds)
    requires d.num > 0 && t1 <= t2
    ensures Percent(t1, d) <= Percent(t2, d)
  {
    MulMono(100 * t1, 100 * t2, d.den);
    TruncDivMonotonic(100 * t1 * d.den, 100 * t2 * d.den, 1000000 * d.num);
  }

  /** The percentage is 100 once the time reaches the duration. */
  lemma PercentComplete(t: int, d: Seconds)
    requires d.num > 0 && t * d.den >= 1000000 * d.num
    ensures Percent(t, d) == 100
  {
    var y: Pos := 1000000 * d.num;
    assert 100 * t * d.den == 100 * (t * d.den);
    assert 100 * t * d.den >= 100 * y;
    DivLower(100 * t * d.den, y, 100);
  }

  lemma MulMono(a: int, b: int, y: nat)
    requires a <= b
    ensures a * y <= b * y
  {
    assert b * y - a * y == (b - a) * y;
  }

  /** Euclidean division is determined by quotient and remainder. */
  lemma DivUnique(x: int, y: Pos, q: int, r: int)
    requires x == q * y + r && 0 <= r < y
    ensures x / y == q && x % y == r
  {
    var q' := x / y;
    assert x == q' * y + x % y;
    if q' > q {
      MulMono(q + 1, q', y);
    } else if q' < q {
      MulMono(q' + 1, q, y);
    }
  }

  lemma DivMonotonic(a: int, b: int, y: Pos)
    requires a <= b
    ensures a / y <= b / y
  {
    var qa := a / y;
    var qb := b / y;
    assert a == qa * y + a % y;
    assert b == qb * y + b % y;
    if qa > qb {
      MulMono(qb + 1, qa, y);
    }
  }

  lemma DivLower(x: int, y: Pos, k: int)
    requires x >= k * y
    ensures x / y >= k
  {
    DivMonotonic(k * y, x, y);
    DivUnique(k * y, y, k, 0);
  }

  lemma TruncDivMonotonic(x1: int, x2: int, y: Pos)
    requires x1 <= x2
    ensures TruncDiv(x1, y) <= TruncDiv(x2, y)
  {
    if x1 >= 0 {
      DivMonotonic(x1, x2, y);
    } else if x2 < 0 {
      DivMonotonic(-x2, -x1, y);
    } else {
      DivMonotonic(0, -x1, y);
      DivMonotonic(0, x2, y);
    }
  }

  lemma DivCancel(a: nat, b: Pos, c: Pos)
    ensures (a * c) / (b * c) == a / b
  {
    var q := a / b;
    var r := a % b;
    assert a == q * b + r;
    assert a * c == q * (b * c) + r * c by {
      assert a * c == (q * b + r) * c;
    }
    MulMono(r, b - 1, c);
    assert (b - 1) * c == b * c - c;
    DivUnique(a * c, b * c, q, r * c);
  }

  /** With a duration of whole microseconds `dUs`, the percentage is the
      integer formula `min(100, (100 * t) / dUs)`. */
  lemma PercentWholeMicros(timeUs: nat, dUs: Pos)
    ensures Percent(timeUs, Seconds(dUs, 1000000)) == Min(100, (100 * timeUs) / dUs)
  {
    var x := 100 * timeUs * 1000000;
    var y := 1000000 * dUs;
    assert x == (100 * timeUs) * 1000000;
    DivCancel(100 * timeUs, dUs, 1000000);
  }

  /** `re.search(r'frame=\s*(\d+)', ...)` anchored at the start of `t`. */
  function FrameAt(t: string): Option<nat> {
    if StartsWith(t, "frame=") then
      var rest := t[6..];
      var digits := rest[SpaceRun(rest)..];
      var n := DigitRun(digits);
      if n > 0 then Some(DecimalValue(digits[..n])) else None
    else None
  }

  function FindFrame(t: string): Option<nat>
    decreases |t|
  {
    if FrameAt(t).Some? then FrameAt(t) else if t == [] then None else FindFrame(t[1..])
  }

  predicate IsSpeedChar(c: char) { IsDigit(c) || c == '.' }

  function SpeedRun(s: string): (n: nat)
    ensures n <= |s|
  {
    if s != [] && IsSpeedChar(s[0]) then 1 + SpeedRun(s[1..]) else 0
  }

  /** `re.search(r'speed=\s*([\d.]+)x', ...)` anchored at the start of `t`:
      the run of digits and dots must be followed by `x`. */
  function SpeedAt(t: string): Option<string> {
    if StartsWith(t, "speed=") then
      var rest := t[6..];
      var body := rest[SpaceRun(rest)..];
      var n := SpeedRun(body);
      if 0 < n < |body| && body[n] == 'x' then Some(body[..n]) else None
    else None
  }

  function FindSpeed(t: string): Option<string>
    decreases |t|
  {
    if SpeedAt(t).Some? then SpeedAt(t) else if t == [] then None else FindSpeed(t[1..])
  }

  function CountDots(s: string): nat {
    if s == [] then 0 else (if s[0] == '.' then 1 else 0) + CountDots(s[1..])
  }

  predicate HasDigit(s: string) {
    s != [] && (IsDigit(s[0]) || HasDigit(s[1..]))
  }

  /** Text of digits and dots that Python's `float()` accepts. */
  predicate IsFloatText(s: string) {
    CountDots(s) <= 1 && HasDigit(s)
  }

  const OutTimeKey := "out_time_us="

  /** `_parse_progress_line`: the event the callback receives, or `None`
      where the source returns False without calling it. The branches are
      tried in order: elapsed time, frame count, speed. */
  function ParseProgressLine(line: string, duration: Seconds, hasCallback: bool): Option<Event> {
    if !hasCallback then None
    else if StartsWith(line, OutTimeKey) then OutTimeEvent(OutTimeField(line), duration)
    else if StartsWith(line, "frame=") then FrameEvent(line)
    else if Contains(line, "speed=") then SpeedEvent(line)
    else None
  }

  /** `line.split("=")[1].strip()`. */
  function OutTimeField(line: string): string
    requires StartsWith(line, OutTimeKey)
  {
    assert line[11] == '=';
    Strip(SecondField(line, '=').value)
  }

  /** The elapsed-time branch: nothing for an empty, `N/A` or malformed
      field; a percentage when the duration is known. */
  function OutTimeEvent(field: string, duration: Seconds): (r: Option<Event>)
    ensures r.Some? ==> r.value.status.Timed? || r.value.status.Elapsed?
    ensures r.Some? && r.value.progress.Some? ==> duration.num > 0 && r.value.progress.value <= 100
    ensures field == "" || field == "N/A" ==> r.None?
  {
    if field == "" || field == "N/A" then None
    else match PyInt(field)
      case None => None
      case Some(t) =>
        if duration.num > 0 then
          var p := Percent(t, duration);
          Some(Event(Some(p), Timed(FormatTime(t / 1000000), FormatTime(duration.num / duration.den), p)))
        else Some(Event(None, Elapsed(FormatTime(t / 1000000))))
  }

  /** The frame branch: the first `frame=` match, reported when positive. */
  function FrameEvent(line: string): (r: Option<Event>)
    ensures r.Some? ==> r.value.progress.None? && r.value.status.FrameCount? && r.value.status.frame > 0
  {
    match FindFrame(line)
    case Some(n) => if n > 0 then Some(Event(None, FrameCount(n))) else None
    case None => None
  }

  /** The speed branch: the first `speed=` match, when `float()` accepts it. */
  function SpeedEvent(line: string): (r: Option<Event>)
    ensures r.Some? ==> r.value.progress.None? && r.value.status.Speed? && IsFloatText(r.value.status.speed)
  {
    match FindSpeed(line)
    case Some(text) => if IsFloatText(text) then Some(Event(None, Speed(text))) else None
    case None => None
  }

  /** A progress event never carries a percentage above 100, and only an
      elapsed-time line with a known duration carries one at all. */
  lemma EventPercentBounded(line: string, duration: Seconds, hasCallback: bool)
    ensures var r := ParseProgressLine(line, duration, hasCallback);
      r.Some? && r.value.progress.Some? ==>
        r.value.progress.value <= 100 && StartsWith(line, OutTimeKey) && duration.num > 0
    ensures var r := ParseProgressLine(line, duration, hasCallback);
      r.Some? ==> hasCallback
  {
  }

  /** The first matching prefix decides: an elapsed-time line never yields
      a frame or speed event and a frame line never yields a speed event,
      whatever else it contains. */
  lemma ClassificationOrder(line: string, duration: Seconds)
    ensures var r := ParseProgressLine(line, duration, true);
      && (StartsWith(line, OutTimeKey) ==> r.None? || r.value.status.Timed? || r.value.status.Elapsed?)
      && (StartsWith(line, "frame=") ==> r.None? || r.value.status.FrameCount?)
      && (r.Some? && r.value.status.Speed? ==> Contains(line, "speed=") && !StartsWith(line, "frame="))
  {
    KeysExclusive(line);
  }

  lemma KeysExclusive(line: string)
    ensures !(StartsWith(line, OutTimeKey) && StartsWith(line, "frame="))
  {
    if StartsWith(line, OutTimeKey) {
      assert line[..|OutTimeKey|][0] == 'o';
    }
  }

  /** The first `c` of `key + rest` ends the key when the key holds no
      earlier `c`. */
  lemma KeyIndex(key: string, rest: string, c: char)
    requires IndexOf(key, c) < |key|
    ensures IndexOf(key + rest, c) == IndexOf(key, c)
  {
    var s := key + rest;
    assert forall j :: 0 <= j < |key| ==> s[j] == key[j];
  }

  lemma NoEquals(s: string)
    requires AllDigits(s)
    ensures IndexOf(s, '=') == |s|
  {
  }

  lemma StripDigits(s: string)
    requires AllDigits(s) && s != []
    ensures Strip(s) == s
  {
    assert StripRight(s) == s;
    assert StripLeft(s) == s;
  }

  /** The field of `out_time_us=<rest>` is `rest` stripped, when `rest`
      holds no further `=`. */
  lemma OutTimeFieldOf(rest: string)
    requires IndexOf(rest, '=') == |rest|
    ensures StartsWith(OutTimeKey + rest, OutTimeKey)
    ensures OutTimeField(OutTimeKey + rest) == Strip(rest)
  {
    KeyValue(rest);
  }

  lemma KeyValue(rest: string)
    requires IndexOf(rest, '=') == |rest|
    ensures StartsWith(OutTimeKey + rest, OutTimeKey)
    ensures SecondField(OutTimeKey + rest, '=') == Some(rest)
  {
    var line := OutTimeKey + rest;
    assert line[..|OutTimeKey|] == OutTimeKey;
    KeyEquals();
    AfterKey(OutTimeKey, rest);
  }

  lemma KeyEquals()
    ensures IndexOf(OutTimeKey, '=') == |OutTimeKey| - 1
  {
  }

  /** Splitting `key + rest` at `=` gives `rest`, when the key's one `=`
      ends it and `rest` has none. */
  lemma AfterKey(key: string, rest: string)
    requires key != [] && IndexOf(key, '=') == |key| - 1
    requires IndexOf(rest, '=') == |rest|
    ensures SecondField(key + rest, '=') == Some(rest)
  {
    var line := key + rest;
    KeyIndex(key, rest, '=');
    assert line[|key|..] == rest;
    assert rest[..|rest|] == rest;
  }

  /** The line ffmpeg writes for a time of `t` microseconds parses back to
      that time: with a known duration as its percentage and clock texts,
      otherwise as the elapsed clock alone. */
  lemma OutTimeRoundTrip(t: nat, duration: Seconds)
    ensures ParseProgressLine(OutTimeKey + NatToString(t), duration, true)
      == if duration.num > 0
         then Some(Event(Some(Percent(t, duration)),
                         Timed(FormatTime(t / 1000000), FormatTime(duration.num / duration.den), Percent(t, duration))))
         else Some(Event(None, Elapsed(FormatTime(t / 1000000))))
  {
    var digits := NatToString(t);
    NoEquals(digits);
    OutTimeFieldOf(digits);
    StripDigits(digits);
    IntToStringRoundTrip(t);
    assert digits != "N/A" by {
      assert IsDigit(digits[0]);
    }
  }

  /** A time ffmpeg cannot report yet gives no event. */
  lemma NotAvailableNoEvent(duration: Seconds)
    ensures ParseProgressLine(OutTimeKey + "N/A", duration, true) == None
  {
    NotAvailableField();
  }

  lemma NotAvailableField()
    ensures StartsWith(OutTimeKey + "N/A", OutTimeKey)
    ensures OutTimeField(OutTimeKey + "N/A") == "N/A"
  {
    assert IndexOf("N/A", '=') == 3;
    OutTimeFieldOf("N/A");
    NotAvailableStripped();
  }

  lemma NotAvailableStripped()
    ensures Strip("N/A") == "N/A"
  {
    StripUnpadded("N/A");
  }

  /** An empty time gives no event either. */
  lemma EmptyTimeNoEvent(duration: Seconds)
    ensures ParseProgressLine(OutTimeKey, duration, true) == None
  {
    OutTimeFieldOf("");
    assert OutTimeKey + "" == OutTimeKey;
    assert OutTimeField(OutTimeKey) == "";
  }

  /** A frame line reports its frame number, but only when it is positive. */
  lemma FrameRoundTrip(n: nat, duration: Seconds)
    ensures ParseProgressLine("frame=" + NatToString(n), duration, true)
      == if n > 0 then Some(Event(None, FrameCount(n))) else None
  {
    var digits := NatToString(n);
    var line := "frame=" + digits;
    assert !StartsWith(line, OutTimeKey) by {
      assert line[0] == 'f';
    }
    assert line[6..] == digits;
    assert SpaceRun(digits) == 0;
    assert digits[0..] == digits;
    DigitRunAll(digits, "");
    assert digits + "" == digits;
    assert digits[..|digits|] == digits;
    NatToStringRoundTrip(n);
    assert FrameAt(line) == Some(n);
  }

  // ---------------------------------------------------------------------
  // Output-size estimate: the (\d+)% hint

  /** `(\d+)%` anchored at the start of `t`. */
  function RatioAt(t: string): Option<nat> {
    var n := DigitRun(t);
    if 0 < n < |t| && t[n] == '%' then Some(DecimalValue(t[..n])) else None
  }

  function FindRatio(t: string): Option<nat>
    decreases |t|
  {
    if RatioAt(t).Some? then RatioAt(t) else if t == [] then None else FindRatio(t[1..])
  }

  /** The estimate for an input of `size` bytes and a compression hint:
      with `N%`, the size scaled by `1 - N/100` (truncated) but at least a
      tenth of the input; without a percentage, half the input. */
  function SizeEstimate(size: nat, ratioText: string): int {
    match FindRatio(ratioText)
    case Some(n) => Max(TruncDiv(size * (100 - n), 100), size / 10)
    case None => size / 2
  }

  /** The estimate is never below a tenth of the input, and never above
      the input for a hint of at most 100%. */
  lemma SizeEstimateBounds(size: nat, ratioText: string)
    ensures SizeEstimate(size, ratioText) >= size / 10
    ensures (FindRatio(ratioText).None? || FindRatio(ratioText).value <= 100) ==> SizeEstimate(size, ratioText) <= size
  {
    if FindRatio(ratioText).Some? && FindRatio(ratioText).value <= 100 {
      var n := FindRatio(ratioText).value;
      assert size * (100 - n) <= size * 100;
      DivMonotonic(size * (100 - n), size * 100, 100);
    }
  }

  /** The hint of every preset: 30, 50, 70 and 60 percent, and none for
      the custom preset's "可变"; a gigabyte at 70% is estimated at 300 MB. */
  lemma CatalogHints(size: nat)
    ensures FindRatio("30%") == Some(30) && FindRatio("50%") == Some(50)
    ensures FindRatio("70%") == Some(70) && FindRatio("60%") == Some(60)
    ensures FindRatio("可变") == None
    ensures SizeEstimate(1000000000, "70%") == 300000000
    ensures SizeEstimate(size, "可变") == size / 2
  {
    PercentHint('3', '0');
    PercentHint('5', '0');
    PercentHint('7', '0');
    PercentHint('6', '0');
    NoHint();
  }

  /** Two digits and a percent sign give their value. */
  lemma PercentHint(d1: char, d2: char)
    requires IsDigit(d1) && IsDigit(d2)
    ensures FindRatio([d1, d2, '%']) == Some(DigitValue(d1) * 10 + DigitValue(d2))
  {
    var t := [d1, d2, '%'];
    assert t[1..] == [d2, '%'] && [d2, '%'][1..] == ['%'];
    assert DigitRun(['%']) == 0;
    assert DigitRun([d2, '%']) == 1;
    assert DigitRun(t) == 2;
    assert RatioAt(t) == Some(DecimalValue(t[..2]));
    assert t[..2] == [d1, d2] && [d1, d2][..1] == [d1] && [d1][..0] == [];
    assert DecimalValue([d1]) == DigitValue(d1);
    assert DecimalValue([d1, d2]) == DigitValue(d1) * 10 + DigitValue(d2);
  }

  lemma NoHint()
    ensures FindRatio("可变") == None
  {
    assert FindRatio("") == None;
    assert FindRatio("变") == None;
    assert FindRatio("可变"[1..][1..]) == None;
  }

  /** A hint written as `N%` reads back as `N`. */
  lemma RatioRoundTrip(n: nat, suffix: string)
    ensures FindRatio(NatToString(n) + "%" + suffix) == Some(n)
  {
    var digits := NatToString(n);
    var t := digits + "%" + suffix;
    DigitRunAll(digits, "%" + suffix);
    assert t == digits + ("%" + suffix);
    assert t[..|digits|] == digits;
    assert t[|digits|] == '%';
    NatToStringRoundTrip(n);
    assert RatioAt(t) == Some(n);
  }
}
