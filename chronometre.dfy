/** The browser stopwatch: the clock arithmetic behind its display
    (minutes, seconds and hundredths, each padded to two digits), the lap
    list, and the state machine of its start, stop, reset and lap buttons.

    The page, the 10 ms interval and Date.now() are outside the model: the
    current time in milliseconds is passed to the operations that read it,
    and the interval is the flag `ticking`. */
module Chronometre {
  import opened Text
  import opened Wrappers

  // ---------------------------------------------------------------------
  // JavaScript number operations on integral values

  /** toString() of an integral number: an optional minus sign and the
      shortest decimal digits. */
  function JsToString(n: int): (s: string)
    ensures |s| >= 1
  {
    if n >= 0 then NatToString(n) else "-" + NatToString(-n)
  }

  /** What toString() writes: a non-negative number as decimal digits
      without leading zeros that read back as the number; a negative one
      as '-' followed by the digits of its magnitude. */
  lemma JsToStringValue(n: int)
    ensures var s := JsToString(n);
      && (n >= 0 ==> AllDigits(s) && (|s| > 1 ==> s[0] != '0') && ParseNat(s) == n)
      && (n < 0 ==> && |s| >= 2 && s[0] == '-' && AllDigits(s[1..])
                    && (|s| > 2 ==> s[1] != '0') && ParseNat(s[1..]) == -n)
  {
    if n >= 0 {
      ParseNatToString(n);
    } else {
      var d := NatToString(-n);
      ParseNatToString(-n);
      assert JsToString(n)[1..] == d;
    }
  }

  function Zeros(k: nat): (z: string)
    ensures |z| == k && AllZeros(z)
  {
    seq(k, _ => '0')
  }

  /** String.prototype.padStart(width, '0'): zeros in front up to the width,
      never truncating. */
  function PadStart(s: string, width: nat): string
  {
    if |s| >= width then s else Zeros(width - |s|) + s
  }

  /** JavaScript's % : the remainder takes the sign of the dividend. */
  function JsRem(a: int, b: int): int
    requires b > 0
  {
    if a >= 0 then a % b else -((-a) % b)
  }

  // ---------------------------------------------------------------------
  // The clock face

  /** padNumber: toString() padded to at least two characters with '0'. */
  function PadNumber(n: int): string
  {
    PadStart(JsToString(n), 2)
  }

  /** Minutes, seconds and hundredths of a millisecond count, as
      displayTime and formatTime compute them with Math.floor and %. */
  datatype Clock = Clock(minutes: int, seconds: int, centis: int)

  function Decompose(time: int): Clock
  {
    Clock(time / 60000, JsRem(time, 60000) / 1000, JsRem(time, 1000) / 10)
  }

  /** The milliseconds a clock reading stands for (up to 9 ms lost). */
  function Compose(c: Clock): int
  {
    c.minutes * 60000 + c.seconds * 1000 + c.centis * 10
  }

  predicate InRange(c: Clock)
  {
    c.minutes >= 0 && 0 <= c.seconds < 60 && 0 <= c.centis < 100
  }

  /** The three texts of the display. */
  datatype Readout = Readout(minutes: string, seconds: string, centis: string)

  function DisplayTime(time: int): Readout
  {
    var c := Decompose(time);
    Readout(PadNumber(c.minutes), PadNumber(c.seconds), PadNumber(c.centis))
  }

  /** formatTime: the three padded fields joined by ':'. */
  function FormatTime(time: int): string
  {
    var c := Decompose(time);
    PadNumber(c.minutes) + ":" + PadNumber(c.seconds) + ":" + PadNumber(c.centis)
  }

  /** The text of the lap item numbered `count`. */
  function LapText(count: nat, time: int): string
  {
    "Tour " + NatToString(count) + ": " + FormatTime(time)
  }

  /** For a non-negative time, the reading is in range and stands for the
      time rounded down to the hundredth of a second. */
  lemma DecomposeBounds(time: int)
    requires time >= 0
    ensures InRange(Decompose(time))
    ensures Compose(Decompose(time)) <= time < Compose(Decompose(time)) + 10
  {
    var m, r := time / 60000, time % 60000;
    var s, q := r / 1000, r % 1000;
    assert time == m * 60000 + s * 1000 + q;
    assert time % 1000 == q;
  }

  /** Every in-range reading is shown for exactly the ten milliseconds it
      stands for: Decompose inverts Compose. */
  lemma DecomposeCompose(c: Clock, extra: int)
    requires InRange(c) && 0 <= extra < 10
    ensures Decompose(Compose(c) + extra) == c
  {
    var time := Compose(c) + extra;
    var inSecond := c.centis * 10 + extra;
    var inMinute := c.seconds * 1000 + inSecond;
    DivModOf(time, 60000, c.minutes, inMinute);
    DivModOf(inMinute, 1000, c.seconds, inSecond);
    DivModOf(time, 1000, c.minutes * 60 + c.seconds, inSecond);
    DivModOf(inSecond, 10, c.centis, extra);
  }

  /** A quotient and remainder in range are the ones division gives. */
  lemma DivModOf(x: int, d: int, q: int, r: int)
    requires d > 0 && 0 <= r < d && x == q * d + r
    ensures x / d == q && x % d == r
  {
    MulStep(x / d, q, d);
    MulStep(q, x / d, d);
  }

  /** A larger factor gives a product larger by at least d. */
  lemma MulStep(a: int, b: int, d: int)
    requires d > 0
    ensures a < b ==> a * d + d <= b * d
  {
    if a < b {
      MulAtLeast(b - a, d);
      assert b * d - a * d == (b - a) * d;
    }
  }

  lemma {:induction false} MulAtLeast(k: int, d: int)
    requires k >= 1 && d > 0
    ensures k * d >= d
    decreases k
  {
    if k > 1 {
      MulAtLeast(k - 1, d);
      assert k * d == (k - 1) * d + d;
    }
  }

  /** Lexicographic order on readings. */
  predicate ClockLe(a: Clock, b: Clock)
  {
    || a.minutes < b.minutes
    || (a.minutes == b.minutes && a.seconds < b.seconds)
    || (a.minutes == b.minutes && a.seconds == b.seconds && a.centis <= b.centis)
  }

  /** The display never runs backwards while time moves forwards. */
  lemma DecomposeMonotone(t1: int, t2: int)
    requires 0 <= t1 <= t2
    ensures ClockLe(Decompose(t1), Decompose(t2))
  {
    DecomposeBounds(t1);
    DecomposeBounds(t2);
  }

  /** A two-digit field for every value below 100; longer values are never cut. */
  lemma PadNumberShape(n: int)
    ensures 0 <= n < 100 ==> PadNumber(n) == FixedDigits(n, 2)
    ensures n >= 100 ==> PadNumber(n) == NatToString(n)
    ensures n >= 0 ==> AllDigits(PadNumber(n)) && |PadNumber(n)| >= 2 && ParseNat(PadNumber(n)) == n
  {
    if n >= 0 {
      PadNumberValue(n);
      if n < 100 {
        var p := PadNumber(n);
        ParseNatBound(p);
        FixedDigitsOfParse(p);
      }
    }
  }

  /** The padded text is the decimal rendering behind leading zeros, so it
      reads back as the number. */
  lemma PadNumberValue(n: nat)
    ensures AllDigits(PadNumber(n)) && |PadNumber(n)| >= 2 && ParseNat(PadNumber(n)) == n
    ensures n < 100 ==> |PadNumber(n)| == 2
  {
    var s := NatToString(n);
    var p := PadNumber(n);
    var zeros := p[..|p| - |s|];
    assert p == zeros + s;
    ParseNatLeadingZeros(zeros, s);
    ParseNatToString(n);
    if n < 100 {
      NatToStringLength(n, 2);
    }
  }

  /** Reads a lap time back: minutes of any width, then ":SS:CC". */
  function ParseClock(s: string): Option<Clock>
  {
    if |s| >= 8 && s[|s| - 6] == ':' && s[|s| - 3] == ':'
       && AllDigits(s[..|s| - 6]) && AllDigits(s[|s| - 5..|s| - 3]) && AllDigits(s[|s| - 2..])
    then Some(Clock(ParseNat(s[..|s| - 6]), ParseNat(s[|s| - 5..|s| - 3]), ParseNat(s[|s| - 2..])))
    else None
  }

  lemma ParseClockFields(m: string, sec: string, cs: string)
    requires AllDigits(m) && AllDigits(sec) && AllDigits(cs) && |m| >= 2 && |sec| == 2 && |cs| == 2
    ensures ParseClock(m + ":" + sec + ":" + cs) == Some(Clock(ParseNat(m), ParseNat(sec), ParseNat(cs)))
  {
    ClockSlices(m, sec, cs);
  }

  /** Where the fields of m:sec:cc sit, counted from the end. */
  lemma ClockSlices(m: string, sec: string, cs: string)
    requires |m| >= 2 && |sec| == 2 && |cs| == 2
    ensures var s := m + ":" + sec + ":" + cs;
      && |s| >= 8 && s[|s| - 6] == ':' && s[|s| - 3] == ':'
      && s[..|s| - 6] == m && s[|s| - 5..|s| - 3] == sec && s[|s| - 2..] == cs
  {
    var tail := ":" + sec + ":" + cs;
    var s := m + tail;
    assert s == m + ":" + sec + ":" + cs;
    assert |tail| == 6 && tail[0] == ':' && tail[3] == ':' && tail[1..3] == sec && tail[4..] == cs;
    var n := |s|;
    assert s[..n - 6] == m;
    assert s[n - 5..n - 3] == sec;
    assert s[n - 2..] == cs;
  }

  /** A lap time written by formatTime reads back as the reading it shows. */
  lemma FormatTimeRoundTrip(time: int)
    requires time >= 0
    ensures ParseClock(FormatTime(time)) == Some(Decompose(time))
  {
    var c := Decompose(time);
    DecomposeBounds(time);
    PadNumberShape(c.minutes);
    PadNumberShape(c.seconds);
    PadNumberShape(c.centis);
    ParseClockFields(PadNumber(c.minutes), PadNumber(c.seconds), PadNumber(c.centis));
  }

  /** At zero the display reads 00 00 00 and a lap reads 00:00:00. */
  lemma ZeroReading()
    ensures DisplayTime(0) == Readout("00", "00", "00")
    ensures FormatTime(0) == "00:00:00"
  {
    assert Decompose(0) == Clock(0, 0, 0);
    assert JsToString(0) == "0";
    assert PadNumber(0) == "00";
  }

  /** The lap text shows the same three fields as the display. */
  lemma FormatMatchesDisplay(time: int)
    ensures var r := DisplayTime(time); FormatTime(time) == r.minutes + ":" + r.seconds + ":" + r.centis
  {
  }

  /** For a non-negative time the display shows the decomposed reading:
      seconds and hundredths as exactly two digits, minutes as at least
      two, each reading back as its field. */
  lemma DisplayTimeFields(time: int)
    requires time >= 0
    ensures var r, c := DisplayTime(time), Decompose(time);
      && AllDigits(r.minutes) && |r.minutes| >= 2 && ParseNat(r.minutes) == c.minutes
      && AllDigits(r.seconds) && |r.seconds| == 2 && ParseNat(r.seconds) == c.seconds
      && AllDigits(r.centis) && |r.centis| == 2 && ParseNat(r.centis) == c.centis
  {
    var c := Decompose(time);
    DecomposeBounds(time);
    PadNumberValue(c.minutes);
    PadNumberValue(c.seconds);
    PadNumberValue(c.centis);
  }

  /** A lap item reads back: the number after "Tour " is the lap count, and
      the text after ": " is the reading of the lap time. */
  lemma LapTextFields(count: nat, time: int)
    requires time >= 0
    ensures var s, k := LapText(count, time), |NatToString(count)|;
      && |s| >= 7 + k && s[..5] == "Tour " && AllDigits(s[5..5 + k]) && ParseNat(s[5..5 + k]) == count
      && s[5 + k..7 + k] == ": " && ParseClock(s[7 + k..]) == Some(Decompose(time))
  {
    ParseNatToString(count);
    FormatTimeRoundTrip(time);
    LapSlices(NatToString(count), FormatTime(time));
  }

  /** Where the fields of "Tour <d>: <f>" sit. */
  lemma LapSlices(d: string, f: string)
    ensures var s := "Tour " + d + ": " + f;
      && |s| == 7 + |d| + |f| && s[..5] == "Tour " && s[5..5 + |d|] == d
      && s[5 + |d|..7 + |d|] == ": " && s[7 + |d|..] == f
  {
    var s := "Tour " + d + ": " + f;
    assert s[..5] == "Tour ";
    assert s[5..5 + |d|] == d;
    assert s[5 + |d|..7 + |d|] == ": ";
    assert s[7 + |d|..] == f;
  }

  // ---------------------------------------------------------------------
  // The page state

  /** Item i of the lap list, counted from the top, is lap count - i. */
  ghost predicate LapsNumbered(laps: seq<string>, times: seq<int>, count: nat)
  {
    |laps| == |times| <= count
    && forall i :: 0 <= i < |laps| ==> laps[i] == LapText(count - i, times[i])
  }

  lemma LapsPush(laps: seq<string>, times: seq<int>, count: nat, time: int)
    requires LapsNumbered(laps, times, count)
    ensures LapsNumbered([LapText(count + 1, time)] + laps, [time] + times, count + 1)
  {
    var laps', times' := [LapText(count + 1, time)] + laps, [time] + times;
    forall i | 0 <= i < |laps'| ensures laps'[i] == LapText(count + 1 - i, times'[i]) {
      if i > 0 {
        assert laps'[i] == laps[i - 1] && times'[i] == times[i - 1];
      }
    }
  }

  class Stopwatch {
    /** Date.now() minus the elapsed time at the last start (undefined before). */
    var startTime: Option<int>
    var elapsedTime: int
    var lapCount: nat
    /** Whether the 10 ms interval is installed. */
    var ticking: bool
    var startDisabled: bool
    var stopDisabled: bool
    var lapDisabled: bool
    /** The lap list items, most recent first. */
    var laps: seq<string>
    /** The elapsed time recorded by each lap item, most recent first. */
    ghost var lapTimes: seq<int>
    /** The display's three texts; None until the script first writes them. */
    var readout: Option<Readout>

    /** The lap list numbers its items lapCount, lapCount - 1, ..., 1 from
        the top; only a ticking stopwatch has a start time; start is
        disabled exactly while ticking and lap exactly while not. */
    ghost predicate Valid()
      reads this
    {
      && |laps| == lapCount
      && LapsNumbered(laps, lapTimes, lapCount)
      && (ticking ==> startTime.Some? && !stopDisabled)
      && startDisabled == ticking
      && lapDisabled == !ticking
    }

    /** The state after the script loads: lap and stop disabled. */
    constructor ()
      ensures Valid()
      ensures startTime == None && elapsedTime == 0 && lapCount == 0 && laps == [] && readout == None
      ensures !ticking && !startDisabled && stopDisabled && lapDisabled
    {
      startTime := None;
      elapsedTime := 0;
      lapCount := 0;
      ticking := false;
      startDisabled := false;
      laps := [];
      lapTimes := [];
      readout := None;
      lapDisabled := true;
      stopDisabled := true;
    }

    /** startTimer at wall-clock time `now`: counting resumes from the
        elapsed time. */
    method StartTimer(now: int)
      requires Valid() && !ticking
      modifies this
      ensures Valid()
      ensures startTime == Some(now - old(elapsedTime)) && ticking
      ensures startDisabled && !stopDisabled && !lapDisabled
      ensures elapsedTime == old(elapsedTime) && lapCount == old(lapCount)
      ensures laps == old(laps) && lapTimes == old(lapTimes) && readout == old(readout)
    {
      startTime := Some(now - elapsedTime);
      ticking := true;
      startDisabled := true;
      stopDisabled := false;
      lapDisabled := false;
    }

    /** stopTimer: the interval is cleared; elapsed time and display stay. */
    method StopTimer()
      requires Valid()
      modifies this
      ensures Valid()
      ensures !ticking && !startDisabled && stopDisabled && lapDisabled
      ensures startTime == old(startTime) && elapsedTime == old(elapsedTime) && lapCount == old(lapCount)
      ensures laps == old(laps) && lapTimes == old(lapTimes) && readout == old(readout)
    {
      ticking := false;
      startDisabled := false;
      stopDisabled := true;
      lapDisabled := true;
    }

    /** resetTimer: zero elapsed time and laps, display 00:00:00; the stop
        button is left enabled. */
    method ResetTimer()
      requires Valid()
      modifies this
      ensures Valid()
      ensures !ticking && elapsedTime == 0 && lapCount == 0 && laps == []
      ensures readout == Some(DisplayTime(elapsedTime))
      ensures !startDisabled && !stopDisabled && lapDisabled
      ensures startTime == old(startTime)
    {
      ticking := false;
      elapsedTime := 0;
      lapCount := 0;
      startDisabled := false;
      stopDisabled := false;
      lapDisabled := true;
      laps := [];
      lapTimes := [];
      ShowTime(elapsedTime);
    }

    /** displayTime: the display shows the given time; nothing else changes. */
    method ShowTime(time: int)
      modifies this
      ensures readout == Some(DisplayTime(time))
      ensures startTime == old(startTime) && elapsedTime == old(elapsedTime) && lapCount == old(lapCount)
      ensures ticking == old(ticking) && startDisabled == old(startDisabled)
      ensures stopDisabled == old(stopDisabled) && lapDisabled == old(lapDisabled)
      ensures laps == old(laps) && lapTimes == old(lapTimes)
    {
      readout := Some(DisplayTime(time));
    }

    /** updateTime, run by the interval at wall-clock time `now`. */
    method UpdateTime(now: int)
      requires Valid() && ticking
      modifies this
      ensures Valid()
      ensures elapsedTime == now - old(startTime).value && readout == Some(DisplayTime(elapsedTime))
      ensures startTime == old(startTime) && ticking && lapCount == old(lapCount) && laps == old(laps)
      ensures lapTimes == old(lapTimes)
      ensures startDisabled == old(startDisabled) && stopDisabled == old(stopDisabled)
      ensures lapDisabled == old(lapDisabled)
    {
      elapsedTime := now - startTime.value;
      ShowTime(elapsedTime);
    }

    /** addLap: a new item "Tour <n>: <time>" at the top of the list. */
    method AddLap()
      requires Valid()
      modifies this
      ensures Valid()
      ensures lapCount == old(lapCount) + 1
      ensures laps == [LapText(lapCount, elapsedTime)] + old(laps)
      ensures lapTimes == [elapsedTime] + old(lapTimes)
      ensures elapsedTime == old(elapsedTime) && startTime == old(startTime) && ticking == old(ticking)
      ensures readout == old(readout) && startDisabled == old(startDisabled)
      ensures stopDisabled == old(stopDisabled) && lapDisabled == old(lapDisabled)
    {
      LapsPush(laps, lapTimes, lapCount, elapsedTime);
      lapCount := lapCount + 1;
      var lapTime := elapsedTime;
      laps := [LapText(lapCount, lapTime)] + laps;
      lapTimes := [lapTime] + lapTimes;
    }
  }

  /** Stopping and starting again loses no time: a tick `delta` ms after a
      restart shows the elapsed time of the stop plus `delta`. */
  method ResumeKeepsElapsed(w: Stopwatch, now: int, delta: int)
    requires w.Valid() && !w.ticking
    modifies w
    ensures w.Valid() && w.elapsedTime == old(w.elapsedTime) + delta
    ensures w.readout == Some(DisplayTime(w.elapsedTime))
  {
    w.StartTimer(now);
    w.UpdateTime(now + delta);
  }
}
