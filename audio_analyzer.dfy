/** The speech/silence segmentation engine of the video cutter: int16 PCM
    normalisation, the energy threshold, the 50 ms window scan, the 300 ms
    gap fusion, the margin optimiser and the ffmpeg filter-graph text.

    Sample positions are integers; amplitudes, energies and times are exact
    reals (the model does not follow IEEE rounding). */
module VideoCutter {
  import opened Text
  import opened Wrappers

  newtype int16 = x: int | -32768 <= x < 32768

  /** A span of the source video to keep, in seconds. */
  datatype Segment = Segment(start: real, end: real)

  datatype DetectError =
    | ZeroWindowStep  // int(sample_rate * 0.05) is 0 and range() refuses a zero step
    | EmptySignal     // no sample at all: the speech percentage divides 0 by 0

  // ---------------------------------------------------------------------
  // Waveform extraction: the int16 -> float normalisation

  /** Each 16-bit sample divided by 32768. */
  function Normalize(pcm: seq<int16>): (samples: seq<real>)
    ensures |samples| == |pcm|
    ensures forall i :: 0 <= i < |samples| ==> -1.0 <= samples[i] < 1.0
  {
    seq(|pcm|, i requires 0 <= i < |pcm| => pcm[i] as real / 32768.0)
  }

  /** Back from normalised floats to 16-bit samples. */
  function Denormalize(samples: seq<real>): (pcm: seq<int16>)
    requires forall i :: 0 <= i < |samples| ==> -1.0 <= samples[i] < 1.0
    ensures |pcm| == |samples|
  {
    seq(|samples|, i requires 0 <= i < |samples| => (samples[i] * 32768.0).Floor as int16)
  }

  /** The normalisation loses nothing: every sample can be recovered. */
  lemma NormalizeRoundTrip(pcm: seq<int16>)
    ensures Denormalize(Normalize(pcm)) == pcm
  {
    var back := Denormalize(Normalize(pcm));
    forall i | 0 <= i < |pcm| ensures back[i] == pcm[i] {
      assert Normalize(pcm)[i] * 32768.0 == pcm[i] as real;
    }
  }

  // ---------------------------------------------------------------------
  // Energy statistics and the sensitivity setting

  function Abs(x: real): real { if x < 0.0 then -x else x }

  /** Per-sample energy: the absolute amplitude. */
  function Energy(samples: seq<real>): (energy: seq<real>)
    ensures |energy| == |samples|
    ensures forall i :: 0 <= i < |energy| ==>
              energy[i] >= 0.0 && (energy[i] == samples[i] || energy[i] == -samples[i])
  {
    seq(|samples|, i requires 0 <= i < |samples| => Abs(samples[i]))
  }

  function Sum(s: seq<real>): real
  {
    if s == [] then 0.0 else Sum(s[..|s| - 1]) + s[|s| - 1]
  }

  function Mean(s: seq<real>): real
    requires |s| > 0
  {
    Sum(s) / |s| as real
  }

  /** The slider value (1 to 100) turned into the standard-deviation multiplier. */
  function Multiplier(value: real): real
  {
    0.1 + value / 50.0
  }

  /** Classification threshold: mean energy plus multiplier standard deviations. */
  function EnergyThreshold(mean: real, std: real, multiplier: real): real
  {
    mean + std * multiplier
  }

  /** The slider range 1..100 maps onto 0.12..2.1, increasingly. */
  lemma MultiplierRange(v: real)
    requires 1.0 <= v <= 100.0
    ensures Multiplier(1.0) == 0.12 && Multiplier(100.0) == 2.1
    ensures 0.12 <= Multiplier(v) <= 2.1
  {
  }

  /** A higher slider value never lowers the threshold (the deviation is never negative). */
  lemma ThresholdMonotone(mean: real, std: real, v1: real, v2: real)
    requires std >= 0.0 && v1 <= v2
    ensures EnergyThreshold(mean, std, Multiplier(v1)) <= EnergyThreshold(mean, std, Multiplier(v2))
  {
    assert std * (Multiplier(v2) - Multiplier(v1)) >= 0.0;
  }

  // ---------------------------------------------------------------------
  // Windows

  /** int(sample_rate * 0.05): the number of samples in a 50 ms window. */
  function WindowStep(rate: nat): nat
  {
    rate / 20
  }

  lemma WindowStepIsFloor(rate: nat)
    ensures WindowStep(rate) as real <= rate as real * 0.05 < (WindowStep(rate) + 1) as real
    ensures WindowStep(rate) == 0 <==> rate < 20
  {
  }

  /** Number of windows range(0, n, ws) visits. */
  function WindowCount(n: nat, ws: nat): nat
    requires ws > 0
  {
    (n + ws - 1) / ws
  }

  /** min(i + ws, n): the exclusive end of the window starting at i. */
  function WindowEnd(n: nat, ws: nat, i: nat): nat
  {
    if i + ws < n then i + ws else n
  }

  lemma MulMonotone(x: int, y: int, c: nat)
    requires x <= y
    ensures x * c <= y * c
  {
    assert y * c - x * c == (y - x) * c;
  }

  /** Window k exists exactly when it starts before the end of the data. */
  lemma WindowIndexBound(n: nat, ws: nat, k: nat)
    requires ws > 0
    ensures k < WindowCount(n, ws) <==> k * ws < n
  {
    var q := WindowCount(n, ws);
    assert q * ws <= n + ws - 1 < (q + 1) * ws;
    if k < q {
      MulMonotone(k + 1, q, ws);
    } else {
      MulMonotone(q, k, ws);
    }
  }

  /** Windows tile [0, n): each is non-empty, begins where the previous one
      ended, and only the last may hold fewer than ws samples. */
  lemma WindowPartition(n: nat, ws: nat, k: nat)
    requires ws > 0 && k < WindowCount(n, ws)
    ensures k * ws < WindowEnd(n, ws, k * ws)
    ensures k + 1 < WindowCount(n, ws) ==> WindowEnd(n, ws, k * ws) == (k + 1) * ws
    ensures k + 1 == WindowCount(n, ws) ==> WindowEnd(n, ws, k * ws) == n
    ensures WindowEnd(n, ws, k * ws) - k * ws <= ws
  {
    WindowIndexBound(n, ws, k);
    WindowIndexBound(n, ws, k + 1);
    assert (k + 1) * ws == k * ws + ws;
  }

  /** Mean energy of the window starting at sample i. */
  function WindowMean(energy: seq<real>, ws: nat, i: nat): real
    requires ws > 0 && i < |energy|
  {
    Mean(energy[i..WindowEnd(|energy|, ws, i)])
  }

  /** Window k is active when its mean energy exceeds the threshold. */
  predicate WindowActive(energy: seq<real>, ws: nat, threshold: real, k: nat)
    requires ws > 0 && k < WindowCount(|energy|, ws)
  {
    WindowIndexBound(|energy|, ws, k);
    WindowMean(energy, ws, k * ws) > threshold
  }

  /** The activity of windows 0..m-1, in order. */
  function FlagsUpTo(energy: seq<real>, ws: nat, threshold: real, m: nat): (f: seq<bool>)
    requires ws > 0 && m <= WindowCount(|energy|, ws)
    ensures |f| == m
  {
    if m == 0 then [] else FlagsUpTo(energy, ws, threshold, m - 1) + [WindowActive(energy, ws, threshold, m - 1)]
  }

  /** The activity of every window, in order. */
  function Flags(energy: seq<real>, ws: nat, threshold: real): (f: seq<bool>)
    requires ws > 0
    ensures |f| == WindowCount(|energy|, ws)
  {
    FlagsUpTo(energy, ws, threshold, WindowCount(|energy|, ws))
  }

  lemma {:induction false} FlagsUpToAt(energy: seq<real>, ws: nat, threshold: real, m: nat, k: nat)
    requires ws > 0 && k < m <= WindowCount(|energy|, ws)
    ensures FlagsUpTo(energy, ws, threshold, m)[k] == WindowActive(energy, ws, threshold, k)
  {
    if k < m - 1 {
      FlagsUpToAt(energy, ws, threshold, m - 1, k);
    }
  }

  /** Window k's flag says whether its mean energy exceeds the threshold. */
  lemma FlagAt(energy: seq<real>, ws: nat, threshold: real, k: nat)
    requires ws > 0 && k < WindowCount(|energy|, ws)
    ensures Flags(energy, ws, threshold)[k] == WindowActive(energy, ws, threshold, k)
  {
    FlagsUpToAt(energy, ws, threshold, WindowCount(|energy|, ws), k);
  }

  /** A higher threshold never turns a silent window into an active one. */
  lemma FlagsAntitone(energy: seq<real>, ws: nat, t1: real, t2: real, k: nat)
    requires ws > 0 && t1 <= t2 && k < WindowCount(|energy|, ws)
    ensures Flags(energy, ws, t2)[k] ==> Flags(energy, ws, t1)[k]
  {
    FlagAt(energy, ws, t1, k);
    FlagAt(energy, ws, t2, k);
  }

  // ---------------------------------------------------------------------
  // Runs of active windows

  /** Windows a..b-1 are all active and the run cannot be extended either way. */
  ghost predicate MaximalRun(f: seq<bool>, a: int, b: int)
  {
    && 0 <= a < b <= |f|
    && (forall t :: a <= t < b ==> f[t])
    && (a == 0 || !f[a - 1])
    && (b == |f| || !f[b])
  }

  /** The sample at which a run ending before window b closes: the start of
      window b, or the end of the data when the run reaches the last window. */
  function RunEnd(f: seq<bool>, n: nat, ws: nat, b: int): int
  {
    if b == |f| then n else b * ws
  }

  /** Longer than 100 ms: end - start > sample_rate * 0.1. */
  predicate LongEnough(start: int, end: int, rate: nat)
  {
    (end - start) as real > rate as real * 0.1
  }

  ghost predicate KeptRun(f: seq<bool>, n: nat, ws: nat, rate: nat, a: int, b: int)
  {
    MaximalRun(f, a, b) && LongEnough(a * ws, RunEnd(f, n, ws, b), rate)
  }

  function ToSeconds(start: int, end: int, rate: nat): Segment
    requires rate > 0
  {
    Segment(start as real / rate as real, end as real / rate as real)
  }

  function RunSegment(f: seq<bool>, n: nat, ws: nat, rate: nat, run: (int, int)): Segment
    requires rate > 0
  {
    ToSeconds(run.0 * ws, RunEnd(f, n, ws, run.1), rate)
  }

  lemma RunStartUnique(f: seq<bool>, a: int, ra: int, k: int)
    requires 0 <= ra < k <= |f| && (forall t :: ra <= t < k ==> f[t]) && (ra == 0 || !f[ra - 1])
    requires 0 <= a < k && (forall t :: a <= t < k ==> f[t]) && (a == 0 || !f[a - 1])
    ensures a == ra
  {
  }

  /** `runs` (with `raw`, their spans in seconds) lists, in order, exactly
      the kept runs that end before window `bound`. */
  ghost predicate Recorded(f: seq<bool>, n: nat, ws: nat, rate: nat, bound: int,
                           raw: seq<Segment>, runs: seq<(int, int)>)
  {
    && rate > 0
    && |runs| == |raw|
    && (forall j :: 0 <= j < |runs| ==>
          KeptRun(f, n, ws, rate, runs[j].0, runs[j].1) && runs[j].1 < bound
          && raw[j] == RunSegment(f, n, ws, rate, runs[j]))
    && (forall a, b :: KeptRun(f, n, ws, rate, a, b) && b < bound ==> (a, b) in runs)
    && (forall j1, j2 :: 0 <= j1 < j2 < |runs| ==> runs[j1].1 < runs[j2].0)
  }

  /** What the scan knows after visiting windows 0..k-1: `isSpeech` says
      whether window k-1 was active and `ra` is where the open run began. */
  ghost predicate ScanInvariant(f: seq<bool>, n: nat, ws: nat, rate: nat, k: int, isSpeech: bool, ra: int,
                                raw: seq<Segment>, runs: seq<(int, int)>)
  {
    && 0 <= k <= |f|
    && (isSpeech <==> (k > 0 && f[k - 1]))
    && (isSpeech ==> 0 <= ra < k && (forall t :: ra <= t < k ==> f[t]) && (ra == 0 || !f[ra - 1]))
    && (isSpeech ==> forall j :: 0 <= j < |runs| ==> runs[j].1 < ra)
    && Recorded(f, n, ws, rate, k, raw, runs)
  }

  /** Silence -> Speech, Speech -> Speech and Silence -> Silence record nothing. */
  lemma {:induction false} ScanStepNoClose(f: seq<bool>, n: nat, ws: nat, rate: nat, k: int, isSpeech: bool, ra: int,
                                           raw: seq<Segment>, runs: seq<(int, int)>)
    requires ScanInvariant(f, n, ws, rate, k, isSpeech, ra, raw, runs) && k < |f|
    requires !(isSpeech && !f[k])
    ensures ScanInvariant(f, n, ws, rate, k + 1, f[k], if !isSpeech && f[k] then k else ra, raw, runs)
  {
    forall a, b | KeptRun(f, n, ws, rate, a, b) && b < k + 1 ensures (a, b) in runs {
    }
  }

  /** Speech -> Silence at window k (or at the end of the data, k == |f|)
      for a run of more than 100 ms: the run ra..k-1 is recorded. */
  lemma {:induction false} ScanCloseKept(f: seq<bool>, n: nat, ws: nat, rate: nat, k: int, ra: int,
                                         raw: seq<Segment>, runs: seq<(int, int)>, startTime: int, endTime: int)
    requires ScanInvariant(f, n, ws, rate, k, true, ra, raw, runs)
    requires k == |f| || !f[k]
    requires startTime == ra * ws && endTime == RunEnd(f, n, ws, k)
    requires (endTime - startTime) as real > rate as real * 0.1
    ensures Recorded(f, n, ws, rate, k + 1,
                     raw + [Segment(startTime as real / rate as real, endTime as real / rate as real)],
                     runs + [(ra, k)])
    ensures k < |f| ==> ScanInvariant(f, n, ws, rate, k + 1, false, ra,
                     raw + [Segment(startTime as real / rate as real, endTime as real / rate as real)],
                     runs + [(ra, k)])
  {
    var runs' := runs + [(ra, k)];
    forall a | KeptRun(f, n, ws, rate, a, k) ensures (a, k) in runs' {
      RunStartUnique(f, a, ra, k);
    }
  }

  /** The same transition for a run of 100 ms or less: nothing is recorded. */
  lemma {:induction false} ScanCloseDropped(f: seq<bool>, n: nat, ws: nat, rate: nat, k: int, ra: int,
                                            raw: seq<Segment>, runs: seq<(int, int)>, startTime: int, endTime: int)
    requires ScanInvariant(f, n, ws, rate, k, true, ra, raw, runs)
    requires k == |f| || !f[k]
    requires startTime == ra * ws && endTime == RunEnd(f, n, ws, k)
    requires !((endTime - startTime) as real > rate as real * 0.1)
    ensures Recorded(f, n, ws, rate, k + 1, raw, runs)
    ensures k < |f| ==> ScanInvariant(f, n, ws, rate, k + 1, false, ra, raw, runs)
  {
    forall a | KeptRun(f, n, ws, rate, a, k) ensures false {
      RunStartUnique(f, a, ra, k);
    }
  }

  /** At the end of the data in state Silence nothing is left to record. */
  lemma ScanEndQuiet(f: seq<bool>, n: nat, ws: nat, rate: nat, k: int, ra: int,
                     raw: seq<Segment>, runs: seq<(int, int)>)
    requires ScanInvariant(f, n, ws, rate, k, false, ra, raw, runs) && k == |f|
    ensures Recorded(f, n, ws, rate, k + 1, raw, runs)
  {
    forall a, b | KeptRun(f, n, ws, rate, a, b) && b < k + 1 ensures (a, b) in runs {
    }
  }

  /** One window of the scan, as the if/elif chain of the source decides it:
      Speech -> Silence closes the open run (and records it when it lasts
      more than 100 ms), Silence -> Speech opens a run at window k, and the
      other two cases change nothing. */
  ghost predicate Transition(f: seq<bool>, n: nat, ws: nat, rate: nat, k: int,
                             isSpeech: bool, ra: int, raw: seq<Segment>, runs: seq<(int, int)>,
                             isSpeech': bool, ra': int, raw': seq<Segment>, runs': seq<(int, int)>)
    requires rate > 0 && 0 <= k < |f|
  {
    if isSpeech && !f[k] then
      && !isSpeech' && ra' == ra
      && if LongEnough(ra * ws, RunEnd(f, n, ws, k), rate)
         then raw' == raw + [RunSegment(f, n, ws, rate, (ra, k))] && runs' == runs + [(ra, k)]
         else raw' == raw && runs' == runs
    else
      isSpeech' == f[k] && ra' == (if !isSpeech && f[k] then k else ra) && raw' == raw && runs' == runs
  }

  lemma ScanStep(f: seq<bool>, n: nat, ws: nat, rate: nat, k: int,
                 isSpeech: bool, ra: int, raw: seq<Segment>, runs: seq<(int, int)>,
                 isSpeech': bool, ra': int, raw': seq<Segment>, runs': seq<(int, int)>)
    requires ScanInvariant(f, n, ws, rate, k, isSpeech, ra, raw, runs) && k < |f|
    requires Transition(f, n, ws, rate, k, isSpeech, ra, raw, runs, isSpeech', ra', raw', runs')
    ensures ScanInvariant(f, n, ws, rate, k + 1, isSpeech', ra', raw', runs')
  {
    if isSpeech && !f[k] {
      var startTime, endTime := ra * ws, RunEnd(f, n, ws, k);
      if LongEnough(startTime, endTime, rate) {
        ScanCloseKept(f, n, ws, rate, k, ra, raw, runs, startTime, endTime);
      } else {
        ScanCloseDropped(f, n, ws, rate, k, ra, raw, runs, startTime, endTime);
      }
    } else {
      ScanStepNoClose(f, n, ws, rate, k, isSpeech, ra, raw, runs);
    }
  }

  /** The scan's result: in time order, every kept run of active windows
      (maximal, longer than 100 ms) and nothing else, each as its span in
      seconds; `runs` gives each one's first and past-the-end window. */
  ghost predicate ScanResult(energy: seq<real>, rate: nat, threshold: real, raw: seq<Segment>, runs: seq<(int, int)>)
    requires WindowStep(rate) > 0
  {
    var f := Flags(energy, WindowStep(rate), threshold);
    Recorded(f, |energy|, WindowStep(rate), rate, |f| + 1, raw, runs)
  }

  /** The window scan of detect_speech_segments: the Silence/Speech state
      machine over 50 ms windows. The result lists, in time order, exactly
      the maximal runs of active windows that last longer than 100 ms, in
      seconds; a run still open at the end of the data closes at the last
      sample. The ghost `runs` names each result's first and past-the-end
      window. */
  method ScanWindows(energy: seq<real>, rate: nat, threshold: real)
    returns (raw: seq<Segment>, ghost runs: seq<(int, int)>)
    requires WindowStep(rate) > 0
    ensures ScanResult(energy, rate, threshold, raw, runs)
  {
    var ws := WindowStep(rate);
    var n := |energy|;
    ghost var f := Flags(energy, ws, threshold);
    raw, runs := [], [];
    var isSpeech := false;
    var startTime := 0;
    ghost var k, ra := 0, 0;
    var i := 0;
    while i < n
      invariant ScanInvariant(f, n, ws, rate, k, isSpeech, ra, raw, runs)
      invariant i == k * ws && (isSpeech ==> startTime == ra * ws)
    {
      WindowIndexBound(n, ws, k);
      var windowEnd := if i + ws < n then i + ws else n;
      var windowEnergy := Mean(energy[i..windowEnd]);
      FlagAt(energy, ws, threshold, k);
      assert f[k] == (windowEnergy > threshold);
      ghost var isSpeech0, ra0, raw0, runs0 := isSpeech, ra, raw, runs;
      if windowEnergy <= threshold && isSpeech {
        isSpeech := false;
        var endTime := i;
        if (endTime - startTime) as real > rate as real * 0.1 {
          raw := raw + [Segment(startTime as real / rate as real, endTime as real / rate as real)];
          runs := runs + [(ra, k)];
        }
      } else if windowEnergy > threshold && !isSpeech {
        isSpeech := true;
        startTime := i;
        ra := k;
      }
      ScanStep(f, n, ws, rate, k, isSpeech0, ra0, raw0, runs0, isSpeech, ra, raw, runs);
      assert (k + 1) * ws == i + ws;
      i := i + ws;
      k := k + 1;
    }
    WindowIndexBound(n, ws, k);
    assert k == |f|;
    if isSpeech {
      var endTime := n;
      if (endTime - startTime) as real > rate as real * 0.1 {
        ScanCloseKept(f, n, ws, rate, k, ra, raw, runs, startTime, endTime);
        raw := raw + [Segment(startTime as real / rate as real, endTime as real / rate as real)];
        runs := runs + [(ra, k)];
      } else {
        ScanCloseDropped(f, n, ws, rate, k, ra, raw, runs, startTime, endTime);
      }
    } else {
      ScanEndQuiet(f, n, ws, rate, k, ra, raw, runs);
    }
  }

  // ---------------------------------------------------------------------
  // Interval lists

  /** Every segment lies in [0, duration] with start < end, and no segment
      overlaps a later one (touching is allowed). */
  ghost predicate Timeline(segs: seq<Segment>, duration: real)
  {
    && (forall j :: 0 <= j < |segs| ==> 0.0 <= segs[j].start < segs[j].end <= duration)
    && (forall j1, j2 :: 0 <= j1 < j2 < |segs| ==> segs[j1].end <= segs[j2].start)
  }

  /** A strictly positive gap separates each segment from every later one. */
  ghost predicate Separated(segs: seq<Segment>)
  {
    forall j1, j2 :: 0 <= j1 < j2 < |segs| ==> segs[j1].end < segs[j2].start
  }

  predicate Contains(outer: Segment, inner: Segment)
  {
    outer.start <= inner.start && inner.end <= outer.end
  }

  /** Some segment of the list contains s. */
  ghost predicate CoveredBy(outer: seq<Segment>, s: Segment)
  {
    exists j :: 0 <= j < |outer| && Contains(outer[j], s)
  }

  /** s contains some segment of the list. */
  ghost predicate Holds(s: Segment, inner: seq<Segment>)
  {
    exists i :: 0 <= i < |inner| && Contains(s, inner[i])
  }

  /** Every inner segment lies inside some outer segment: nothing is cut. */
  ghost predicate Covers(outer: seq<Segment>, inner: seq<Segment>)
  {
    forall i :: 0 <= i < |inner| ==> CoveredBy(outer, inner[i])
  }

  /** Every outer segment holds at least one inner segment: nothing is invented. */
  ghost predicate Witnessed(outer: seq<Segment>, inner: seq<Segment>)
  {
    forall j :: 0 <= j < |outer| ==> Holds(outer[j], inner)
  }

  lemma SecondsMonotone(x: int, y: int, rate: nat)
    requires rate > 0 && x <= y
    ensures x as real / rate as real <= y as real / rate as real
  {
    assert y as real / rate as real - x as real / rate as real == (y - x) as real / rate as real;
  }

  lemma SecondsStrict(x: int, y: int, rate: nat)
    requires rate > 0 && x < y
    ensures x as real / rate as real < y as real / rate as real
  {
    assert y as real / rate as real - x as real / rate as real == (y - x) as real / rate as real;
  }

  /** The scan's segments form a timeline within the waveform's duration. */
  lemma {:induction false} ScanTimeline(energy: seq<real>, rate: nat, threshold: real,
                                        raw: seq<Segment>, runs: seq<(int, int)>)
    requires WindowStep(rate) > 0 && ScanResult(energy, rate, threshold, raw, runs)
    ensures Timeline(raw, |energy| as real / rate as real)
  {
    var ws, n := WindowStep(rate), |energy|;
    var f := Flags(energy, ws, threshold);
    forall j | 0 <= j < |raw|
      ensures 0.0 <= raw[j].start < raw[j].end <= n as real / rate as real
    {
      assert KeptRun(f, n, ws, rate, runs[j].0, runs[j].1);
      RunSegmentBounds(f, n, ws, rate, runs[j]);
    }
    forall j1, j2 | 0 <= j1 < j2 < |raw| ensures raw[j1].end <= raw[j2].start {
      assert runs[j1].1 < runs[j2].0;
      RunSegmentsOrdered(f, n, ws, rate, runs[j1], runs[j2]);
    }
  }

  /** A kept run spans a non-empty interval of the waveform, in seconds. */
  lemma RunSegmentBounds(f: seq<bool>, n: nat, ws: nat, rate: nat, run: (int, int))
    requires ws > 0 && rate > 0 && |f| == WindowCount(n, ws) && KeptRun(f, n, ws, rate, run.0, run.1)
    ensures var s := RunSegment(f, n, ws, rate, run); 0.0 <= s.start < s.end <= n as real / rate as real
  {
    var (a, b) := run;
    if b < |f| {
      WindowIndexBound(n, ws, b);
    }
    MulMonotone(0, a, ws);
    SecondsMonotone(0, a * ws, rate);
    SecondsStrict(a * ws, RunEnd(f, n, ws, b), rate);
    SecondsMonotone(RunEnd(f, n, ws, b), n, rate);
  }

  /** A run that closes before another opens ends, in seconds, no later
      than the other starts. */
  lemma RunSegmentsOrdered(f: seq<bool>, n: nat, ws: nat, rate: nat, r1: (int, int), r2: (int, int))
    requires ws > 0 && rate > 0 && 0 <= r1.1 < r2.0 <= |f|
    ensures RunSegment(f, n, ws, rate, r1).end <= RunSegment(f, n, ws, rate, r2).start
  {
    MulMonotone(r1.1, r2.0, ws);
    SecondsMonotone(r1.1 * ws, r2.0 * ws, rate);
  }

  /** The first window of the run of active windows that holds window a. */
  lemma {:induction false} RunStart(f: seq<bool>, a: int) returns (start: int)
    requires 0 <= a < |f| && f[a]
    ensures 0 <= start <= a && (forall t :: start <= t <= a ==> f[t]) && (start == 0 || !f[start - 1])
    decreases a
  {
    if a == 0 || !f[a - 1] {
      start := a;
    } else {
      start := RunStart(f, a - 1);
    }
  }

  /** The past-the-end window of the run of active windows that holds window b - 1. */
  lemma {:induction false} RunStop(f: seq<bool>, b: int) returns (stop: int)
    requires 0 < b <= |f| && f[b - 1]
    ensures b <= stop <= |f| && (forall t :: b - 1 <= t < stop ==> f[t]) && (stop == |f| || !f[stop])
    decreases |f| - b
  {
    if b == |f| || !f[b] {
      stop := b;
    } else {
      stop := RunStop(f, b + 1);
    }
  }

  /** Where every active window of f2 is active in f1, each maximal run of
      f2 lies inside a maximal run of f1. */
  lemma EnclosingRun(f1: seq<bool>, f2: seq<bool>, a: int, b: int) returns (a': int, b': int)
    requires |f1| == |f2| && (forall t :: 0 <= t < |f2| && f2[t] ==> f1[t])
    requires MaximalRun(f2, a, b)
    ensures MaximalRun(f1, a', b') && a' <= a && b <= b'
  {
    a' := RunStart(f1, a);
    b' := RunStop(f1, b);
  }

  /** A run that closes later in the same data closes at a later sample. */
  lemma RunEndMonotone(f1: seq<bool>, f2: seq<bool>, n: nat, ws: nat, b: int, b': int)
    requires ws > 0 && |f1| == |f2| == WindowCount(n, ws) && 0 < b <= b' <= |f1|
    ensures RunEnd(f2, n, ws, b) <= RunEnd(f1, n, ws, b')
  {
    if b < |f2| {
      WindowIndexBound(n, ws, b);
      MulMonotone(b, b', ws);
    }
  }

  /** Raising the threshold never finds speech that the lower threshold
      misses: each segment scanned at t2 lies inside a segment scanned at
      t1 <= t2. */
  lemma ScanMonotone(energy: seq<real>, rate: nat, t1: real, t2: real,
                     raw1: seq<Segment>, runs1: seq<(int, int)>, raw2: seq<Segment>, runs2: seq<(int, int)>)
    requires WindowStep(rate) > 0 && t1 <= t2
    requires ScanResult(energy, rate, t1, raw1, runs1) && ScanResult(energy, rate, t2, raw2, runs2)
    ensures Covers(raw1, raw2)
  {
    var ws, n := WindowStep(rate), |energy|;
    var f1, f2 := Flags(energy, ws, t1), Flags(energy, ws, t2);
    forall t | 0 <= t < |f2| && f2[t] ensures f1[t] {
      FlagsAntitone(energy, ws, t1, t2, t);
    }
    forall i | 0 <= i < |raw2| ensures CoveredBy(raw1, raw2[i]) {
      var (a, b) := runs2[i];
      assert KeptRun(f2, n, ws, rate, a, b);
      var a', b' := EnclosingRun(f1, f2, a, b);
      MulMonotone(a', a, ws);
      RunEndMonotone(f1, f2, n, ws, b, b');
      assert KeptRun(f1, n, ws, rate, a', b');
      assert (a', b') in runs1;
      var j :| 0 <= j < |runs1| && runs1[j] == (a', b');
      SecondsMonotone(a' * ws, a * ws, rate);
      SecondsMonotone(RunEnd(f2, n, ws, b), RunEnd(f1, n, ws, b'), rate);
      assert Contains(raw1[j], raw2[i]);
    }
  }

  // ---------------------------------------------------------------------
  // Merging consecutive segments into blocks

  /** 0 = cuts[0] < cuts[1] < ... < cuts[|cuts| - 1] = n: the input indices
      cuts[j] .. cuts[j + 1] - 1 form block j. */
  ghost predicate Blocks(cuts: seq<int>, n: nat)
  {
    && |cuts| >= 1 && cuts[0] == 0 && cuts[|cuts| - 1] == n
    && (forall j1, j2 :: 0 <= j1 < j2 < |cuts| ==> cuts[j1] < cuts[j2])
  }

  /** The blocks opened so far while scanning inputs 0 .. i - 1: a strictly
      increasing list starting at 0 whose last block is still open. */
  ghost predicate OpenBlocks(cuts: seq<int>, i: int)
  {
    && |cuts| >= 1 && cuts[0] == 0 && cuts[|cuts| - 1] < i
    && (forall j1, j2 :: 0 <= j1 < j2 < |cuts| ==> cuts[j1] < cuts[j2])
  }

  lemma OpenBlocksBelow(cuts: seq<int>, i: int)
    requires OpenBlocks(cuts, i)
    ensures forall c :: c in cuts ==> 0 <= c < i
  {
    forall c | c in cuts ensures 0 <= c < i {
      var k :| 0 <= k < |cuts| && cuts[k] == c;
      assert k == 0 || cuts[0] < cuts[k];
      assert k == |cuts| - 1 || cuts[k] < cuts[|cuts| - 1];
    }
  }

  lemma OpenBlocksGrow(cuts: seq<int>, i: int)
    requires OpenBlocks(cuts, i)
    ensures OpenBlocks(cuts, i + 1) && OpenBlocks(cuts + [i], i + 1) && Blocks(cuts + [i], i)
  {
  }

  /** A strictly increasing list of naturals from 0 to n has at most n + 1 entries. */
  lemma {:induction false} BlocksCount(cuts: seq<int>, n: nat)
    requires Blocks(cuts, n)
    ensures |cuts| - 1 <= n
  {
    var k := 0;
    while k < |cuts| - 1
      invariant 0 <= k < |cuts| && cuts[k] >= k
    {
      assert cuts[k] < cuts[k + 1];
      k := k + 1;
    }
  }

  /** One segment spanning inputs a .. b - 1: from the first start to the last end. */
  function Span(raw: seq<Segment>, a: int, b: int): Segment
    requires 0 <= a < b <= |raw|
  {
    Segment(raw[a].start, raw[b - 1].end)
  }

  /** Block j as one segment. */
  function Hull(raw: seq<Segment>, cuts: seq<int>, j: int): Segment
    requires Blocks(cuts, |raw|) && 0 <= j < |cuts| - 1
  {
    Span(raw, cuts[j], cuts[j + 1])
  }

  /** Block j's index range contains input i. */
  lemma {:induction false} FindBlock(cuts: seq<int>, n: nat, i: int) returns (j: int)
    requires Blocks(cuts, n) && 0 <= i < n
    ensures 0 <= j < |cuts| - 1 && cuts[j] <= i < cuts[j + 1]
  {
    j := 0;
    while cuts[j + 1] <= i
      invariant 0 <= j < |cuts| - 1 && cuts[j] <= i
      decreases |cuts| - j
    {
      j := j + 1;
    }
  }

  /** The hulls of a partition's blocks, in order. */
  ghost predicate Hulls(raw: seq<Segment>, cuts: seq<int>, merged: seq<Segment>)
  {
    && Blocks(cuts, |raw|) && |merged| == |cuts| - 1
    && (forall j :: 0 <= j < |merged| ==> merged[j] == Hull(raw, cuts, j))
  }

  /** In a timeline, a block's hull contains each segment of the block. */
  lemma HullContains(raw: seq<Segment>, cuts: seq<int>, duration: real, j: int, i: int)
    requires Timeline(raw, duration) && Blocks(cuts, |raw|) && 0 <= j < |cuts| - 1
    requires cuts[j] <= i < cuts[j + 1]
    ensures Contains(Hull(raw, cuts, j), raw[i])
  {
    var a, b := cuts[j], cuts[j + 1];
    assert a == i || raw[a].end <= raw[i].start;
    assert i == b - 1 || raw[i].end <= raw[b - 1].start;
  }

  lemma {:induction false} HullsBounds(raw: seq<Segment>, cuts: seq<int>, merged: seq<Segment>, duration: real)
    requires Timeline(raw, duration) && Hulls(raw, cuts, merged)
    ensures Timeline(merged, duration)
  {
    forall j | 0 <= j < |merged| ensures 0.0 <= merged[j].start < merged[j].end <= duration {
      HullContains(raw, cuts, duration, j, cuts[j]);
    }
    forall j1, j2 | 0 <= j1 < j2 < |merged| ensures merged[j1].end <= merged[j2].start {
      assert cuts[j1 + 1] - 1 < cuts[j2];
    }
  }

  lemma {:induction false} HullsCover(raw: seq<Segment>, cuts: seq<int>, merged: seq<Segment>, duration: real)
    requires Timeline(raw, duration) && Hulls(raw, cuts, merged)
    ensures Covers(merged, raw)
  {
    forall i | 0 <= i < |raw| ensures CoveredBy(merged, raw[i]) {
      var j := FindBlock(cuts, |raw|, i);
      HullContains(raw, cuts, duration, j, i);
      assert Contains(merged[j], raw[i]);
    }
  }

  lemma {:induction false} HullsWitnessed(raw: seq<Segment>, cuts: seq<int>, merged: seq<Segment>, duration: real)
    requires Timeline(raw, duration) && Hulls(raw, cuts, merged)
    ensures Witnessed(merged, raw)
  {
    forall j | 0 <= j < |merged| ensures Holds(merged[j], raw) {
      HullContains(raw, cuts, duration, j, cuts[j]);
      assert cuts[j] < cuts[j + 1] <= |raw|;
      assert Contains(merged[j], raw[cuts[j]]);
    }
  }

  /** Hulls of a timeline's blocks form a timeline that keeps every input
      segment and holds only input segments. */
  lemma HullsTimeline(raw: seq<Segment>, cuts: seq<int>, merged: seq<Segment>, duration: real)
    requires Timeline(raw, duration) && Hulls(raw, cuts, merged)
    ensures Timeline(merged, duration) && Covers(merged, raw) && Witnessed(merged, raw)
  {
    HullsBounds(raw, cuts, merged, duration);
    HullsCover(raw, cuts, merged, duration);
    HullsWitnessed(raw, cuts, merged, duration);
  }

  /** Growing each segment of a list keeps what the list covered and what it held. */
  lemma GrowKeeps(outer: seq<Segment>, mid: seq<Segment>, inner: seq<Segment>)
    requires |outer| == |mid| && forall j :: 0 <= j < |mid| ==> Contains(outer[j], mid[j])
    ensures Covers(mid, inner) ==> Covers(outer, inner)
    ensures Witnessed(mid, inner) ==> Witnessed(outer, inner)
  {
    if Covers(mid, inner) {
      forall i | 0 <= i < |inner| ensures CoveredBy(outer, inner[i]) {
        var j :| 0 <= j < |mid| && Contains(mid[j], inner[i]);
        assert Contains(outer[j], mid[j]);
        assert Contains(outer[j], inner[i]);
      }
    }
    if Witnessed(mid, inner) {
      forall j | 0 <= j < |outer| ensures Holds(outer[j], inner) {
        var i :| 0 <= i < |inner| && Contains(mid[j], inner[i]);
        assert Contains(outer[j], mid[j]);
        assert Contains(outer[j], inner[i]);
      }
    }
  }

  /** Containment chains: what covers the fused segments covers the scan's segments. */
  lemma CoversTrans(outer: seq<Segment>, mid: seq<Segment>, inner: seq<Segment>)
    requires Covers(outer, mid) && Covers(mid, inner)
    ensures Covers(outer, inner)
  {
    forall i | 0 <= i < |inner| ensures CoveredBy(outer, inner[i]) {
      var k :| 0 <= k < |mid| && Contains(mid[k], inner[i]);
      assert CoveredBy(outer, mid[k]);
      var j :| 0 <= j < |outer| && Contains(outer[j], mid[k]);
      assert Contains(outer[j], inner[i]);
    }
  }

  /** Each output holds a fused segment, which holds a scan segment. */
  lemma WitnessedTrans(outer: seq<Segment>, mid: seq<Segment>, inner: seq<Segment>)
    requires Witnessed(outer, mid) && Witnessed(mid, inner)
    ensures Witnessed(outer, inner)
  {
    forall j | 0 <= j < |outer| ensures Holds(outer[j], inner) {
      var k :| 0 <= k < |mid| && Contains(outer[j], mid[k]);
      assert Holds(mid[k], inner);
      var i :| 0 <= i < |inner| && Contains(mid[k], inner[i]);
      assert Contains(outer[j], inner[i]);
    }
  }

  /** Minimum gap kept between fused segments, in seconds. */
  const MinGap: real := 0.3

  /** The fusion starts a new block at input p exactly when p starts at
      least 0.3 s after input p - 1 ends. */
  ghost predicate FusionCuts(raw: seq<Segment>, cuts: seq<int>, i: int)
    requires 0 <= i <= |raw|
  {
    forall p :: 0 < p < i ==> (p in cuts <==> raw[p].start - raw[p - 1].end >= MinGap)
  }

  /** The fusion's state after reading inputs 0 .. i - 1: the closed blocks
      are fused into their hulls, and the last entry spans the open block. */
  ghost predicate FuseState(raw: seq<Segment>, cuts: seq<int>, merged: seq<Segment>, i: int)
  {
    && 1 <= i <= |raw| && OpenBlocks(cuts, i) && |merged| == |cuts|
    && (forall j :: 0 <= j < |merged| - 1 ==> merged[j] == Span(raw, cuts[j], cuts[j + 1]))
    && merged[|merged| - 1] == Span(raw, cuts[|cuts| - 1], i)
    && FusionCuts(raw, cuts, i)
  }

  lemma FuseJoin(raw: seq<Segment>, cuts: seq<int>, merged: seq<Segment>, i: int)
    requires FuseState(raw, cuts, merged, i) && i < |raw|
    requires raw[i].start - raw[i - 1].end < MinGap
    ensures FuseState(raw, cuts, merged[|merged| - 1 := Segment(merged[|merged| - 1].start, raw[i].end)], i + 1)
  {
    OpenBlocksBelow(cuts, i);
    OpenBlocksGrow(cuts, i);
  }

  lemma FuseCut(raw: seq<Segment>, cuts: seq<int>, merged: seq<Segment>, i: int)
    requires FuseState(raw, cuts, merged, i) && i < |raw|
    requires raw[i].start - raw[i - 1].end >= MinGap
    ensures FuseState(raw, cuts + [i], merged + [raw[i]], i + 1)
  {
    OpenBlocksGrow(cuts, i);
    var cuts', merged' := cuts + [i], merged + [raw[i]];
    forall j | 0 <= j < |merged'| - 1 ensures merged'[j] == Span(raw, cuts'[j], cuts'[j + 1]) {
      if j == |merged| - 1 {
        assert merged'[j] == merged[j] && cuts'[j + 1] == i;
      } else {
        assert merged'[j] == merged[j] && cuts'[j + 1] == cuts[j + 1];
      }
    }
  }

  lemma FuseDone(raw: seq<Segment>, cuts: seq<int>, merged: seq<Segment>)
    requires raw != [] && FuseState(raw, cuts, merged, |raw|)
    ensures Hulls(raw, cuts + [|raw|], merged) && FusionCuts(raw, cuts + [|raw|], |raw|)
  {
    OpenBlocksBelow(cuts, |raw|);
    OpenBlocksGrow(cuts, |raw|);
    var cuts' := cuts + [|raw|];
    forall j | 0 <= j < |merged| ensures merged[j] == Hull(raw, cuts', j) {
      assert cuts'[j] == cuts[j];
    }
  }

  /** The 300 ms fusion of detect_speech_segments: a segment starting less
      than 0.3 s after the end of the previous one joins its block. The
      blocks partition the input, a block boundary falls exactly where the
      gap reaches 0.3 s, and each output segment is its block's hull. */
  method FuseCloseSegments(raw: seq<Segment>) returns (merged: seq<Segment>, ghost cuts: seq<int>)
    ensures Hulls(raw, cuts, merged) && FusionCuts(raw, cuts, |raw|)
  {
    if raw == [] {
      return [], [0];
    }
    merged := [raw[0]];
    cuts := [0];
    var i := 1;
    while i < |raw|
      invariant FuseState(raw, cuts, merged, i)
    {
      var current := raw[i];
      var last := merged[|merged| - 1];
      if current.start - last.end < MinGap {
        FuseJoin(raw, cuts, merged, i);
        merged := merged[|merged| - 1 := Segment(last.start, current.end)];
      } else {
        FuseCut(raw, cuts, merged, i);
        merged := merged + [current];
        cuts := cuts + [i];
      }
      i := i + 1;
    }
    FuseDone(raw, cuts, merged);
    cuts := cuts + [|raw|];
  }

  /** What the fusion guarantees: consecutive outputs are at least 0.3 s
      apart, there are never more outputs than inputs, none when there is
      no input, and the first start and the last end are kept. */
  lemma {:induction false} FusionGaps(raw: seq<Segment>, cuts: seq<int>, merged: seq<Segment>)
    requires Hulls(raw, cuts, merged) && FusionCuts(raw, cuts, |raw|)
    ensures forall j :: 0 <= j < |merged| - 1 ==> merged[j + 1].start - merged[j].end >= MinGap
    ensures |merged| <= |raw| && (merged == [] <==> raw == [])
    ensures raw != [] ==> merged[0].start == raw[0].start && merged[|merged| - 1].end == raw[|raw| - 1].end
  {
    BlocksCount(cuts, |raw|);
    forall j | 0 <= j < |merged| - 1 ensures merged[j + 1].start - merged[j].end >= MinGap {
      var p := cuts[j + 1];
      assert 0 < p < |raw| && p in cuts;
    }
  }

  // ---------------------------------------------------------------------
  // Margins

  /** An output segment: the block's hull widened by the margin on both
      sides, clamped to [0, duration]. */
  function Widen(s: Segment, margin: real, duration: real): Segment
  {
    Segment(if 0.0 >= s.start - margin then 0.0 else s.start - margin,
            if duration <= s.end + margin then duration else s.end + margin)
  }

  /** Widening keeps a segment inside [0, duration] and only grows it. */
  lemma WidenBounds(s: Segment, margin: real, duration: real)
    requires 0.0 <= s.start < s.end <= duration && margin >= 0.0
    ensures 0.0 <= Widen(s, margin, duration).start < Widen(s, margin, duration).end <= duration
    ensures Contains(Widen(s, margin, duration), s)
  {
  }

  /** A wider margin gives a wider segment: the segment widened by m1
      lies inside the one widened by m2 >= m1. */
  lemma WidenMonotone(s: Segment, m1: real, m2: real, duration: real)
    requires m1 <= m2
    ensures Contains(Widen(s, m2, duration), Widen(s, m1, duration))
  {
  }

  /** The optimiser starts a new block at input p exactly when the
      margin-widened spans of inputs p - 1 and p do not touch. */
  ghost predicate MarginCuts(raw: seq<Segment>, margin: real, cuts: seq<int>, i: int)
    requires 0 <= i <= |raw|
  {
    forall p :: 0 < p < i ==> (p in cuts <==> raw[p - 1].end + margin < raw[p].start - margin)
  }

  /** The optimiser's state after reading inputs 0 .. i - 1: every closed
      block is emitted widened, and the open block starts at the last cut. */
  ghost predicate MarginState(raw: seq<Segment>, margin: real, duration: real,
                              cuts: seq<int>, optimized: seq<Segment>, i: int)
  {
    && 1 <= i <= |raw| && OpenBlocks(cuts, i) && |optimized| == |cuts| - 1
    && (forall j :: 0 <= j < |optimized| ==> optimized[j] == Widen(Span(raw, cuts[j], cuts[j + 1]), margin, duration))
    && MarginCuts(raw, margin, cuts, i)
  }

  lemma MarginJoin(raw: seq<Segment>, margin: real, duration: real, cuts: seq<int>, optimized: seq<Segment>, i: int)
    requires MarginState(raw, margin, duration, cuts, optimized, i) && i < |raw|
    requires raw[i - 1].end + margin >= raw[i].start - margin
    ensures MarginState(raw, margin, duration, cuts, optimized, i + 1)
  {
    OpenBlocksBelow(cuts, i);
    OpenBlocksGrow(cuts, i);
  }

  lemma MarginCut(raw: seq<Segment>, margin: real, duration: real, cuts: seq<int>, optimized: seq<Segment>, i: int)
    requires MarginState(raw, margin, duration, cuts, optimized, i) && i < |raw|
    requires raw[i - 1].end + margin < raw[i].start - margin
    ensures MarginState(raw, margin, duration, cuts + [i],
                        optimized + [Widen(Span(raw, cuts[|cuts| - 1], i), margin, duration)], i + 1)
  {
    OpenBlocksGrow(cuts, i);
    var cuts' := cuts + [i];
    var optimized' := optimized + [Widen(Span(raw, cuts[|cuts| - 1], i), margin, duration)];
    forall j | 0 <= j < |optimized'|
      ensures optimized'[j] == Widen(Span(raw, cuts'[j], cuts'[j + 1]), margin, duration)
    {
      if j < |optimized| {
        assert cuts'[j + 1] == cuts[j + 1];
      }
    }
  }

  lemma MarginDone(raw: seq<Segment>, margin: real, duration: real, cuts: seq<int>, optimized: seq<Segment>)
    requires MarginState(raw, margin, duration, cuts, optimized, |raw|)
    ensures Blocks(cuts + [|raw|], |raw|)
    ensures MarginCuts(raw, margin, cuts + [|raw|], |raw|)
    ensures var out := optimized + [Widen(Span(raw, cuts[|cuts| - 1], |raw|), margin, duration)];
            |out| == |cuts| && forall j :: 0 <= j < |out| ==> out[j] == Widen(Hull(raw, cuts + [|raw|], j), margin, duration)
  {
    OpenBlocksBelow(cuts, |raw|);
    OpenBlocksGrow(cuts, |raw|);
  }

  /** The margin optimiser of detect_speech_segments: a segment joins the
      current block when their margin-widened spans touch
      (end + margin >= next start - margin); each block is emitted as its
      hull widened by the margin and clamped to [0, duration]. */
  method ApplyMargins(raw: seq<Segment>, margin: real, duration: real)
    returns (optimized: seq<Segment>, ghost cuts: seq<int>)
    requires raw != []
    ensures Blocks(cuts, |raw|) && |optimized| == |cuts| - 1
    ensures forall j :: 0 <= j < |optimized| ==> optimized[j] == Widen(Hull(raw, cuts, j), margin, duration)
    ensures MarginCuts(raw, margin, cuts, |raw|)
  {
    optimized := [];
    cuts := [0];
    var currentStart, currentEnd := raw[0].start, raw[0].end;
    var i := 1;
    while i < |raw|
      invariant MarginState(raw, margin, duration, cuts, optimized, i)
      invariant currentStart == raw[cuts[|cuts| - 1]].start && currentEnd == raw[i - 1].end
    {
      var next := raw[i];
      if currentEnd + margin >= next.start - margin {
        MarginJoin(raw, margin, duration, cuts, optimized, i);
        currentEnd := next.end;
      } else {
        assert Segment(currentStart, currentEnd) == Span(raw, cuts[|cuts| - 1], i);
        MarginCut(raw, margin, duration, cuts, optimized, i);
        optimized := optimized + [Widen(Segment(currentStart, currentEnd), margin, duration)];
        cuts := cuts + [i];
        currentStart, currentEnd := next.start, next.end;
      }
      i := i + 1;
    }
    MarginDone(raw, margin, duration, cuts, optimized);
    optimized := optimized + [Widen(Segment(currentStart, currentEnd), margin, duration)];
    cuts := cuts + [|raw|];
  }

  /** The optimiser's blocks are separated by more than twice the margin, so
      with a non-negative margin its outputs are strictly apart. */
  lemma {:induction false} MarginsSeparated(raw: seq<Segment>, cuts: seq<int>, optimized: seq<Segment>,
                                            margin: real, duration: real)
    requires Timeline(raw, duration) && margin >= 0.0 && Blocks(cuts, |raw|) && |optimized| == |cuts| - 1
    requires forall j :: 0 <= j < |optimized| ==> optimized[j] == Widen(Hull(raw, cuts, j), margin, duration)
    requires MarginCuts(raw, margin, cuts, |raw|)
    ensures Separated(optimized)
  {
    forall j1, j2 | 0 <= j1 < j2 < |optimized| ensures optimized[j1].end < optimized[j2].start {
      var p := cuts[j1 + 1];
      assert p in cuts && 0 < p < |raw|;
      assert p <= cuts[j2];
      assert raw[p - 1].end + margin < raw[p].start - margin;
      assert raw[p].start <= raw[cuts[j2]].start by {
        if p < cuts[j2] {
          assert raw[p].start < raw[p].end <= raw[cuts[j2]].start;
        }
      }
    }
  }

  /** Each output is its block's hull widened: in bounds and containing the hull. */
  lemma MarginsWiden(raw: seq<Segment>, cuts: seq<int>, optimized: seq<Segment>, margin: real, duration: real)
    returns (hulls: seq<Segment>)
    requires Timeline(raw, duration) && margin >= 0.0 && Blocks(cuts, |raw|) && |optimized| == |cuts| - 1
    requires forall j :: 0 <= j < |optimized| ==> optimized[j] == Widen(Hull(raw, cuts, j), margin, duration)
    ensures |hulls| == |optimized| && Covers(hulls, raw) && Witnessed(hulls, raw)
    ensures forall j :: 0 <= j < |optimized| ==>
              0.0 <= optimized[j].start < optimized[j].end <= duration && Contains(optimized[j], hulls[j])
  {
    hulls := seq(|optimized|, j requires 0 <= j < |optimized| => Hull(raw, cuts, j));
    HullsTimeline(raw, cuts, hulls, duration);
    forall j | 0 <= j < |optimized|
      ensures 0.0 <= optimized[j].start < optimized[j].end <= duration
      ensures Contains(optimized[j], hulls[j])
    {
      WidenBounds(hulls[j], margin, duration);
    }
  }

  /** With a non-negative margin, the optimiser turns a timeline into a
      timeline of strictly separated segments that still covers every input
      segment, and each output holds some input. */
  lemma MarginsTimeline(raw: seq<Segment>, cuts: seq<int>, optimized: seq<Segment>,
                        margin: real, duration: real)
    requires Timeline(raw, duration) && margin >= 0.0 && Blocks(cuts, |raw|) && |optimized| == |cuts| - 1
    requires forall j :: 0 <= j < |optimized| ==> optimized[j] == Widen(Hull(raw, cuts, j), margin, duration)
    requires MarginCuts(raw, margin, cuts, |raw|)
    ensures Timeline(optimized, duration) && Separated(optimized)
    ensures Covers(optimized, raw) && Witnessed(optimized, raw)
  {
    MarginsSeparated(raw, cuts, optimized, margin, duration);
    var hulls := MarginsWiden(raw, cuts, optimized, margin, duration);
    GrowKeeps(optimized, hulls, raw);
    forall j1, j2 | 0 <= j1 < j2 < |optimized| ensures optimized[j1].end <= optimized[j2].start {
      assert optimized[j1].end < optimized[j2].start;
    }
  }

  /** With a kept-runs listing in hand, no speech was found exactly when no
      run of active windows lasts longer than 100 ms. */
  lemma NoSpeechWhenNoRunKept(energy: seq<real>, rate: nat, threshold: real,
                              raw: seq<Segment>, runs: seq<(int, int)>)
    requires WindowStep(rate) > 0 && ScanResult(energy, rate, threshold, raw, runs)
    ensures raw == [] <==>
              forall a, b :: !KeptRun(Flags(energy, WindowStep(rate), threshold), |energy|, WindowStep(rate), rate, a, b)
  {
    var ws := WindowStep(rate);
    var f := Flags(energy, ws, threshold);
    if raw != [] {
      assert KeptRun(f, |energy|, ws, rate, runs[0].0, runs[0].1);
    }
  }

  /** The cut list is an ordered list of separated segments inside
      [0, duration] that covers every scanned segment and holds only
      scanned segments. */
  ghost predicate Faithful(out: seq<Segment>, raw: seq<Segment>, duration: real)
  {
    Timeline(out, duration) && Separated(out) && Covers(out, raw) && Witnessed(out, raw)
  }

  /** Chaining the fusion and the margin optimiser: the final list is never
      longer than the scan's, and with a non-negative margin it is a
      separated timeline covering every scanned segment and holding only
      scanned segments. */
  lemma PipelineSound(raw: seq<Segment>, merged: seq<Segment>, cuts: seq<int>, optimized: seq<Segment>,
                      margin: real, duration: real)
    requires Timeline(merged, duration) && Covers(merged, raw) && Witnessed(merged, raw) && |merged| <= |raw|
    requires Blocks(cuts, |merged|) && |optimized| == |cuts| - 1
    requires forall j :: 0 <= j < |optimized| ==> optimized[j] == Widen(Hull(merged, cuts, j), margin, duration)
    requires MarginCuts(merged, margin, cuts, |merged|)
    ensures |optimized| <= |raw|
    ensures margin >= 0.0 ==> Faithful(optimized, raw, duration)
  {
    BlocksCount(cuts, |merged|);
    if margin >= 0.0 {
      MarginsTimeline(merged, cuts, optimized, margin, duration);
      CoversTrans(optimized, merged, raw);
      WitnessedTrans(optimized, merged, raw);
    }
  }

  /** How the second half of detect_speech_segments builds its output:
      `merged` fuses the scanned segments at the cuts `fuseCuts` (a new block
      exactly where the gap is at least 0.3 s), and `out` holds, for each
      block at the cuts `cuts` of `merged` (a new block exactly where the
      margin-widened spans do not touch), the block's hull widened by the
      margin and clamped to [0, duration]. */
  ghost predicate Optimized(raw: seq<Segment>, margin: real, duration: real, fuseCuts: seq<int>,
                            merged: seq<Segment>, cuts: seq<int>, out: seq<Segment>)
  {
    && Hulls(raw, fuseCuts, merged) && FusionCuts(raw, fuseCuts, |raw|)
    && Blocks(cuts, |merged|) && |out| == |cuts| - 1
    && (forall j :: 0 <= j < |out| ==> out[j] == Widen(Hull(merged, cuts, j), margin, duration))
    && MarginCuts(merged, margin, cuts, |merged|)
  }

  /** The second half of detect_speech_segments on the scanned segments:
      fusion of segments less than 0.3 s apart, then the margin optimiser
      (none when nothing was scanned). The ghost outputs are the fusion's
      cuts, its output and the optimiser's cuts. */
  method OptimizeSegments(raw: seq<Segment>, margin: real, duration: real)
    returns (out: seq<Segment>, ghost fuseCuts: seq<int>, ghost merged: seq<Segment>, ghost cuts: seq<int>)
    ensures Optimized(raw, margin, duration, fuseCuts, merged, cuts, out)
    ensures |out| <= |raw| && (out == [] <==> raw == [])
    ensures Timeline(raw, duration) && margin >= 0.0 ==> Faithful(out, raw, duration)
  {
    var fused;
    fused, fuseCuts := FuseCloseSegments(raw);
    merged := fused;
    FusionGaps(raw, fuseCuts, merged);
    if fused == [] {
      cuts := [0];
      return [], fuseCuts, merged, cuts;
    }
    out, cuts := ApplyMargins(fused, margin, duration);
    OptimizeSound(raw, fuseCuts, merged, cuts, out, margin, duration);
  }

  lemma OptimizeSound(raw: seq<Segment>, fuseCuts: seq<int>, merged: seq<Segment>, cuts: seq<int>,
                      optimized: seq<Segment>, margin: real, duration: real)
    requires Hulls(raw, fuseCuts, merged) && FusionCuts(raw, fuseCuts, |raw|) && merged != []
    requires |merged| <= |raw| && (merged == [] <==> raw == [])
    requires Blocks(cuts, |merged|) && |optimized| == |cuts| - 1
    requires forall j :: 0 <= j < |optimized| ==> optimized[j] == Widen(Hull(merged, cuts, j), margin, duration)
    requires MarginCuts(merged, margin, cuts, |merged|)
    ensures |optimized| <= |raw| && (optimized == [] <==> raw == [])
    ensures Timeline(raw, duration) && margin >= 0.0 ==> Faithful(optimized, raw, duration)
  {
    BlocksCount(cuts, |merged|);
    if Timeline(raw, duration) {
      HullsTimeline(raw, fuseCuts, merged, duration);
      PipelineSound(raw, merged, cuts, optimized, margin, duration);
    }
  }

  /** Mean energy plus the configured number of standard deviations. */
  function DetectionThreshold(samples: seq<real>, energyStd: real, multiplier: real): real
    requires |samples| > 0
  {
    EnergyThreshold(Mean(Energy(samples)), energyStd, multiplier)
  }

  /** The configured margin, converted from milliseconds to seconds. */
  function MarginSeconds(ms: int): real
  {
    ms as real / 1000.0
  }

  /** Length of the waveform in seconds. */
  function Duration(samples: seq<real>, rate: nat): real
    requires rate > 0
  {
    |samples| as real / rate as real
  }

  // ---------------------------------------------------------------------
  // Raising the sensitivity never keeps more video

  /** Inputs p - 1 and p stay in one block: their gap is below the limit
      (the fusion: gap < 0.3 s) or at most the limit (the margin
      optimiser: end + m >= start - m, that is gap <= 2m). */
  predicate Joins(gap: real, limit: real, inclusive: bool)
  {
    if inclusive then gap <= limit else gap < limit
  }

  /** A block boundary falls before input p exactly when its gap from
      input p - 1 does not join. */
  ghost predicate GapCuts(raw: seq<Segment>, cuts: seq<int>, limit: real, inclusive: bool)
  {
    forall p :: 0 < p < |raw| ==> (p in cuts <==> !Joins(raw[p].start - raw[p - 1].end, limit, inclusive))
  }

  lemma FusionGapCuts(raw: seq<Segment>, cuts: seq<int>)
    requires FusionCuts(raw, cuts, |raw|)
    ensures GapCuts(raw, cuts, MinGap, false)
  {
  }

  lemma MarginGapCuts(raw: seq<Segment>, margin: real, cuts: seq<int>)
    requires MarginCuts(raw, margin, cuts, |raw|)
    ensures GapCuts(raw, cuts, 2.0 * margin, true)
  {
  }

  /** An index strictly inside block j is not a cut. */
  lemma InsideBlock(cuts: seq<int>, n: nat, j: int, x: int)
    requires Blocks(cuts, n) && 0 <= j < |cuts| - 1 && cuts[j] < x < cuts[j + 1]
    ensures x !in cuts
  {
    forall t | 0 <= t < |cuts| ensures cuts[t] != x {
      if t <= j {
        assert t == j || cuts[t] < cuts[j];
      } else {
        assert t == j + 1 || cuts[j + 1] < cuts[t];
      }
    }
  }

  /** Some outer segment contains inner segment i. */
  lemma Container(outer: seq<Segment>, inner: seq<Segment>, i: int) returns (k: int)
    requires Covers(outer, inner) && 0 <= i < |inner|
    ensures 0 <= k < |outer| && Contains(outer[k], inner[i])
  {
    assert CoveredBy(outer, inner[i]);
    k :| 0 <= k < |outer| && Contains(outer[k], inner[i]);
  }

  /** In two timelines, the containers of later segments come later. */
  lemma ContainerOrder(outer: seq<Segment>, inner: seq<Segment>, duration: real, i: int, i': int, k: int, k': int)
    requires Timeline(outer, duration) && Timeline(inner, duration)
    requires 0 <= i < i' < |inner| && 0 <= k < |outer| && 0 <= k' < |outer|
    requires Contains(outer[k], inner[i]) && Contains(outer[k'], inner[i'])
    ensures k <= k'
  {
    assert inner[i].end <= inner[i'].start;
    assert outer[k].start < outer[k'].end;
  }

  /** Between the containers k <= k' of two neighbouring inner segments,
      every outer gap is at most the inner gap. */
  lemma GapWithin(outer: seq<Segment>, inner: seq<Segment>, duration: real, i: int, k: int, k': int, p: int)
    requires Timeline(outer, duration) && 0 <= i < |inner| - 1 && 0 <= k < p <= k' < |outer|
    requires Contains(outer[k], inner[i]) && Contains(outer[k'], inner[i + 1])
    ensures outer[p].start - outer[p - 1].end <= inner[i + 1].start - inner[i].end
  {
    assert outer[k].end <= outer[p - 1].end by {
      if k < p - 1 {
        assert outer[k].end <= outer[p - 1].start;
      }
    }
    assert outer[p].start <= outer[k'].start by {
      if p < k' {
        assert outer[p].end <= outer[k'].start;
      }
    }
  }

  /** Block jb of the inner list, cut by a gap rule, lies inside one block
      of an outer list cut by the same rule: the inner block's gaps all
      join, and each outer gap between the containers of two inner
      neighbours is no wider than theirs, so it joins too. */
  lemma {:induction false} BlockInside(outer: seq<Segment>, inner: seq<Segment>, outerCuts: seq<int>, innerCuts: seq<int>,
                                       limit: real, inclusive: bool, duration: real, jb: int) returns (ja: int)
    requires Timeline(outer, duration) && Timeline(inner, duration) && Covers(outer, inner)
    requires Blocks(outerCuts, |outer|) && Blocks(innerCuts, |inner|) && 0 <= jb < |innerCuts| - 1
    requires GapCuts(outer, outerCuts, limit, inclusive) && GapCuts(inner, innerCuts, limit, inclusive)
    ensures 0 <= ja < |outerCuts| - 1 && Contains(Hull(outer, outerCuts, ja), Hull(inner, innerCuts, jb))
  {
    var b, e := innerCuts[jb], innerCuts[jb + 1];
    var k0 := Container(outer, inner, b);
    ja := FindBlock(outerCuts, |outer|, k0);
    var i, k := b, k0;
    while i < e - 1
      invariant b <= i < e && 0 <= k < |outer| && Contains(outer[k], inner[i])
      invariant outerCuts[ja] <= k < outerCuts[ja + 1]
    {
      InsideBlock(innerCuts, |inner|, jb, i + 1);
      k := SameBlockNext(outer, inner, outerCuts, limit, inclusive, duration, ja, i, k);
      i := i + 1;
    }
    HullContains(outer, outerCuts, duration, ja, k0);
    HullContains(outer, outerCuts, duration, ja, k);
  }

  /** When inner segments i and i + 1 are not cut apart, the container of
      i + 1 is in the same outer block as the container of i. */
  lemma SameBlockNext(outer: seq<Segment>, inner: seq<Segment>, outerCuts: seq<int>,
                      limit: real, inclusive: bool, duration: real, ja: int, i: int, k: int) returns (k': int)
    requires Timeline(outer, duration) && Timeline(inner, duration) && Covers(outer, inner)
    requires Blocks(outerCuts, |outer|) && 0 <= ja < |outerCuts| - 1
    requires GapCuts(outer, outerCuts, limit, inclusive)
    requires 0 <= i < |inner| - 1 && Joins(inner[i + 1].start - inner[i].end, limit, inclusive)
    requires 0 <= k < |outer| && Contains(outer[k], inner[i]) && outerCuts[ja] <= k < outerCuts[ja + 1]
    ensures 0 <= k' < |outer| && Contains(outer[k'], inner[i + 1]) && outerCuts[ja] <= k' < outerCuts[ja + 1]
  {
    k' := Container(outer, inner, i + 1);
    ContainerOrder(outer, inner, duration, i, i + 1, k, k');
    forall p | k < p <= k' ensures p !in outerCuts {
      GapWithin(outer, inner, duration, i, k, k', p);
    }
    assert outerCuts[ja + 1] in outerCuts;
  }

  /** Widening is monotone in the segment. */
  lemma WidenContains(outer: Segment, inner: Segment, margin: real, duration: real)
    requires Contains(outer, inner)
    ensures Contains(Widen(outer, margin, duration), Widen(inner, margin, duration))
  {
  }

  /** Total time kept by a list of segments, in seconds. */
  function TotalLength(segs: seq<Segment>): real
  {
    if segs == [] then 0.0 else TotalLength(segs[..|segs| - 1]) + (segs[|segs| - 1].end - segs[|segs| - 1].start)
  }

  lemma {:induction false} TotalLengthAppend(x: seq<Segment>, y: seq<Segment>)
    ensures TotalLength(x + y) == TotalLength(x) + TotalLength(y)
  {
    if y == [] {
      assert x + y == x;
    } else {
      assert (x + y)[..|x + y| - 1] == x + y[..|y| - 1];
      TotalLengthAppend(x, y[..|y| - 1]);
    }
  }

  /** Ordered, non-overlapping segments inside [lo, hi] last at most hi - lo in total. */
  lemma {:induction false} TotalWithin(segs: seq<Segment>, duration: real, lo: real, hi: real)
    requires Timeline(segs, duration) && lo <= hi
    requires forall i :: 0 <= i < |segs| ==> lo <= segs[i].start && segs[i].end <= hi
    ensures TotalLength(segs) <= hi - lo
  {
    if segs != [] {
      var last := segs[|segs| - 1];
      var front := segs[..|segs| - 1];
      forall i | 0 <= i < |front| ensures lo <= front[i].start && front[i].end <= last.start {
        assert segs[i].end <= segs[|segs| - 1].start;
      }
      TimelineSlice(segs, duration, 0, |segs| - 1);
      TotalWithin(front, duration, lo, last.start);
    }
  }

  /** A slice of a timeline is a timeline. */
  lemma TimelineSlice(segs: seq<Segment>, duration: real, a: int, b: int)
    requires Timeline(segs, duration) && 0 <= a <= b <= |segs|
    ensures Timeline(segs[a..b], duration)
  {
    var t := segs[a..b];
    forall j1, j2 | 0 <= j1 < j2 < |t| ensures t[j1].end <= t[j2].start {
      assert t[j1] == segs[a + j1] && t[j2] == segs[a + j2];
    }
  }

  /** The inner segments split into a prefix covered by all outer segments
      but the last, and a suffix inside the last one. */
  lemma {:induction false} SplitAtLast(outer: seq<Segment>, inner: seq<Segment>, duration: real) returns (s: int)
    requires Timeline(outer, duration) && Timeline(inner, duration) && Covers(outer, inner) && outer != []
    ensures 0 <= s <= |inner| && Covers(outer[..|outer| - 1], inner[..s])
    ensures forall i :: s <= i < |inner| ==> Contains(outer[|outer| - 1], inner[i])
  {
    var last := |outer| - 1;
    s := |inner|;
    while s > 0 && Contains(outer[last], inner[s - 1])
      invariant 0 <= s <= |inner|
      invariant forall i :: s <= i < |inner| ==> Contains(outer[last], inner[i])
    {
      s := s - 1;
    }
    var front, head := outer[..last], inner[..s];
    forall i | 0 <= i < |head| ensures CoveredBy(front, head[i]) {
      var k := Container(outer, inner, i);
      var kEnd := Container(outer, inner, s - 1);
      if i < s - 1 {
        ContainerOrder(outer, inner, duration, i, s - 1, k, kEnd);
      }
      assert k < last;
      assert Contains(front[k], head[i]);
    }
  }

  /** The segments of a timeline from s on, all inside one segment, last
      no longer than it. */
  lemma SuffixWithin(inner: seq<Segment>, duration: real, s: int, host: Segment)
    requires Timeline(inner, duration) && 0 <= s <= |inner| && host.start <= host.end
    requires forall i :: s <= i < |inner| ==> Contains(host, inner[i])
    ensures TotalLength(inner[s..]) <= host.end - host.start
  {
    TimelineSlice(inner, duration, s, |inner|);
    var tail := inner[s..];
    forall i | 0 <= i < |tail| ensures host.start <= tail[i].start && tail[i].end <= host.end {
      assert tail[i] == inner[s + i];
    }
    TotalWithin(tail, duration, host.start, host.end);
  }

  /** When every segment of one timeline lies inside a segment of another,
      the first keeps no more time in total than the second. */
  lemma {:induction false} CoveredTotal(outer: seq<Segment>, inner: seq<Segment>, duration: real)
    requires Timeline(outer, duration) && Timeline(inner, duration) && Covers(outer, inner)
    ensures TotalLength(inner) <= TotalLength(outer)
  {
    if outer == [] {
      assert inner == [] || CoveredBy(outer, inner[0]);
    } else {
      var front := outer[..|outer| - 1];
      var s := SplitAtLast(outer, inner, duration);
      TimelineSlice(outer, duration, 0, |outer| - 1);
      TimelineSlice(inner, duration, 0, s);
      CoveredTotal(front, inner[..s], duration);
      SuffixWithin(inner, duration, s, outer[|outer| - 1]);
      TotalLengthSplit(inner, s);
    }
  }

  lemma TotalLengthSplit(segs: seq<Segment>, s: int)
    requires 0 <= s <= |segs|
    ensures TotalLength(segs) == TotalLength(segs[..s]) + TotalLength(segs[s..])
  {
    assert segs == segs[..s] + segs[s..];
    TotalLengthAppend(segs[..s], segs[s..]);
  }

  /** The fusion and the margin optimiser keep containment: when every
      segment of raw2 lies inside a segment of raw1, every output for raw2
      lies inside an output for raw1 (same margin, same duration). */
  lemma OptimizeCovers(raw1: seq<Segment>, raw2: seq<Segment>, margin: real, duration: real,
                       fuseCuts1: seq<int>, merged1: seq<Segment>, cuts1: seq<int>, out1: seq<Segment>,
                       fuseCuts2: seq<int>, merged2: seq<Segment>, cuts2: seq<int>, out2: seq<Segment>)
    requires Timeline(raw1, duration) && Timeline(raw2, duration) && Covers(raw1, raw2)
    requires Optimized(raw1, margin, duration, fuseCuts1, merged1, cuts1, out1)
    requires Optimized(raw2, margin, duration, fuseCuts2, merged2, cuts2, out2)
    ensures Timeline(merged1, duration) && Timeline(merged2, duration)
    ensures Covers(out1, out2)
  {
    HullsBounds(raw1, fuseCuts1, merged1, duration);
    HullsBounds(raw2, fuseCuts2, merged2, duration);
    FusionGapCuts(raw1, fuseCuts1);
    FusionGapCuts(raw2, fuseCuts2);
    forall jb | 0 <= jb < |merged2| ensures CoveredBy(merged1, merged2[jb]) {
      var ja := BlockInside(raw1, raw2, fuseCuts1, fuseCuts2, MinGap, false, duration, jb);
      assert Contains(merged1[ja], merged2[jb]);
    }
    MarginGapCuts(merged1, margin, cuts1);
    MarginGapCuts(merged2, margin, cuts2);
    forall jb | 0 <= jb < |out2| ensures CoveredBy(out1, out2[jb]) {
      var ja := BlockInside(merged1, merged2, cuts1, cuts2, 2.0 * margin, true, duration, jb);
      WidenContains(Hull(merged1, cuts1, ja), Hull(merged2, cuts2, jb), margin, duration);
      assert Contains(out1[ja], out2[jb]);
    }
  }

  /** ... and, with a non-negative margin, the outputs for raw2 keep no
      more time in total than those for raw1. */
  lemma OptimizeMonotone(raw1: seq<Segment>, raw2: seq<Segment>, margin: real, duration: real,
                         fuseCuts1: seq<int>, merged1: seq<Segment>, cuts1: seq<int>, out1: seq<Segment>,
                         fuseCuts2: seq<int>, merged2: seq<Segment>, cuts2: seq<int>, out2: seq<Segment>)
    requires Timeline(raw1, duration) && Timeline(raw2, duration) && Covers(raw1, raw2)
    requires Optimized(raw1, margin, duration, fuseCuts1, merged1, cuts1, out1)
    requires Optimized(raw2, margin, duration, fuseCuts2, merged2, cuts2, out2)
    ensures Covers(out1, out2)
    ensures margin >= 0.0 ==> TotalLength(out2) <= TotalLength(out1)
  {
    OptimizeCovers(raw1, raw2, margin, duration, fuseCuts1, merged1, cuts1, out1, fuseCuts2, merged2, cuts2, out2);
    if margin >= 0.0 {
      MarginsTimeline(merged1, cuts1, out1, margin, duration);
      MarginsTimeline(merged2, cuts2, out2, margin, duration);
      CoveredTotal(out1, out2, duration);
    }
  }

  /** Sensitivity monotonicity of the detector: on the same waveform with
      the same margin, the segments kept at slider value v2 >= v1 all lie
      inside segments kept at v1, so a higher sensitivity never keeps more
      of the video. */
  lemma DetectMonotone(samples: seq<real>, rate: nat, energyStd: real, v1: real, v2: real, marginMs: int,
                       raw1: seq<Segment>, runs1: seq<(int, int)>, fuseCuts1: seq<int>, merged1: seq<Segment>,
                       cuts1: seq<int>, out1: seq<Segment>,
                       raw2: seq<Segment>, runs2: seq<(int, int)>, fuseCuts2: seq<int>, merged2: seq<Segment>,
                       cuts2: seq<int>, out2: seq<Segment>)
    requires WindowStep(rate) > 0 && samples != [] && energyStd >= 0.0 && v1 <= v2
    requires ScanResult(Energy(samples), rate, DetectionThreshold(samples, energyStd, Multiplier(v1)), raw1, runs1)
    requires ScanResult(Energy(samples), rate, DetectionThreshold(samples, energyStd, Multiplier(v2)), raw2, runs2)
    requires Optimized(raw1, MarginSeconds(marginMs), Duration(samples, rate), fuseCuts1, merged1, cuts1, out1)
    requires Optimized(raw2, MarginSeconds(marginMs), Duration(samples, rate), fuseCuts2, merged2, cuts2, out2)
    ensures Covers(out1, out2)
    ensures marginMs >= 0 ==> TotalLength(out2) <= TotalLength(out1)
  {
    var energy := Energy(samples);
    var t1 := DetectionThreshold(samples, energyStd, Multiplier(v1));
    var t2 := DetectionThreshold(samples, energyStd, Multiplier(v2));
    ThresholdMonotone(Mean(energy), energyStd, v1, v2);
    ScanMonotone(energy, rate, t1, t2, raw1, runs1, raw2, runs2);
    ScanTimeline(energy, rate, t1, raw1, runs1);
    ScanTimeline(energy, rate, t2, raw2, runs2);
    assert |energy| as real / rate as real == Duration(samples, rate);
    OptimizeMonotone(raw1, raw2, MarginSeconds(marginMs), Duration(samples, rate),
                     fuseCuts1, merged1, cuts1, out1, fuseCuts2, merged2, cuts2, out2);
  }

  // ---------------------------------------------------------------------
  // The ffmpeg filter graph

  /** A pad label such as [v3]. */
  function Label(stream: string, i: nat): string
  {
    "[" + stream + NatToString(i) + "]"
  }

  /** The labels of streams 0 .. k - 1, in order, concatenated. */
  function Labels(stream: string, k: nat): string
  {
    if k == 0 then "" else Labels(stream, k - 1) + Label(stream, k - 1)
  }

  /** Cuts segment i out of the video stream and restarts its timestamps. */
  function VideoTrim(i: nat, s: Segment, render: real -> string): string
  {
    "[0:v]trim=start=" + render(s.start) + ":end=" + render(s.end) + ",setpts=PTS-STARTPTS" + Label("v", i) + ";"
  }

  /** Cuts segment i out of the audio stream and restarts its timestamps. */
  function AudioTrim(i: nat, s: Segment, render: real -> string): string
  {
    "[0:a]atrim=start=" + render(s.start) + ":end=" + render(s.end) + ",asetpts=PTS-STARTPTS" + Label("a", i) + ";"
  }

  function VideoConcat(k: nat): string
  {
    Labels("v", k) + "concat=n=" + NatToString(k) + ":v=1:a=0[outv];"
  }

  function AudioConcat(k: nat): string
  {
    Labels("a", k) + "concat=n=" + NatToString(k) + ":v=0:a=1[outa]"
  }

  /** The video trims of segments 0 .. k - 1, in order. */
  function VideoTrims(segments: seq<Segment>, render: real -> string, k: nat): (parts: seq<string>)
    requires k <= |segments|
    ensures |parts| == k
  {
    if k == 0 then [] else VideoTrims(segments, render, k - 1) + [VideoTrim(k - 1, segments[k - 1], render)]
  }

  /** The audio trims of segments 0 .. k - 1, in order. */
  function AudioTrims(segments: seq<Segment>, render: real -> string, k: nat): (parts: seq<string>)
    requires k <= |segments|
    ensures |parts| == k
  {
    if k == 0 then [] else AudioTrims(segments, render, k - 1) + [AudioTrim(k - 1, segments[k - 1], render)]
  }

  /** The list of filter parts export_segments joins into the filter graph. */
  function FilterParts(segments: seq<Segment>, render: real -> string): seq<string>
  {
    var k := |segments|;
    VideoTrims(segments, render, k) + AudioTrims(segments, render, k) + [VideoConcat(k), AudioConcat(k)]
  }

  lemma {:induction false} TrimsAt(segments: seq<Segment>, render: real -> string, k: nat, t: nat)
    requires t < k <= |segments|
    ensures VideoTrims(segments, render, k)[t] == VideoTrim(t, segments[t], render)
    ensures AudioTrims(segments, render, k)[t] == AudioTrim(t, segments[t], render)
  {
    if t < k - 1 {
      TrimsAt(segments, render, k - 1, t);
    }
  }

  /** Where each part sits: the trim of segment i in the video stream at
      index i, its trim in the audio stream at index K + i, then the two
      concat nodes over all K segments. */
  lemma FilterPartsLayout(segments: seq<Segment>, render: real -> string)
    ensures var parts, k := FilterParts(segments, render), |segments|;
      && |parts| == 2 * k + 2
      && (forall i :: 0 <= i < k ==> parts[i] == VideoTrim(i, segments[i], render))
      && (forall i :: 0 <= i < k ==> parts[k + i] == AudioTrim(i, segments[i], render))
      && parts[2 * k] == VideoConcat(k) && parts[2 * k + 1] == AudioConcat(k)
  {
    var parts, k := FilterParts(segments, render), |segments|;
    var vt, at := VideoTrims(segments, render, k), AudioTrims(segments, render, k);
    assert parts == vt + at + [VideoConcat(k), AudioConcat(k)];
    forall i | 0 <= i < k
      ensures parts[i] == VideoTrim(i, segments[i], render)
      ensures parts[k + i] == AudioTrim(i, segments[i], render)
    {
      TrimsAt(segments, render, k, i);
      assert parts[i] == vt[i] && parts[k + i] == at[i];
    }
  }

  /** Distinct segments get distinct pads, and video pads never collide with audio pads. */
  lemma LabelInjective(s1: string, i: nat, s2: string, j: nat)
    requires |s1| == |s2| == 1
    ensures Label(s1, i) == Label(s2, j) <==> s1 == s2 && i == j
  {
    if Label(s1, i) == Label(s2, j) {
      assert s1 == Label(s1, i)[1..2] == Label(s2, j)[1..2] == s2;
      var li, lj := Label(s1, i), Label(s2, j);
      assert NatToString(i) == li[2..|li| - 1];
      assert NatToString(j) == lj[2..|lj| - 1];
      NatToStringInjective(i, j);
    }
  }

  /** The concat node lists the pad of stream i right after the pads of
      streams 0 .. i - 1: the concatenation keeps the segments' order. */
  lemma {:induction false} LabelsInOrder(stream: string, i: nat, k: nat)
    requires i < k
    ensures Labels(stream, i) + Label(stream, i) <= Labels(stream, k)
  {
    if i + 1 < k {
      LabelsInOrder(stream, i, k - 1);
    }
  }

  /** The video trim of segment i reads the input's video stream and
      writes pad [v<i>], and the video concat node reads that pad in the
      segment's place: right after the pads of segments 0 .. i - 1. */
  lemma VideoTrimFeedsConcat(i: nat, k: nat, s: Segment, render: real -> string)
    requires i < k
    ensures var t, l := VideoTrim(i, s, render), Label("v", i);
      "[0:v]" <= t && |t| > |l| && t[|t| - |l| - 1..] == l + ";" && Labels("v", i) + l <= VideoConcat(k)
  {
    LabelsInOrder("v", i, k);
    PrefixOfLonger(Labels("v", i) + Label("v", i), Labels("v", k), "concat=n=", NatToString(k), ":v=1:a=0[outv];");
    var body := "trim=start=" + render(s.start) + ":end=" + render(s.end) + ",setpts=PTS-STARTPTS";
    PadAtEnd("[0:v]", body, Label("v", i));
  }

  /** The same wiring for the audio trim of segment i and the audio concat node. */
  lemma AudioTrimFeedsConcat(i: nat, k: nat, s: Segment, render: real -> string)
    requires i < k
    ensures var t, l := AudioTrim(i, s, render), Label("a", i);
      "[0:a]" <= t && |t| > |l| && t[|t| - |l| - 1..] == l + ";" && Labels("a", i) + l <= AudioConcat(k)
  {
    LabelsInOrder("a", i, k);
    PrefixOfLonger(Labels("a", i) + Label("a", i), Labels("a", k), "concat=n=", NatToString(k), ":v=0:a=1[outa]");
    var body := "atrim=start=" + render(s.start) + ":end=" + render(s.end) + ",asetpts=PTS-STARTPTS";
    PadAtEnd("[0:a]", body, Label("a", i));
  }

  /** A prefix of a text is a prefix of that text followed by more text. */
  lemma PrefixOfLonger(p: string, q: string, a: string, b: string, c: string)
    requires p <= q
    ensures p <= q + a + b + c
  {
    assert (q + a + b + c)[..|q|] == q;
  }

  /** A filter written as input + body + pad + ";" starts with the input
      and ends with the pad and the separator. */
  lemma PadAtEnd(input: string, body: string, pad: string)
    ensures var t := input + body + pad + ";";
      input <= t && |t| > |pad| && t[|t| - |pad| - 1..] == pad + ";"
  {
    var t := input + body + pad + ";";
    assert t[..|input|] == input;
    assert t[|t| - |pad| - 1..] == pad + ";";
  }

  /** The export filter graph lists each video trim, then each audio trim,
      then the two concat nodes, and contains each part where the list puts it. */
  lemma FilterGraphParts(filterComplex: string, parts: seq<string>, i: int)
    requires filterComplex == Join(parts) && 0 <= i < |parts|
    ensures Join(parts[..i]) + parts[i] <= filterComplex
  {
    JoinSplit(parts, i);
  }

  class AudioAnalyzer {
    /** Multiplier of the energy standard deviation. */
    var threshold: real
    /** Margin added around each segment, in milliseconds. */
    var marginMs: int

    constructor ()
      ensures threshold == 0.02 && marginMs == 100
    {
      threshold := 0.02;
      marginMs := 100;
    }

    /** Maps the sensitivity slider value to the multiplier. */
    method SetThreshold(value: real)
      modifies this
      ensures threshold == Multiplier(value) && marginMs == old(marginMs)
    {
      threshold := 0.1 + value / 50.0;
    }

    method SetMargin(valueMs: int)
      modifies this
      ensures marginMs == valueMs && threshold == old(threshold)
    {
      marginMs := valueMs;
    }

    /** Segments of speech in a mono waveform, widened by the margin.
        `energyStd` is the standard deviation of the absolute amplitudes.
        The ghost outputs are the kept runs of active windows found by the
        scan and the intermediate results of the fusion and the margin
        optimiser: the result is empty exactly when no run was kept, and
        with a non-negative margin it is an ordered list of separated
        segments inside the waveform that covers every run and invents no
        other. */
    method DetectSpeechSegments(samples: seq<real>, sampleRate: nat, energyStd: real)
      returns (r: Result<seq<Segment>, DetectError>, ghost raw: seq<Segment>, ghost runs: seq<(int, int)>,
               ghost fuseCuts: seq<int>, ghost merged: seq<Segment>, ghost cuts: seq<int>)
      ensures WindowStep(sampleRate) == 0 ==> r == Failure(ZeroWindowStep)
      ensures WindowStep(sampleRate) > 0 && samples == [] ==> r == Failure(EmptySignal)
      ensures WindowStep(sampleRate) > 0 && samples != [] ==>
                && r.Success?
                && ScanResult(Energy(samples), sampleRate, DetectionThreshold(samples, energyStd, threshold), raw, runs)
                && |r.value| <= |raw| && (r.value == [] <==> raw == [])
                && Optimized(raw, MarginSeconds(marginMs), Duration(samples, sampleRate), fuseCuts, merged, cuts, r.value)
      ensures WindowStep(sampleRate) > 0 && samples != [] && marginMs >= 0 ==>
                r.Success? && Faithful(r.value, raw, Duration(samples, sampleRate))
    {
      var energy := Energy(samples);
      var windowSize := WindowStep(sampleRate);
      if windowSize == 0 {
        return Failure(ZeroWindowStep), [], [], [], [], [];
      }
      if |energy| == 0 {
        return Failure(EmptySignal), [], [], [], [], [];
      }
      var energyThreshold := EnergyThreshold(Mean(energy), energyStd, threshold);
      var rawSegments, keptRuns := ScanWindows(energy, sampleRate, energyThreshold);
      raw, runs := rawSegments, keptRuns;
      var duration := Duration(samples, sampleRate);
      ScanTimeline(energy, sampleRate, energyThreshold, raw, runs);
      var margin := MarginSeconds(marginMs);
      var segments;
      segments, fuseCuts, merged, cuts := OptimizeSegments(rawSegments, margin, duration);
      r := Success(segments);
    }

    /** The filter_complex text export_segments hands to ffmpeg: one video
        trim and one audio trim per segment, then the two concat nodes.
        `render` is the f-string rendering of a segment time. Every start
        comes from max(0, ...), which gives the int 0 whenever the widened
        start is not positive; that renders as "0", not "0.0", so
        `render(0.0)` stands for the rendering of the int 0. */
    method ExportSegments(segments: seq<Segment>, render: real -> string)
      returns (filterComplex: string, filterParts: seq<string>)
      ensures filterParts == FilterParts(segments, render)
      ensures filterComplex == Join(filterParts)
    {
      filterParts := [];
      var i := 0;
      while i < |segments|
        invariant 0 <= i <= |segments| && filterParts == VideoTrims(segments, render, i)
      {
        filterParts := filterParts + [VideoTrim(i, segments[i], render)];
        i := i + 1;
      }
      ghost var videoParts := filterParts;
      i := 0;
      while i < |segments|
        invariant 0 <= i <= |segments| && filterParts == videoParts + AudioTrims(segments, render, i)
      {
        filterParts := filterParts + [AudioTrim(i, segments[i], render)];
        i := i + 1;
      }
      var concatVideo := Labels("v", |segments|);
      filterParts := filterParts + [concatVideo + "concat=n=" + NatToString(|segments|) + ":v=1:a=0[outv];"];
      var concatAudio := Labels("a", |segments|);
      filterParts := filterParts + [concatAudio + "concat=n=" + NatToString(|segments|) + ":v=0:a=1[outa]"];
      filterComplex := Join(filterParts);
    }
  }
}
