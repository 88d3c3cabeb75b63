# AutoDerush core, modelled in Dafny

AutoDerush bundles three small desktop tools. This project models the logic at the heart of each one and proves what each one promises.

- **Video cutter** (`audio_analyzer.dfy`, module `VideoCutter`). The `AudioAnalyzer` class does four things:
  - It turns a slider value into a threshold multiplier.
  - It scans the normalised waveform in 50 ms windows. Windows whose mean energy is above mean + std × multiplier are speech. Runs of speech lasting 100 ms or less are dropped.
  - It fuses kept runs that are less than 300 ms apart. A margin optimiser then merges neighbours whose widened spans touch, and widens each result within [0, duration].
  - It writes the ffmpeg `filter_complex` text that trims and concatenates the kept segments.
- **Stopwatch** (`chronometre.dfy`, module `Chronometre`). This covers the millisecond → `mm:ss:cc` arithmetic with `padStart` zero-padding. The page's module-level state becomes the class `Stopwatch`: start time, elapsed time, lap counter, button flags, lap list and display. Its methods are the page's button handlers.
- **Reminders** (`rappels.dfy`, module `Rappels`). The class `GestionnaireRappels` holds a list of reminders with title, message and date. It covers:
  - Adding a reminder, with the date normalised by `strptime`/`strftime` on `"%d/%m/%Y %H:%M"`.
  - Deleting by date.
  - A sweep that notifies every due reminder and then removes it.
  - The list is saved after each change. The saved file is a ghost field, notifications are returned as a list, and the wall clock is a parameter.

Two further modules are shared:
- `text.dfy` (module `Text`): decimal rendering and parsing of naturals, fixed-width zero-padded fields, and string concatenation.
- `wrappers.dfy` (module `Wrappers`): `Option`, `Result` and `Outcome`.

Design points:
- The slider formula gives multipliers from 0.12 to 2.1. The inline comment announces 0.1–2.0. The model follows the code.
- Running the margin optimiser again on its own output is not idempotent in the code: the margin is added a second time, and neighbours can merge further. The model follows the code and claims no idempotence.
- A higher sensitivity never keeps more video. Raising the slider raises the threshold, the scan then finds only sub-segments of what it found before, and the fusion, the margin blocks and the widening all keep that containment. The detected segments shrink into the earlier ones, and their total length does not grow.
- An empty waveform is an error (`EmptySignal`). In the code, the detection statistics divide 0 by 0 (line 233) and the exception is re-raised.
- A sample rate below 20 gives a window step of 0, which `range` rejects. That case is the error `ZeroWindowStep`.

## Model

| member | source | states |
|---|---|---|
| VideoCutter.AudioAnalyzer.constructor | video_cutter/audio_analyzer.py:17-19 | a new analyser has multiplier 0.02 and a 100 ms margin |
| VideoCutter.AudioAnalyzer.SetThreshold | video_cutter/audio_analyzer.py:22-26 | the multiplier becomes 0.1 + value/50; the margin is untouched |
| VideoCutter.MultiplierRange | video_cutter/audio_analyzer.py:25-26 | slider values 1..100 give multipliers in [0.12, 2.1], with 1 ↦ 0.12 and 100 ↦ 2.1 |
| VideoCutter.ThresholdMonotone | video_cutter/audio_analyzer.py:163-167 | with std ≥ 0 a higher slider value never lowers mean + std × multiplier |
| VideoCutter.AudioAnalyzer.SetMargin | video_cutter/audio_analyzer.py:33-36 | the margin becomes the given milliseconds; the multiplier is untouched |
| VideoCutter.Normalize | video_cutter/audio_analyzer.py:124 | one normalised sample per int16 sample, each in [-1, 1) |
| VideoCutter.NormalizeRoundTrip | video_cutter/audio_analyzer.py:121-124 | int16 samples divided by 32768 lie in [-1, 1) and the division loses nothing: multiplying back gives the samples |
| VideoCutter.Energy | video_cutter/audio_analyzer.py:163 | per-sample energy is the absolute amplitude: non-negative and equal to the sample or its negation |
| VideoCutter.WindowStepIsFloor | video_cutter/audio_analyzer.py:188 | the window step is the floor of rate × 0.05, and it is 0 exactly when the rate is below 20 |
| VideoCutter.WindowIndexBound | video_cutter/audio_analyzer.py:189 | window k exists exactly when its start k × step is inside the signal |
| VideoCutter.WindowPartition | video_cutter/audio_analyzer.py:189-192 | each window is non-empty and ends where the next begins; only the last can be shorter, and it ends at the signal's end |
| VideoCutter.FlagAt | video_cutter/audio_analyzer.py:189-194 | window k's speech flag is true exactly when the window's mean energy exceeds the threshold |
| VideoCutter.FlagsAntitone | video_cutter/audio_analyzer.py:194-200 | raising the threshold never turns a silent window into speech |
| VideoCutter.ScanWindows | video_cutter/audio_analyzer.py:180-210 | the scan records, in order, exactly the maximal runs of speech windows longer than 0.1 × rate samples. Each opens at its first window's start and closes at the next window's start, or at the signal's end |
| VideoCutter.ScanTimeline | video_cutter/audio_analyzer.py:203-210 | the recorded segments lie in [0, duration], each has start < end, and each ends at or before the next one starts |
| VideoCutter.ScanMonotone | video_cutter/audio_analyzer.py:180-210 | raising the threshold never finds new speech: every segment scanned at the higher threshold lies inside one scanned at the lower |
| VideoCutter.NoSpeechWhenNoRunKept | video_cutter/audio_analyzer.py:203-210 | the scan yields nothing exactly when no run of speech windows is long enough |
| VideoCutter.FuseCloseSegments | video_cutter/audio_analyzer.py:212-227 | fusion cuts the list into consecutive blocks and emits each block's first start and last end. A new block starts exactly where the gap to the previous segment is ≥ 0.3 s |
| VideoCutter.FusionGaps | video_cutter/audio_analyzer.py:212-227 | after fusion every gap is ≥ 0.3 s, the count does not grow, the result is empty only for empty input, and the first start and last end are kept |
| VideoCutter.HullsTimeline | video_cutter/audio_analyzer.py:212-227 | fused segments stay ordered and in bounds. Every input segment lies inside one of them, and each holds an input segment |
| VideoCutter.WidenBounds | video_cutter/audio_analyzer.py:257-260 | a widened segment stays within [0, duration] with start < end and contains the original |
| VideoCutter.WidenMonotone | video_cutter/audio_analyzer.py:257-260 | a larger margin gives a segment that contains the one a smaller margin gives |
| VideoCutter.ApplyMargins | video_cutter/audio_analyzer.py:241-267 | the optimiser cuts the list into blocks and emits each block's span widened by the margin and clamped. A new block starts exactly where end + m < next start − m |
| VideoCutter.MarginsTimeline | video_cutter/audio_analyzer.py:241-267 | with a non-negative margin the outputs are ordered, in bounds and pairwise separated by a positive gap. They cover every input segment, and each holds one |
| VideoCutter.OptimizeSegments | video_cutter/audio_analyzer.py:212-267 | fusion then the margin optimiser. The fused list holds the hulls of blocks cut exactly where the gap is ≥ 0.3 s. Each output is the hull of a block of fused segments, widened by the margin and clamped to [0, duration], with blocks cut exactly where end + m < next start − m. Never more segments than scanned, empty exactly when nothing was scanned, and for a scanned timeline with margin ≥ 0 a separated, covering, witnessed timeline |
| VideoCutter.PipelineSound | video_cutter/audio_analyzer.py:212-267 | fusion then optimisation never returns more segments than the scan found, and gives a separated, covering, witnessed timeline |
| VideoCutter.OptimizeCovers | video_cutter/audio_analyzer.py:212-267 | when every segment of one scanned list lies inside a segment of another, after fusion and margins every output of the first lies inside an output of the second (same margin and duration) |
| VideoCutter.OptimizeMonotone | video_cutter/audio_analyzer.py:212-267 | the same containment, and with margin ≥ 0 the contained outputs keep no more time in total |
| VideoCutter.DetectMonotone | video_cutter/audio_analyzer.py:163-267 | on the same waveform and margin, with std ≥ 0 and slider values v1 ≤ v2, every segment detected at v2 lies inside one detected at v1, and (margin ≥ 0) the total kept time at v2 is at most that at v1 |
| VideoCutter.AudioAnalyzer.DetectSpeechSegments | video_cutter/audio_analyzer.py:149-270 | rate < 20 and an empty waveform are errors. Otherwise the scan runs at mean + std × multiplier. Its segments are fused at 0.3 s gaps, then widened by margin_ms / 1000 and clamped to the waveform's duration, as `OptimizeSegments` states. The result is empty exactly when the scan is, and (margin ≥ 0) is a separated timeline faithful to the scan |
| VideoCutter.AudioAnalyzer.ExportSegments | video_cutter/audio_analyzer.py:292-309 | the two loops and two appends build exactly the part list `FilterParts` (all video trims, all audio trims, the two concats), and the filter string is its concatenation |
| VideoCutter.VideoTrimFeedsConcat | video_cutter/audio_analyzer.py:293-303 | the video trim of segment i reads [0:v] and writes pad [v<i>]; the video concat node reads that pad right after the pads of segments 0 .. i − 1 |
| VideoCutter.AudioTrimFeedsConcat | video_cutter/audio_analyzer.py:297-307 | the audio trim of segment i reads [0:a] and writes pad [a<i>]; the audio concat node reads that pad right after the pads of segments 0 .. i − 1 |
| VideoCutter.FilterPartsLayout | video_cutter/audio_analyzer.py:292-307 | 2K + 2 filter parts: segment i's video trim labelled v<i> at index i, its audio trim labelled a<i> at index K + i, then the video and audio concats with n=K |
| VideoCutter.LabelInjective | video_cutter/audio_analyzer.py:295-307 | labels `[v<i>]`/`[a<i>]` are equal only for the same stream and index |
| VideoCutter.LabelsInOrder | video_cutter/audio_analyzer.py:302-307 | the concat label list names index i before index k whenever i < k |
| VideoCutter.FilterGraphParts | video_cutter/audio_analyzer.py:309 | each part appears in the joined filter string right after all parts before it |
| Chronometre.JsToStringValue | Chronometre/script.js:67 | `toString` writes a non-negative integer as decimal digits without a leading zero that read back as the number, and a negative one as '-' followed by such digits for its magnitude |
| Chronometre.PadNumberShape | Chronometre/script.js:66-68 | numbers below 100 become exactly two digits; larger ones keep all their digits (no truncation); the text reads back as the number |
| Chronometre.DecomposeBounds | Chronometre/script.js:56-59 | for t ≥ 0, seconds are in 0..59 and centiseconds in 0..99, and minutes·60000 + seconds·1000 + centis·10 ≤ t < that + 10 |
| Chronometre.DecomposeCompose | Chronometre/script.js:78-81 | the decomposition inverts recomposition for in-range fields and any sub-10 ms remainder |
| Chronometre.DecomposeMonotone | Chronometre/script.js:78-81 | a later time never shows an earlier reading |
| Chronometre.FormatTimeRoundTrip | Chronometre/script.js:78-83 | the `mm:ss:cc` text parses back to the decomposed minutes, seconds and centiseconds |
| Chronometre.DisplayTimeFields | Chronometre/script.js:56-64 | for t ≥ 0 the display shows seconds and hundredths as exactly two digits and minutes as at least two, each reading back as its decomposed field |
| Chronometre.LapTextFields | Chronometre/script.js:74 | a lap item reads back: the digits after "Tour " are the lap count, and the text after ": " parses to the lap time's reading |
| Chronometre.FormatMatchesDisplay | Chronometre/script.js:56-64 | the lap text and the live display show the same three fields |
| Chronometre.ZeroReading | Chronometre/script.js:40-44 | time 0 shows "00", "00", "00" |
| Chronometre.LapsPush | Chronometre/script.js:70-76 | prepending `Tour n+1: <time>` keeps the lap list numbered n+1, n, ..., 1 from the top |
| Chronometre.Stopwatch.constructor | Chronometre/script.js:1-4 | initial state: elapsed 0, no laps, no start time, stop and lap disabled (lines 93-94) |
| Chronometre.Stopwatch.StartTimer | Chronometre/script.js:25-31 | start time becomes now − elapsed; start disabled, stop and lap enabled; nothing else changes |
| Chronometre.Stopwatch.StopTimer | Chronometre/script.js:33-38 | elapsed time is kept; start enabled, stop and lap disabled |
| Chronometre.Stopwatch.ResetTimer | Chronometre/script.js:40-49 | elapsed and lap count 0, lap list empty, display zero; start and stop enabled, lap disabled |
| Chronometre.Stopwatch.ShowTime | Chronometre/script.js:56-64 | the display shows the given time's three padded fields; nothing else changes |
| Chronometre.Stopwatch.UpdateTime | Chronometre/script.js:51-54 | elapsed becomes now − start time and the display shows it |
| Chronometre.Stopwatch.AddLap | Chronometre/script.js:70-76 | lap count grows by exactly 1 and one `Tour n: mm:ss:cc` entry is prepended; older entries are unchanged |
| Chronometre.ResumeKeepsElapsed | Chronometre/script.js:25-31 | restarting and ticking delta ms later shows the previous elapsed time plus delta |
| Rappels.ParseDate | rappel/rappels.py:574 | whatever `strptime` accepts is a date the calendar has |
| Rappels.ParseLaidOut | rappel/rappels.py:574 | text laid out as day/month/year, one space, hour:minute parses exactly as its five fields do |
| Rappels.ParseFormatDate | rappel/rappels.py:574-579 | formatting a valid date and parsing it gives the date back |
| Rappels.FormatDateCanonical | rappel/rappels.py:579 | `strftime` always writes DD/MM/YYYY HH:MM: two digits per field and four for the year, at fixed positions |
| Rappels.FormatParseCanonical | rappel/rappels.py:574-579 | for text already in `DD/MM/YYYY HH:MM` form, formatting the parsed date gives the text back |
| Rappels.NormalisedDateStable | rappel/rappels.py:574-579 | the stored date parses to the entered date and is in canonical form |
| Rappels.NotAfterMinute | rappel/rappels.py:597 | comparing a parsed date with the clock depends only on the clock's minute |
| Rappels.DateLeTotal | rappel/rappels.py:597 | the date order is total and antisymmetric |
| Rappels.GestionnaireRappels.constructor | rappel/rappels.py:557-566 | the list is the saved one, or empty when no file exists |
| Rappels.GestionnaireRappels.SauvegarderRappels | rappel/rappels.py:568-570 | the file holds the current list |
| Rappels.GestionnaireRappels.AjouterRappelGui | rappel/rappels.py:572-585 | a bad date fails with "Format de date invalide!" and changes nothing. Otherwise exactly one reminder with the normalised date is appended and the list is saved |
| Rappels.GestionnaireRappels.SupprimerRappel | rappel/rappels.py:587-589 | the list becomes the reminders whose date differs, in order, and is saved |
| Rappels.WithoutDateSpec | rappel/rappels.py:588 | deletion keeps exactly the reminders with another date, never grows the list, and changes nothing for an unknown date |
| Rappels.GestionnaireRappels.VerifierRappels | rappel/rappels.py:591-603 | with every stored date valid: one notification per due reminder in list order, list becomes the not-due ones, saved. Otherwise: error at the first bad date, list and file untouched |
| Rappels.GestionnaireRappels.CollectDue | rappel/rappels.py:594-599 | the first loop collects and notifies exactly the due reminders in order, or stops at the first unparsable date |
| Rappels.GestionnaireRappels.RemoveAll | rappel/rappels.py:601-602 | removing each collected reminder with `list.remove` leaves exactly the not-due reminders in order |
| Rappels.RemoveFirstSpec | rappel/rappels.py:602 | `list.remove(x)` on a list holding x drops exactly its first x, keeping everything before and after it in order |
| Rappels.RemoveNext | rappel/rappels.py:601-602 | each `list.remove` takes out exactly the next collected reminder, never an equal earlier one that is kept |
| Rappels.RemoveDone | rappel/rappels.py:601-602 | once every collected reminder is removed, the list is exactly the reminders that were not collected, in order |
| Rappels.FirstInvalidAt | rappel/rappels.py:595-596 | the sweep stops at index i exactly when every earlier date parses and the one at i does not; the list is then not well formed |
| Rappels.DuePendingPartition | rappel/rappels.py:591-603 | removed and kept reminders together are the original list (as a multiset); all removed ones are due and no kept one is |
| Rappels.SweepIdempotent | rappel/rappels.py:591-603 | a second sweep at the same time sends nothing and changes nothing |
| Rappels.WellFormedPending | rappel/rappels.py:591-603 | the sweep keeps every stored date parsable |
| Rappels.WellFormedWithoutDate | rappel/rappels.py:587-589 | deleting keeps every stored date parsable |

## Left out

- Stereo input: the downmix by `np.mean(axis=1)` is not modelled; samples are one channel.
- Floating point: energies, means, thresholds and the normalised samples (float32 in the code) are exact reals. `int(rate * 0.05)` is taken as `rate / 20` (equal for every rate, since the double nearest 0.05 lies above 1/20). The 100 ms test, the segment times in seconds (lines 204 and 210), the 0.3 s gap test (line 221), the margin comparison (line 252) and the clamps to [0, duration] (lines 258-259 and 265-266) are exact real arithmetic too. At an exact boundary, such as a gap of exactly 0.3 s, the code's rounded floats can decide the other way.
- VideoCutter.AudioAnalyzer.DetectSpeechSegments: the standard deviation `np.std` is an input, since a square root is not expressible here; the mean is computed.
- The `speech_samples` counter and every log call exist only for logging and are not modelled.
- Video cutter I/O: ffmpeg, `subprocess`, temp files, `wave`, `numpy.frombuffer` and the output path are not modelled. `export_segments` is modelled up to the filter string.
- VideoCutter.AudioAnalyzer.ExportSegments: Python's rendering of a float in an f-string is the parameter `render`.
- Rappels.ParseDate: `strptime` is modelled on ASCII digits and ASCII whitespace. Other Unicode digits and spaces, which the regular expression also accepts, are not.
- Rappels.RemoveFirstSpec: `list.remove` raises ValueError when x is absent. The sweep only removes reminders it collected from the list, so that case does not arise and is not modelled.
- Rappels.FormatDate: `%Y` is written with four digits. Years below 1000 are padded differently on some platforms.
- Rappels.GestionnaireRappels.constructor: the JSON file is taken as already decoded; malformed JSON and entries lacking keys are not modelled.
- Rappels.GestionnaireRappels.VerifierRappels: an unparsable stored date raises in the code; that exception also stops the GUI's periodic reschedule, which is not modelled.
- `envoyer_notification` and plyer are not called: each notification is an element of the returned list. Notification failures are not modelled.
- The `AppRappels` Tk interface, its theming and its scheduling are not modelled.
- Stopwatch host features (DOM updates, `setInterval`/`clearInterval`, `Date.now` and `toggleTheme`) are not modelled. The clock is a parameter, and the display is the field `readout`, which is `None` before the page first writes it.
- Chronometre.Stopwatch.StartTimer: requires a stopped stopwatch. The start button is disabled while ticking, so a second start (which would install a second interval) is not modelled.
- Chronometre.Stopwatch.UpdateTime: requires a ticking stopwatch; the interval only fires while ticking.
- Building, packaging, the Qt window, `process_video.py`, `main.py` and `export_formats.py` are not modelled.
