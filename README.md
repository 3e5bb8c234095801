# streamer-viewer: a Dafny model of the catalogue and matching core

The streamer viewer is a small Flask application. It shows the GPS tracks and webcam recordings a streamer has stored on disk, plays a track back next to the videos recorded while it ran, and lets the user delete a track together with those videos. This project models the part of `main.py` that decides what the user sees. That part is:

- **Track catalogue** (`get_track_files`): each readable `.tsv` track file is scanned line by line. The scan counts the data points and keeps the first and the last timestamp. A summary is built with a duration, and the list is sorted newest-created first. Modelled in module `TrackCatalog`.
- **Track parser** (`load_track_data`): a track file becomes its list of coordinates. Comment and blank lines are skipped, and so is the first header line. Optional columns may be missing or empty. One IndexError quirk makes the whole call return an empty list. Modelled in module `TrackParser`.
- **Video catalogue** (`get_video_files`): recordings named `<timestamp>.mp4` are recognised under `<domain>/<rtmpkey>/`. The video's end time is attached when its duration is known, and the list is sorted newest first. Modelled in module `VideoCatalog`.
- **Temporal matcher** (`find_all_related_videos`): keeps the videos whose span strictly overlaps the track's span, in chronological order. Modelled in module `TemporalMatcher`.
- **Duration filter** (`durationformat`): renders a number of seconds as `h:mm:ss`, or `m:ss` under an hour. Modelled in module `DurationFormat`.
- **Delete outcome** (the end of `delete_track`): decides the response flags and message from how many video removals succeeded and failed. Modelled in module `DeleteOutcome`.

Supporting modules:

- `PyStr` models the Python string operations the core relies on: `str.strip()` with Python's whitespace set, `str.split(sep)`, `startswith`, `endswith`, `str(n)` on a natural number, `f"{n:02}"`, and decimal digit strings.
- `StableSort` models `list.sort(key=...)` as a stable insertion sort. With `reverse=True`, that method is also stable. It therefore equals a stable ascending sort on the negated key, and that is how it is modelled.
- `Sequences` holds the generic map and append-if-present helpers.
- `Optional` holds the option type.

The loops of the source are methods with loop invariants:

- `CountCoordinates`;
- `GetTrackFiles`;
- `LoadTrackData`;
- `GetVideoFiles`;
- `FindAllRelatedVideos`.

Each method's `ensures` ties its result to a reference function. Lemmas then prove what the source promises about that function.

Inputs the model takes instead of performing I/O:

- **Track directory.** It is given as a list of `TrackFile` records. Each record holds the track id, the creation and modification times (as integers), the size, and the file's lines. The lines are `None` when stat, open or read raised.
- **Number parsing.** Python's `int(...)` and `float(...)` on a string are the oracle parameters `parseInt` and `parseFloat`. Floating-point values have an abstract type `F`.
- **Video walk.** It is given as a list of `VideoEntry` records. Each record holds the domain, the rtmpkey, the file name, the size, and the probed duration. The size is `None` when `os.stat` raised. The duration is `None` when the media probe found none.
- **Timestamp range.** Whether `datetime.fromtimestamp` accepts a timestamp is the oracle `representable`.

A track summary might be expected to hold the *minimum and maximum* timestamp. The code keeps the *first and last* accepted timestamp in file order (main.py:77-79). The model follows the code; `TrackCatalog.ScanIsCountFirstLast` states it and `TrackCatalog.MonotonicTrack` proves that the two readings agree when the timestamps never decrease.

## Model

| member | source | states |
|---|---|---|
| PyStr.IsSpace | main.py:68 | defines Python's `str.isspace()` on one character as the Unicode whitespace code points; it has no contract of its own, and the strip lemmas below are stated over it |
| PyStr.StartsWith | main.py:68-70 | the prefix test that `startswith` makes; it has no contract of its own, and `PyStr.StartsWithMeans` characterises it |
| PyStr.StartsWithMeans | main.py:68-70 | `s.startswith(p)` holds exactly when `s` is `p` followed by some text |
| PyStr.EndsWith | main.py:124 | the suffix test that `endswith` makes; it has no contract of its own, and `PyStr.EndsWithMeans` characterises it |
| PyStr.EndsWithMeans | main.py:124 | `s.endswith(x)` holds exactly when `s` is some text followed by `x` |
| PyStr.Strip | main.py:68 | `strip()` gives a result no longer than the line, with no whitespace at either end, and the empty string exactly when the line is all whitespace |
| PyStr.StripKeepsSlice | main.py:68 | `strip()` removes only whitespace: the result is the slice of the line starting after its leading whitespace, and everything before and after that slice is whitespace |
| PyStr.StripTrailing | main.py:180 | stripping text followed by whitespace (trailing tabs, the newline) gives back the text when it has no whitespace at its ends |
| PyStr.Split | main.py:73 | `split('\t')` yields at least one field, no field contains a tab, and joining the fields with tabs gives the line back |
| PyStr.SplitJoin | main.py:188 | splitting tab-joined tab-free fields gives exactly those fields |
| PyStr.NatStr | main.py:342-344 | `str(n)` is a non-empty digit string without leading zero whose decimal value is `n` |
| PyStr.NatStrOfDecimal | main.py:342-344 | every canonical digit string is `str` of its value (the converse round trip) |
| PyStr.Pad2 | main.py:342-344 | `f"{n:02}"` is a digit string of at least two characters, exactly two below 100, whose value is `n` |
| StableSort.SortBy | main.py:101 | `list.sort` returns a permutation of its input, ordered by the key |
| StableSort.InsertSorted | main.py:101 | inserting into a sorted list keeps it sorted and keeps every lower bound on the keys |
| StableSort.SortByStable | main.py:313 | the sort is stable: for every key, the elements with that key keep their input order |
| TrackCatalog.LineTimestamp | main.py:68-82 | what one raw line contributes to the scan; it has no contract of its own, and `TrackCatalog.TimestampsMembers` characterises it |
| TrackCatalog.TimestampsMembers | main.py:67-82 | a timestamp is accepted exactly when some line is not a comment, blank or `timestamp` line, has at least three tab fields after strip, and its first field parses as an int |
| TrackCatalog.FoldIsFirstLast | main.py:77-80 | the loop's update counts the accepted timestamps and keeps the first one in `start_time` and the latest one in `end_time` |
| TrackCatalog.ScanIsCountFirstLast | main.py:62-82 | after the scan, the count is the number of accepted lines and start/end are the first and last accepted timestamps in file order; both are `None` and the count is 0 for no accepted line |
| TrackCatalog.CountCoordinates | main.py:62-82 | the loop ends in the state of the scan, which is the count, first and last of the accepted timestamps |
| TrackCatalog.Duration | main.py:94 | a non-zero duration needs both start and end present and non-zero; when both are present with start <= end the duration is non-negative |
| TrackCatalog.DurationOfTrack | main.py:94 | duration is last minus first accepted timestamp when both are non-zero, else 0 (also when the first timestamp is 0) |
| TrackCatalog.MonotonicTrack | main.py:62-94 | when the accepted timestamps never decrease, start and end are both present or both absent, start <= end, every accepted timestamp lies between them (so they are the minimum and maximum), and the duration is non-negative |
| TrackCatalog.Summarise | main.py:84-95 | builds the summary record from a file and its scan, with the duration of `TrackCatalog.Duration`; it has no contract of its own, and `TrackCatalog.SummariesMembers` and `TrackCatalog.GetTrackFiles` are stated over it |
| TrackCatalog.Summaries | main.py:50-98 | the summaries the per-file loop appends, in directory order; it has no contract of its own, and `TrackCatalog.SummariesMembers` characterises it |
| TrackCatalog.SummariesMembers | main.py:50-98 | a summary is listed exactly when it is the summary of some readable track file |
| TrackCatalog.GetTrackFiles | main.py:45-102 | the result is the per-file summaries sorted stably by creation time newest first: the same multiset, creation times non-increasing |
| TrackParser.BuildCoordinate | main.py:189-206 | IndexError exactly for three fields whose first three parse; a coordinate exactly for more than three fields with all required and non-empty optional fields parsing, with the parsed values and absent optional columns as None; otherwise the line is skipped |
| TrackParser.LoadTrackData | main.py:169-212 | the loop returns what the reference reading of the file gives: `[]` for an unreadable file or an escaped IndexError, else the coordinates collected |
| TrackParser.ParseLine | main.py:180-206 | one iteration of the loop with the `header_found` flag; it has no contract of its own, and `TrackParser.NotHeaderSameResult` and `TrackParser.AbortingLine` characterise it, with `TrackParser.BuildCoordinate` for the field parsing |
| TrackParser.ParseLines | main.py:179-210 | the loop from a given `header_found` state, `None` when the IndexError escapes; it has no contract of its own, and `TrackParser.ParseLinesBeforeHeader` and `TrackParser.ParseLinesAfterHeader` characterise it |
| TrackParser.LoadResult | main.py:173-212 | what `load_track_data` returns; it has no contract of its own, and `TrackParser.LoadReference` characterises it |
| TrackParser.WithoutHeaderRemovesFirst | main.py:177-186 | exactly the first `timestamp` line is removed; later ones stay as data lines, and with none nothing is removed |
| TrackParser.NotHeaderSameResult | main.py:184-186 | a line that is not a header candidate is treated the same before and after the header was seen |
| TrackParser.ParseLinesBeforeHeader | main.py:179-186 | the loop from the start equals the loop with `header_found` set, run over the lines without the first header line |
| TrackParser.CollectIsCoords | main.py:190-210 | over per-line outcomes, the loop gives nothing when some outcome is an IndexError, and otherwise exactly the parsed coordinates in order |
| TrackParser.ParseLinesAfterHeader | main.py:188-210 | once the header is seen, the loop aborts exactly when some line raises the IndexError, and otherwise returns the coordinates of the parsed lines |
| TrackParser.LoadReference | main.py:169-212 | on a readable file the result is `[]` if any data line raises the IndexError, else the coordinates of the accepted data lines in file order |
| TrackParser.CoordinatesAppend | main.py:179-203 | the coordinates of two runs of lines are those of the first run followed by those of the second (file order) |
| TrackParser.CoordinatesMembers | main.py:179-206 | a coordinate is returned exactly when some data line parses to it |
| TrackParser.AbortingLine | main.py:180-196 | a data line raises the IndexError exactly when it is not a comment or blank once stripped, has exactly three tab fields, and its int/float/float fields parse |
| TrackParser.TrailingTabsAbort | main.py:180-196 | a line whose optional columns are only empty tabs loses them to `strip()` and, when its three fields parse, raises the IndexError |
| VideoCatalog.PatternMatches | main.py:128 | `re.match(r'^(\d+)\.mp4$', name)`, where `$` also matches before a final newline; it has no contract of its own, and `VideoCatalog.RecognisedNames` characterises it |
| VideoCatalog.RecognisedNames | main.py:124-129 | `endswith('.mp4')` together with `^(\d+)\.mp4$` accepts exactly the names of one or more digits followed by `.mp4` (the trailing-newline case of `$` is excluded by `endswith`) |
| VideoCatalog.Recognise | main.py:123-160 | a file yields a video exactly when its name is `<digits>.mp4`, stat succeeded and the timestamp is representable, with the fields given; `duration` and `end_time = timestamp + duration` are present exactly when the probe returned a duration |
| VideoCatalog.RecognisedMembers | main.py:112-163 | a video is listed exactly when some file of the walk is recognised as it |
| VideoCatalog.GetVideoFiles | main.py:104-167 | the result is the recognised videos sorted stably newest first: the same multiset, timestamps non-increasing |
| TemporalMatcher.Overlaps | main.py:296-308 | the per-video test: an end time is known and `max(starts) < min(ends)`; it has no contract of its own, and `TemporalMatcher.OverlapsCrossing` and `TemporalMatcher.OverlapMeansSharedInstant` characterise it |
| TemporalMatcher.OverlapsCrossing | main.py:303-308 | for a video with an end time, `max(starts) < min(ends)` holds exactly when both spans are non-empty and each starts before the other ends |
| TemporalMatcher.OverlapMeansSharedInstant | main.py:303-308 | for a video with an end time, `max(starts) < min(ends)` holds exactly when the half-open track and video spans share an instant, so touching spans are excluded |
| TemporalMatcher.Related | main.py:293-311 | the videos the loop appends, in input order; it has no contract of its own, and `TemporalMatcher.RelatedCounts` characterises it |
| TemporalMatcher.RelatedCounts | main.py:293-310 | the loop keeps each qualifying video as often as it occurs in the input, and no other video |
| TemporalMatcher.SortedRelated | main.py:313 | the sorted result holds exactly the input videos that have an end time and overlap, each as often as in the input, ordered by start, with equal starts in input order |
| TemporalMatcher.FindAllRelatedVideos | main.py:278-315 | the method returns the overlapping videos sorted stably by start; a video without end time is never returned; empty input gives `[]` |
| TemporalMatcher.MatchScenario | main.py:278-315 | for a track from 1000 to 2000, a video reaching into it from before and one inside it are returned in start order, while one after it and one without end time are not |
| DurationFormat.Trunc | main.py:337 | `int(x)` truncates toward zero |
| DurationFormat.Clock | main.py:337-344 | the clock text for a whole-second count is never empty; `DurationFormat.ClockRoundTrip` proves that it reads back as the count |
| DurationFormat.Render | main.py:334-335 | the result is empty exactly when the value is `None` or 0 |
| DurationFormat.Decomposition | main.py:338-340 | hours, minutes and seconds sum back to the whole-second count, with minutes and seconds in 0..59 |
| DurationFormat.LongClockRoundTrip | main.py:341-342 | `h:mm:ss` reads back as its three fields, two-digit minutes and seconds |
| DurationFormat.ShortClockRoundTrip | main.py:343-344 | `m:ss` reads back as its two fields, two-digit seconds |
| DurationFormat.ClockRoundTrip | main.py:337-344 | the clock text reads back as the whole-second count (for a negative count, its remainder modulo an hour); it has three fields exactly when the count is at least an hour |
| DurationFormat.RenderRoundTrip | main.py:332-346 | a non-zero value renders as a clock that reads back as its truncated seconds, with the hour field exactly from 3600 seconds on |
| DeleteOutcome.Classify | main.py:478-507 | the response always reports success; `video_deleted` exactly when some video was removed; `track_deleted` when the track file was removed or any video removal failed; the message starts with "Track deleted successfully" |
| DeleteOutcome.MessageDeterminesCounts | main.py:478-501 | two outcomes with the same message have the same numbers of removed and failed videos |
| DeleteOutcome.MissingTrackReportedDeleted | main.py:479-486 | with no track file and one failed video removal, the response still says the track was deleted |
| DeleteOutcome.ClassifyIntended | main.py:478-507 | corrected classification: `track_deleted` is whether the track file was removed in every branch; other flags and the message unchanged |

## Findings

| source | as written | input that shows it | evidently intended | confidence | as-written member | corrected member |
|---|---|---|---|---|---|---|
| main.py:479-494 | both failure branches answer `'track_deleted': True` | the track file is gone by the existence test at main.py:458 (`track_deleted` stays False), and one related video fails to be removed. The catalogue scan at main.py:446 has just read the file, so this needs a concurrent removal in between, for example a second delete request for the same track | `track_deleted` reports whether the track file was removed, as the success branch at main.py:505 does | medium, not executed | DeleteOutcome.MissingTrackReportedDeleted | DeleteOutcome.ClassifyIntended |

## Left out

- Upload jobs, their cancellation and the progress broadcasting: their point is concurrency, and that code is not part of this model.
- Flask routes, template rendering, JSON encoding of responses, and `serve_video`: this is web I/O. The path check in `serve_video` depends on `os.path.join`.
- The route-level lookups in `delete_track` are left out: the missing `track_id`, the track not found, and the failure to remove the track file. The counting loop around `safe_remove_file` is also left out. Only the classification of the final counts is modelled.
- `safe_remove_file`: OS removal, ctypes and `os.sync` flushing are foreign calls.
- pywebview windows, `main()` start-up sequencing and the splash-screen updates: UI and sleeps.
- `is_port_available` and `find_available_port`: socket I/O.
- create_splash.py: image drawing with floating-point trigonometry.
- `get_video_duration_mediainfo`: a pymediainfo wrapper converting float milliseconds to seconds. It is an input: the duration field of `VideoEntry`.
- `filesizeformat` and `datetimeformat`: float division with `%.1f` formatting, and `strftime`.
- Directory walking, the `isdir` filters, `glob`, `os.stat`, `os.path.splitext` and `datetime.fromtimestamp`:
  - these become inputs: the file lists are given in walk order, and the track id comes with each file;
  - creation times are integers rather than floats or datetimes;
  - the `filepath`, `filename` and `datetime` fields of the track summaries, and the `filepath` and `datetime` fields of the videos, are not modelled.
- Floating-point arithmetic is not modelled. Video durations and end times are exact reals, so the rounding of `timestamp + duration` is left out. For the same reason, `durationformat` has no infinity or NaN, and its `except` branch (`str(value)`) is not modelled.
- Unicode digits are not modelled: `\d` and `int()` also accept non-ASCII decimal digits, and the model treats only ASCII digits. Python's limit on the length of integer strings is not modelled either.
- DurationFormat.ParseClock is a reading-back function used only to state the round trip. It does not correspond to code in the program.
- TemporalMatcher.FindAllRelatedVideos: times are integers and reals. The `TypeError` Python would raise when a track without timestamps (`None` start or end) reaches the matcher from `delete_track` or the track view is not modelled.
