/**
 * The track catalogue: a summary (point count, first and last timestamp,
 * duration) for every readable track file, newest-created first.
 *
 * Python's `int(...)` on a field is the oracle `parseInt`; a file whose stat,
 * open or read raised is given with `content == None`.
 */
module TrackCatalog {
  import opened Optional
  import opened PyStr
  import opened StableSort
  import opened Sequences

  /**
   * The timestamp a raw line contributes to the scan: none for comment lines,
   * blank lines and every line starting with `timestamp`, and none unless the
   * stripped line has at least three tab fields whose first parses as an int.
   */
  function LineTimestamp(line: string, parseInt: string -> Option<int>): Option<int> {
    if StartsWith(line, "#") || Strip(line) == "" then None
    else if StartsWith(line, "timestamp") then None
    else
      var parts := Split(Strip(line), '\t');
      if |parts| >= 3 then parseInt(parts[0]) else None
  }

  /** The loop state of the scan: `coord_count`, `start_time`, `end_time`. */
  datatype ScanState = ScanState(count: nat, startTime: Option<int>, endTime: Option<int>)

  /** One iteration of the scan loop, given what the line contributes. */
  function Step(st: ScanState, accepted: Option<int>): ScanState {
    match accepted
    case None => st
    case Some(t) =>
      ScanState(st.count + 1, if st.startTime.None? then Some(t) else st.startTime, Some(t))
  }

  /** The scan as a left fold over what the lines contribute, from the initial state. */
  function Fold(outcomes: seq<Option<int>>): ScanState
    decreases |outcomes|
  {
    if outcomes == [] then ScanState(0, None, None)
    else Step(Fold(outcomes[..|outcomes| - 1]), outcomes[|outcomes| - 1])
  }

  /** What each line of the file contributes, in order. */
  function Outcomes(lines: seq<string>, parseInt: string -> Option<int>): seq<Option<int>> {
    MapSeq((line: string) => LineTimestamp(line, parseInt), lines)
  }

  /** The scan over the lines of a file. */
  function ScanLines(lines: seq<string>, parseInt: string -> Option<int>): ScanState {
    Fold(Outcomes(lines, parseInt))
  }

  /** The timestamps among the outcomes, in order. */
  function Present(outcomes: seq<Option<int>>): seq<int> {
    FilterMap((o: Option<int>) => o, outcomes)
  }

  /** Reference: the accepted timestamps, in file order. */
  function Timestamps(lines: seq<string>, parseInt: string -> Option<int>): seq<int> {
    Present(Outcomes(lines, parseInt))
  }

  /** What the scan must end with for the accepted timestamps `ts`: their number, the first and the last. */
  function FirstLast(ts: seq<int>): ScanState {
    if ts == [] then ScanState(0, None, None)
    else ScanState(|ts|, Some(ts[0]), Some(ts[|ts| - 1]))
  }

  /** A timestamp is accepted exactly when some line of the file yields it. */
  lemma TimestampsMembers(lines: seq<string>, parseInt: string -> Option<int>, t: int)
    ensures t in Timestamps(lines, parseInt)
        <==> exists i :: 0 <= i < |lines| && LineTimestamp(lines[i], parseInt) == Some(t)
  {
    var os := Outcomes(lines, parseInt);
    FilterMapMembers((o: Option<int>) => o, os, t);
    if exists i :: 0 <= i < |lines| && LineTimestamp(lines[i], parseInt) == Some(t) {
      var i :| 0 <= i < |lines| && LineTimestamp(lines[i], parseInt) == Some(t);
      assert os[i] == Some(t);
    }
  }

  /** The fold counts the timestamps present and keeps the first and the last of them. */
  lemma {:induction false} FoldIsFirstLast(outcomes: seq<Option<int>>)
    ensures Fold(outcomes) == FirstLast(Present(outcomes))
  {
    if outcomes != [] {
      var init := outcomes[..|outcomes| - 1];
      var last := outcomes[|outcomes| - 1];
      FoldIsFirstLast(init);
      assert Present(outcomes) == Present(init) + (match last case Some(y) => [y] case None => []);
    }
  }

  /**
   * The scan counts the accepted lines and keeps the first and the last
   * accepted timestamp in file order (not the minimum and maximum).
   */
  lemma ScanIsCountFirstLast(lines: seq<string>, parseInt: string -> Option<int>)
    ensures ScanLines(lines, parseInt) == FirstLast(Timestamps(lines, parseInt))
  {
    FoldIsFirstLast(Outcomes(lines, parseInt));
  }

  /** The folding loop of the scan, main.py:62-82. */
  method CountCoordinates(lines: seq<string>, parseInt: string -> Option<int>)
    returns (coordCount: nat, startTime: Option<int>, endTime: Option<int>)
    ensures ScanState(coordCount, startTime, endTime) == ScanLines(lines, parseInt)
    ensures ScanState(coordCount, startTime, endTime) == FirstLast(Timestamps(lines, parseInt))
  {
    coordCount, startTime, endTime := 0, None, None;
    for i := 0 to |lines|
      invariant ScanState(coordCount, startTime, endTime) == ScanLines(lines[..i], parseInt)
    {
      ScanLinesSnoc(lines, i, parseInt);
      var line := lines[i];
      if StartsWith(line, "#") || Strip(line) == "" {
        assert LineTimestamp(line, parseInt) == None;
        continue;
      }
      if StartsWith(line, "timestamp") {
        assert LineTimestamp(line, parseInt) == None;
        continue;
      }
      var parts := Split(Strip(line), '\t');
      if |parts| >= 3 {
        var parsed := parseInt(parts[0]);
        assert LineTimestamp(line, parseInt) == parsed;
        if parsed.Some? {
          var timestamp := parsed.value;
          if startTime.None? {
            startTime := Some(timestamp);
          }
          endTime := Some(timestamp);
          coordCount := coordCount + 1;
        }
      } else {
        assert LineTimestamp(line, parseInt) == None;
      }
    }
    assert lines[..|lines|] == lines;
    ScanIsCountFirstLast(lines, parseInt);
  }

  lemma ScanLinesSnoc(lines: seq<string>, i: nat, parseInt: string -> Option<int>)
    requires i < |lines|
    ensures ScanLines(lines[..i + 1], parseInt) == Step(ScanLines(lines[..i], parseInt), LineTimestamp(lines[i], parseInt))
  {
    var f := (line: string) => LineTimestamp(line, parseInt);
    assert lines[..i + 1] == lines[..i] + [lines[i]];
    MapSeqAppend(f, lines[..i], [lines[i]]);
    var os := Outcomes(lines[..i + 1], parseInt);
    assert os[..i] == Outcomes(lines[..i], parseInt);
  }

  /** Python truthiness of an optional integer: present and non-zero. */
  predicate Truthy(t: Option<int>) {
    t.Some? && t.value != 0
  }

  /** `end_time - start_time if start_time and end_time else 0` (main.py:94). */
  function Duration(st: ScanState): (d: int)
    ensures d != 0 ==> Truthy(st.startTime) && Truthy(st.endTime)
    ensures st.startTime.Some? && st.endTime.Some? && st.startTime.value <= st.endTime.value ==> d >= 0
  {
    if Truthy(st.startTime) && Truthy(st.endTime) then st.endTime.value - st.startTime.value else 0
  }

  /**
   * The duration is last minus first accepted timestamp when both are
   * non-zero, and 0 otherwise: with no accepted line, and also when the
   * first (or last) timestamp is 0.
   */
  lemma DurationOfTrack(lines: seq<string>, parseInt: string -> Option<int>)
    ensures var ts := Timestamps(lines, parseInt);
            Duration(ScanLines(lines, parseInt))
            == if ts != [] && ts[0] != 0 && ts[|ts| - 1] != 0 then ts[|ts| - 1] - ts[0] else 0
  {
    ScanIsCountFirstLast(lines, parseInt);
  }

  /**
   * The scan does not sort: only for a file whose timestamps never decrease
   * are the first and last accepted timestamps its minimum and maximum, with
   * `start_time <= end_time` and a non-negative duration.
   */
  lemma MonotonicTrack(lines: seq<string>, parseInt: string -> Option<int>)
    requires var ts := Timestamps(lines, parseInt);
             forall i, j :: 0 <= i < j < |ts| ==> ts[i] <= ts[j]
    ensures var st := ScanLines(lines, parseInt);
            (st.startTime.Some? <==> st.endTime.Some?)
            && (st.startTime.Some? ==> st.startTime.value <= st.endTime.value)
            && Duration(st) >= 0
    ensures var st := ScanLines(lines, parseInt);
            st.startTime.Some? && st.endTime.Some? ==>
              forall t :: t in Timestamps(lines, parseInt) ==> st.startTime.value <= t <= st.endTime.value
  {
    ScanIsCountFirstLast(lines, parseInt);
  }

  /** One entry of the track directory: what `os.stat` and reading the file gave, or `None` if either raised. */
  datatype TrackFile = TrackFile(trackId: string, created: int, modified: int, size: int,
                                 content: Option<seq<string>>)

  datatype TrackSummary = TrackSummary(trackId: string, created: int, modified: int, size: int,
                                       coordCount: nat, startTime: Option<int>, endTime: Option<int>,
                                       duration: int)

  function Summarise(f: TrackFile, st: ScanState): TrackSummary {
    TrackSummary(f.trackId, f.created, f.modified, f.size, st.count, st.startTime, st.endTime, Duration(st))
  }

  /** The summary a file contributes: none when it could not be read. */
  function Entry(parseInt: string -> Option<int>, f: TrackFile): Option<TrackSummary> {
    match f.content
    case Some(lines) => Some(Summarise(f, ScanLines(lines, parseInt)))
    case None => None
  }

  /** The summaries appended by the per-file loop, in directory order; unreadable files are left out. */
  function Summaries(files: seq<TrackFile>, parseInt: string -> Option<int>): seq<TrackSummary> {
    FilterMap((f: TrackFile) => Entry(parseInt, f), files)
  }

  /** A summary is listed exactly when it is that of some readable file of the directory. */
  lemma SummariesMembers(files: seq<TrackFile>, parseInt: string -> Option<int>, t: TrackSummary)
    ensures t in Summaries(files, parseInt)
        <==> exists i :: 0 <= i < |files| && files[i].content.Some?
                         && t == Summarise(files[i], ScanLines(files[i].content.value, parseInt))
  {
    FilterMapMembers((f: TrackFile) => Entry(parseInt, f), files, t);
    if exists i :: 0 <= i < |files| && files[i].content.Some?
                   && t == Summarise(files[i], ScanLines(files[i].content.value, parseInt)) {
      var i :| 0 <= i < |files| && files[i].content.Some?
               && t == Summarise(files[i], ScanLines(files[i].content.value, parseInt));
      assert Entry(parseInt, files[i]) == Some(t);
    }
  }

  /** Sort key for `sort(key=created, reverse=True)`. */
  function NewestCreatedFirst(t: TrackSummary): int {
    -t.created
  }

  /** `get_track_files` over the files `glob` found (main.py:47-102). */
  method GetTrackFiles(files: seq<TrackFile>, parseInt: string -> Option<int>)
    returns (tracks: seq<TrackSummary>)
    ensures tracks == SortBy(Summaries(files, parseInt), NewestCreatedFirst)
    ensures multiset(tracks) == multiset(Summaries(files, parseInt))
    ensures forall i, j :: 0 <= i < j < |tracks| ==> tracks[i].created >= tracks[j].created
  {
    var found: seq<TrackSummary> := [];
    for i := 0 to |files|
      invariant found == Summaries(files[..i], parseInt)
    {
      var f := files[i];
      assert files[..i + 1] == files[..i] + [f];
      FilterMapSnoc((f: TrackFile) => Entry(parseInt, f), files[..i], f);
      if f.content.Some? {
        var coordCount, startTime, endTime := CountCoordinates(f.content.value, parseInt);
        var st := ScanState(coordCount, startTime, endTime);
        found := found + [Summarise(f, st)];
      }
    }
    assert files[..|files|] == files;
    tracks := SortBy(found, NewestCreatedFirst);
    assert SortedBy(tracks, NewestCreatedFirst);
  }
}
