/**
 * The track parser: the full coordinate sequence of one track file.
 *
 * Python's `int(...)` and `float(...)` on a field are the oracles `parseInt`
 * and `parseFloat`; floating-point values are of the abstract type `F`.
 */
module TrackParser {
  import opened Optional
  import opened PyStr
  import opened Sequences

  datatype Coordinate<F> = Coordinate(
    timestamp: int,
    latitude: F,
    longitude: F,
    altitude: Option<F>,
    accuracy: Option<F>,
    altitudeAccuracy: Option<F>,
    heading: Option<F>,
    speed: Option<F>)

  /** What one iteration of the parsing loop does with a line. */
  datatype LineResult<F> =
    | Ignored                        // comment or blank after stripping
    | Header                         // the first `timestamp...` line
    | TooFewFields                   // fewer than three tab fields
    | Malformed                      // a ValueError from int() or float(): the line is skipped
    | Parsed(coordinate: Coordinate<F>)
    | IndexError                     // `parts[3]` on a three-field line: escapes the loop

  /** An optional column: absent when missing or empty, else what `float` makes of it. */
  datatype Field<F> = Absent | Present(value: F) | Unparsable

  function OptionalField<F>(parts: seq<string>, i: nat, parseFloat: string -> Option<F>): Field<F> {
    if i < |parts| && parts[i] != "" then
      match parseFloat(parts[i])
      case Some(v) => Present(v)
      case None => Unparsable
    else Absent
  }

  function FieldValue<F>(f: Field<F>): Option<F> {
    match f
    case Present(v) => Some(v)
    case _ => None
  }

  /** The first three columns parse as int, float, float. */
  predicate RequiredParse<F>(parts: seq<string>, parseInt: string -> Option<int>, parseFloat: string -> Option<F>)
    requires |parts| >= 3
  {
    parseInt(parts[0]).Some? && parseFloat(parts[1]).Some? && parseFloat(parts[2]).Some?
  }

  /** Column `i` can be read without a ValueError: missing, empty, or a float. */
  predicate FieldOk<F>(parts: seq<string>, i: nat, parseFloat: string -> Option<F>) {
    i >= |parts| || parts[i] == "" || parseFloat(parts[i]).Some?
  }

  /** The value an optional column gives the coordinate. */
  function ColumnValue<F>(parts: seq<string>, i: nat, parseFloat: string -> Option<F>): Option<F> {
    if i < |parts| && parts[i] != "" then parseFloat(parts[i]) else None
  }

  /**
   * The dictionary literal of main.py:191-202, evaluated left to right: a
   * failing int()/float() is a ValueError, and `parts[3]` on a line of
   * exactly three fields is an IndexError.
   */
  function BuildCoordinate<F>(parts: seq<string>, parseInt: string -> Option<int>, parseFloat: string -> Option<F>)
    : (r: LineResult<F>)
    requires |parts| >= 3
    ensures r.Malformed? || r.Parsed? || r.IndexError?
    ensures r.IndexError? <==> |parts| == 3 && RequiredParse(parts, parseInt, parseFloat)
    ensures r.Parsed? <==>
              && |parts| > 3 && RequiredParse(parts, parseInt, parseFloat)
              && forall i :: 3 <= i < 8 ==> FieldOk(parts, i, parseFloat)
    ensures r.Parsed? ==>
              && Some(r.coordinate.timestamp) == parseInt(parts[0])
              && Some(r.coordinate.latitude) == parseFloat(parts[1])
              && Some(r.coordinate.longitude) == parseFloat(parts[2])
              && r.coordinate.altitude == ColumnValue(parts, 3, parseFloat)
              && r.coordinate.accuracy == ColumnValue(parts, 4, parseFloat)
              && r.coordinate.altitudeAccuracy == ColumnValue(parts, 5, parseFloat)
              && r.coordinate.heading == ColumnValue(parts, 6, parseFloat)
              && r.coordinate.speed == ColumnValue(parts, 7, parseFloat)
  {
    match parseInt(parts[0])
    case None => Malformed
    case Some(t) =>
      match parseFloat(parts[1])
      case None => Malformed
      case Some(lat) =>
        match parseFloat(parts[2])
        case None => Malformed
        case Some(lon) =>
          if |parts| == 3 then IndexError
          else
            var fields := [OptionalField(parts, 3, parseFloat), OptionalField(parts, 4, parseFloat),
                           OptionalField(parts, 5, parseFloat), OptionalField(parts, 6, parseFloat),
                           OptionalField(parts, 7, parseFloat)];
            assert forall i :: 3 <= i < 8 ==> (FieldOk(parts, i, parseFloat) <==> !fields[i - 3].Unparsable?);
            assert forall i :: 3 <= i < 8 ==> FieldValue(fields[i - 3]) == ColumnValue(parts, i, parseFloat)
                                              || fields[i - 3].Unparsable?;
            if exists k :: 0 <= k < 5 && fields[k].Unparsable? then
              var k :| 0 <= k < 5 && fields[k].Unparsable?;
              assert !FieldOk(parts, k + 3, parseFloat);
              Malformed
            else
              Parsed(Coordinate(t, lat, lon, FieldValue(fields[0]), FieldValue(fields[1]),
                                FieldValue(fields[2]), FieldValue(fields[3]), FieldValue(fields[4])))
  }

  /** The line (after stripping) is a header candidate. */
  predicate IsHeaderLine(raw: string) {
    StartsWith(Strip(raw), "timestamp")
  }

  /** One iteration of the loop of main.py:179-206, with the `header_found` flag. */
  function ParseLine<F>(raw: string, headerFound: bool,
                        parseInt: string -> Option<int>, parseFloat: string -> Option<F>): LineResult<F>
  {
    var line := Strip(raw);
    if StartsWith(line, "#") || line == "" then Ignored
    else if StartsWith(line, "timestamp") && !headerFound then Header
    else
      var parts := Split(line, '\t');
      if |parts| >= 3 then BuildCoordinate(parts, parseInt, parseFloat) else TooFewFields
  }

  function Prepend<F>(cs: seq<Coordinate<F>>, rest: Option<seq<Coordinate<F>>>): Option<seq<Coordinate<F>>> {
    match rest
    case Some(r) => Some(cs + r)
    case None => None
  }

  /** The loop from a given `header_found` state; `None` when an IndexError escaped it. */
  function ParseLines<F>(lines: seq<string>, headerFound: bool,
                         parseInt: string -> Option<int>, parseFloat: string -> Option<F>)
    : Option<seq<Coordinate<F>>>
  {
    if lines == [] then Some([])
    else
      match ParseLine(lines[0], headerFound, parseInt, parseFloat)
      case IndexError => None
      case Header => ParseLines(lines[1..], true, parseInt, parseFloat)
      case Parsed(c) => Prepend([c], ParseLines(lines[1..], headerFound, parseInt, parseFloat))
      case _ => ParseLines(lines[1..], headerFound, parseInt, parseFloat)
  }

  /** What `load_track_data` returns for the file's lines (`None`: opening or reading raised). */
  function LoadResult<F>(content: Option<seq<string>>,
                         parseInt: string -> Option<int>, parseFloat: string -> Option<F>)
    : seq<Coordinate<F>>
  {
    match content
    case None => []
    case Some(lines) =>
      match ParseLines(lines, false, parseInt, parseFloat)
      case Some(cs) => cs
      case None => []
  }

  /** `load_track_data` (main.py:169-212). */
  method LoadTrackData<F>(content: Option<seq<string>>,
                          parseInt: string -> Option<int>, parseFloat: string -> Option<F>)
    returns (coordinates: seq<Coordinate<F>>)
    ensures coordinates == LoadResult(content, parseInt, parseFloat)
  {
    coordinates := [];
    if content.None? {
      return [];
    }
    var lines := content.value;
    var headerFound := false;
    assert lines[0..] == lines;
    PrependNil(ParseLines(lines, false, parseInt, parseFloat));
    for i := 0 to |lines|
      invariant ParseLines(lines, false, parseInt, parseFloat)
                == Prepend(coordinates, ParseLines(lines[i..], headerFound, parseInt, parseFloat))
    {
      ParseLinesStep(lines, i, headerFound, parseInt, parseFloat);
      ghost var rest := ParseLines(lines[i + 1..], headerFound, parseInt, parseFloat);
      var line := Strip(lines[i]);
      if StartsWith(line, "#") || line == "" {
        assert ParseLine(lines[i], headerFound, parseInt, parseFloat) == Ignored;
        continue;
      }
      if StartsWith(line, "timestamp") && !headerFound {
        assert ParseLine(lines[i], headerFound, parseInt, parseFloat) == Header;
        headerFound := true;
        continue;
      }
      var parts := Split(line, '\t');
      if |parts| >= 3 {
        var outcome := BuildCoordinate(parts, parseInt, parseFloat);
        assert ParseLine(lines[i], headerFound, parseInt, parseFloat) == outcome;
        match outcome
        case IndexError =>
          return [];
        case Parsed(c) =>
          PrependAssoc(coordinates, [c], rest);
          coordinates := coordinates + [c];
        case _ =>
      } else {
        assert ParseLine(lines[i], headerFound, parseInt, parseFloat) == TooFewFields;
      }
    }
    assert lines[|lines|..] == [];
    assert coordinates + [] == coordinates;
  }

  /** One unfolding of `ParseLines` at position `i`. */
  lemma ParseLinesStep<F>(lines: seq<string>, i: nat, headerFound: bool,
                          parseInt: string -> Option<int>, parseFloat: string -> Option<F>)
    requires i < |lines|
    ensures ParseLines(lines[i..], headerFound, parseInt, parseFloat)
            == match ParseLine(lines[i], headerFound, parseInt, parseFloat)
               case IndexError => None
               case Header => ParseLines(lines[i + 1..], true, parseInt, parseFloat)
               case Parsed(c) => Prepend([c], ParseLines(lines[i + 1..], headerFound, parseInt, parseFloat))
               case _ => ParseLines(lines[i + 1..], headerFound, parseInt, parseFloat)
  {
    assert lines[i..][0] == lines[i];
    assert lines[i..][1..] == lines[i + 1..];
  }

  lemma PrependNil<F>(rest: Option<seq<Coordinate<F>>>)
    ensures Prepend([], rest) == rest
  {
    if rest.Some? {
      assert [] + rest.value == rest.value;
    }
  }

  lemma PrependAssoc<F>(a: seq<Coordinate<F>>, b: seq<Coordinate<F>>, rest: Option<seq<Coordinate<F>>>)
    ensures Prepend(a, Prepend(b, rest)) == Prepend(a + b, rest)
  {
    if rest.Some? {
      assert a + (b + rest.value) == (a + b) + rest.value;
    }
  }

  // ---------------------------------------------------------------------
  // Reference reading of the loop: drop the first header line, then treat
  // every other line on its own.

  /** `s` without its first element satisfying `p`. */
  function RemoveFirst<T>(s: seq<T>, p: T -> bool): seq<T> {
    if s == [] then []
    else if p(s[0]) then s[1..]
    else [s[0]] + RemoveFirst(s[1..], p)
  }

  /** The lines without the first header candidate; later `timestamp` lines stay, as data. */
  function WithoutHeader(lines: seq<string>): seq<string> {
    RemoveFirst(lines, IsHeaderLine)
  }

  lemma {:induction false} RemoveFirstNone<T>(s: seq<T>, p: T -> bool)
    requires forall j :: 0 <= j < |s| ==> !p(s[j])
    ensures RemoveFirst(s, p) == s
  {
    if s != [] {
      assert forall j :: 0 <= j < |s[1..]| ==> s[1..][j] == s[j + 1];
      RemoveFirstNone(s[1..], p);
      assert s == [s[0]] + s[1..];
    }
  }

  lemma {:induction false} RemoveFirstAt<T>(s: seq<T>, p: T -> bool, k: nat)
    requires k < |s| && p(s[k])
    requires forall j :: 0 <= j < k ==> !p(s[j])
    ensures RemoveFirst(s, p) == s[..k] + s[k + 1..]
  {
    if k == 0 {
      assert s[..0] + s[1..] == s[1..];
    } else {
      var rest := s[1..];
      assert !p(s[0]);
      assert RemoveFirst(s, p) == [s[0]] + RemoveFirst(rest, p);
      forall j | 0 <= j < k - 1 ensures !p(rest[j]) {
        assert rest[j] == s[j + 1];
      }
      RemoveFirstAt(rest, p, k - 1);
      assert rest[..k - 1] + rest[k..] == s[1..k] + s[k + 1..];
      assert [s[0]] + (s[1..k] + s[k + 1..]) == s[..k] + s[k + 1..];
    }
  }

  /**
   * Exactly the first header candidate is removed, later ones stay as data;
   * with no header candidate nothing is removed.
   */
  lemma WithoutHeaderRemovesFirst(lines: seq<string>, k: nat)
    requires k <= |lines|
    requires forall j :: 0 <= j < k ==> !IsHeaderLine(lines[j])
    ensures k < |lines| && IsHeaderLine(lines[k]) ==> WithoutHeader(lines) == lines[..k] + lines[k + 1..]
    ensures k == |lines| ==> WithoutHeader(lines) == lines
  {
    if k < |lines| && IsHeaderLine(lines[k]) {
      RemoveFirstAt(lines, IsHeaderLine, k);
    }
    if k == |lines| {
      RemoveFirstNone(lines, IsHeaderLine);
    }
  }

  /** A line as a data line, once the header has been seen. */
  function DataResult<F>(raw: string, parseInt: string -> Option<int>, parseFloat: string -> Option<F>)
    : LineResult<F>
  {
    ParseLine(raw, true, parseInt, parseFloat)
  }

  /** What each line gives as a data line, position by position. */
  function Results<F>(ls: seq<string>, parseInt: string -> Option<int>, parseFloat: string -> Option<F>)
    : (rs: seq<LineResult<F>>)
    ensures |rs| == |ls|
    ensures forall i :: 0 <= i < |ls| ==> rs[i] == DataResult(ls[i], parseInt, parseFloat)
  {
    MapSeq((raw: string) => DataResult(raw, parseInt, parseFloat), ls)
  }

  /** The loop with the flag set, read over the per-line outcomes. */
  function Collect<F>(rs: seq<LineResult<F>>): Option<seq<Coordinate<F>>> {
    if rs == [] then Some([])
    else
      match rs[0]
      case IndexError => None
      case Parsed(c) => Prepend([c], Collect(rs[1..]))
      case _ => Collect(rs[1..])
  }

  /** The parsed coordinates among the outcomes, in order. */
  function CoordsOf<F>(rs: seq<LineResult<F>>): seq<Coordinate<F>> {
    if rs == [] then []
    else (if rs[0].Parsed? then [rs[0].coordinate] else []) + CoordsOf(rs[1..])
  }

  predicate AbortsIn<F>(rs: seq<LineResult<F>>) {
    exists i :: 0 <= i < |rs| && rs[i].IndexError?
  }

  /** Reference: the coordinates of the accepted data lines, in file order. */
  function Coordinates<F>(ls: seq<string>, parseInt: string -> Option<int>, parseFloat: string -> Option<F>)
    : seq<Coordinate<F>>
  {
    CoordsOf(Results(ls, parseInt, parseFloat))
  }

  /** Some data line raises the IndexError of main.py:196. */
  predicate Aborts<F>(ls: seq<string>, parseInt: string -> Option<int>, parseFloat: string -> Option<F>) {
    exists i :: 0 <= i < |ls| && DataResult(ls[i], parseInt, parseFloat).IndexError?
  }

  lemma AbortsInCons<F>(rs: seq<LineResult<F>>)
    requires rs != []
    ensures AbortsIn(rs) <==> rs[0].IndexError? || AbortsIn(rs[1..])
  {
    if AbortsIn(rs[1..]) {
      var i :| 0 <= i < |rs[1..]| && rs[1..][i].IndexError?;
      assert rs[i + 1] == rs[1..][i];
    }
    if AbortsIn(rs) {
      var i :| 0 <= i < |rs| && rs[i].IndexError?;
      if i > 0 {
        assert rs[1..][i - 1] == rs[i];
      }
    }
  }

  /** Over the outcomes: no outcome at all if one aborts, else exactly the parsed ones. */
  lemma {:induction false} CollectIsCoords<F>(rs: seq<LineResult<F>>)
    ensures Collect(rs) == if AbortsIn(rs) then None else Some(CoordsOf(rs))
  {
    if rs != [] {
      CollectIsCoords(rs[1..]);
      AbortsInCons(rs);
      if rs[0].Parsed? {
        assert Collect(rs) == Prepend([rs[0].coordinate], Collect(rs[1..]));
      } else {
        assert [] + CoordsOf(rs[1..]) == CoordsOf(rs[1..]);
      }
    }
  }

  lemma ResultsTail<F>(ls: seq<string>, parseInt: string -> Option<int>, parseFloat: string -> Option<F>)
    requires ls != []
    ensures Results(ls, parseInt, parseFloat)[1..] == Results(ls[1..], parseInt, parseFloat)
  {
    assert ls == [ls[0]] + ls[1..];
    MapSeqAppend((raw: string) => DataResult(raw, parseInt, parseFloat), [ls[0]], ls[1..]);
  }

  /** The flag-set loop over lines is `Collect` over their outcomes. */
  lemma {:induction false} ParseLinesIsCollect<F>(ls: seq<string>,
                                                   parseInt: string -> Option<int>, parseFloat: string -> Option<F>)
    ensures ParseLines(ls, true, parseInt, parseFloat) == Collect(Results(ls, parseInt, parseFloat))
  {
    if ls != [] {
      var rs := Results(ls, parseInt, parseFloat);
      ResultsTail(ls, parseInt, parseFloat);
      ParseLinesIsCollect(ls[1..], parseInt, parseFloat);
      assert rs[0] == ParseLine(ls[0], true, parseInt, parseFloat);
    }
  }

  /** Once the header is seen, the loop aborts iff some line does, and otherwise keeps every parsed line in order. */
  lemma ParseLinesAfterHeader<F>(ls: seq<string>, parseInt: string -> Option<int>, parseFloat: string -> Option<F>)
    ensures ParseLines(ls, true, parseInt, parseFloat)
            == if Aborts(ls, parseInt, parseFloat) then None else Some(Coordinates(ls, parseInt, parseFloat))
  {
    var rs := Results(ls, parseInt, parseFloat);
    ParseLinesIsCollect(ls, parseInt, parseFloat);
    CollectIsCoords(rs);
    assert AbortsIn(rs) <==> Aborts(ls, parseInt, parseFloat) by {
      if AbortsIn(rs) {
        var i :| 0 <= i < |rs| && rs[i].IndexError?;
        assert DataResult(ls[i], parseInt, parseFloat).IndexError?;
      }
    }
  }

  /** A line that is not a header candidate is treated the same with the flag set or not. */
  lemma NotHeaderSameResult<F>(raw: string, parseInt: string -> Option<int>, parseFloat: string -> Option<F>)
    requires !IsHeaderLine(raw)
    ensures ParseLine(raw, false, parseInt, parseFloat) == ParseLine(raw, true, parseInt, parseFloat)
  {
  }

  /** Before the header is seen, the loop behaves as the flag-set loop over the lines without the header. */
  lemma {:induction false} ParseLinesBeforeHeader<F>(lines: seq<string>,
                                                      parseInt: string -> Option<int>, parseFloat: string -> Option<F>)
    ensures ParseLines(lines, false, parseInt, parseFloat)
            == ParseLines(WithoutHeader(lines), true, parseInt, parseFloat)
  {
    if lines != [] {
      var rest := lines[1..];
      if IsHeaderLine(lines[0]) {
        assert ParseLine(lines[0], false, parseInt, parseFloat) == Header;
        assert WithoutHeader(lines) == rest;
      } else {
        NotHeaderSameResult(lines[0], parseInt, parseFloat);
        ParseLinesBeforeHeader(rest, parseInt, parseFloat);
        var w := [lines[0]] + WithoutHeader(rest);
        assert WithoutHeader(lines) == w;
        assert w[0] == lines[0] && w[1..] == WithoutHeader(rest);
        ParseLinesCons(lines, false, parseInt, parseFloat);
        ParseLinesCons(w, true, parseInt, parseFloat);
      }
    }
  }

  /** One unfolding of `ParseLines` on a line that is not the header. */
  lemma ParseLinesCons<F>(ls: seq<string>, headerFound: bool,
                          parseInt: string -> Option<int>, parseFloat: string -> Option<F>)
    requires ls != [] && !ParseLine(ls[0], headerFound, parseInt, parseFloat).Header?
    ensures var r := ParseLine(ls[0], headerFound, parseInt, parseFloat);
            var tail := ParseLines(ls[1..], headerFound, parseInt, parseFloat);
            ParseLines(ls, headerFound, parseInt, parseFloat)
            == if r.IndexError? then None else if r.Parsed? then Prepend([r.coordinate], tail) else tail
  {
  }

  /**
   * `load_track_data` on a readable file: the first header line is dropped;
   * if any other line has exactly three fields whose first three parse, the
   * whole result is `[]`; otherwise it is the coordinates of the accepted
   * lines in file order, malformed lines skipped.
   */
  lemma LoadReference<F>(lines: seq<string>, parseInt: string -> Option<int>, parseFloat: string -> Option<F>)
    ensures var ls := WithoutHeader(lines);
            LoadResult(Some(lines), parseInt, parseFloat)
            == if Aborts(ls, parseInt, parseFloat) then [] else Coordinates(ls, parseInt, parseFloat)
  {
    ParseLinesBeforeHeader(lines, parseInt, parseFloat);
    ParseLinesAfterHeader(WithoutHeader(lines), parseInt, parseFloat);
  }

  lemma {:induction false} CoordsOfAppend<F>(a: seq<LineResult<F>>, b: seq<LineResult<F>>)
    ensures CoordsOf(a + b) == CoordsOf(a) + CoordsOf(b)
  {
    if a == [] {
      assert a + b == b;
    } else {
      assert (a + b)[0] == a[0];
      assert (a + b)[1..] == a[1..] + b;
      CoordsOfAppend(a[1..], b);
    }
  }

  /** File order: the coordinates of two runs of lines are those of the first followed by those of the second. */
  lemma CoordinatesAppend<F>(a: seq<string>, b: seq<string>,
                             parseInt: string -> Option<int>, parseFloat: string -> Option<F>)
    ensures Coordinates(a + b, parseInt, parseFloat)
            == Coordinates(a, parseInt, parseFloat) + Coordinates(b, parseInt, parseFloat)
  {
    var ra, rb := Results(a, parseInt, parseFloat), Results(b, parseInt, parseFloat);
    MapSeqAppend((raw: string) => DataResult(raw, parseInt, parseFloat), a, b);
    CoordsOfAppend(ra, rb);
  }

  lemma {:induction false} CoordsOfMembers<F>(rs: seq<LineResult<F>>, c: Coordinate<F>)
    ensures c in CoordsOf(rs) <==> exists i :: 0 <= i < |rs| && rs[i] == Parsed(c)
  {
    if rs != [] {
      var rest := rs[1..];
      CoordsOfMembers(rest, c);
      if c in CoordsOf(rs) && rs[0] != Parsed(c) {
        var i :| 0 <= i < |rest| && rest[i] == Parsed(c);
        assert rs[i + 1] == rest[i];
      }
      if exists i :: 0 <= i < |rs| && rs[i] == Parsed(c) {
        var i :| 0 <= i < |rs| && rs[i] == Parsed(c);
        if i > 0 {
          assert rest[i - 1] == rs[i];
        }
      }
    }
  }

  /** A coordinate is produced exactly when some data line parses to it. */
  lemma CoordinatesMembers<F>(ls: seq<string>, c: Coordinate<F>,
                              parseInt: string -> Option<int>, parseFloat: string -> Option<F>)
    ensures c in Coordinates(ls, parseInt, parseFloat)
            <==> exists i :: 0 <= i < |ls| && DataResult(ls[i], parseInt, parseFloat) == Parsed(c)
  {
    var rs := Results(ls, parseInt, parseFloat);
    CoordsOfMembers(rs, c);
    if exists i :: 0 <= i < |ls| && DataResult(ls[i], parseInt, parseFloat) == Parsed(c) {
      var i :| 0 <= i < |ls| && DataResult(ls[i], parseInt, parseFloat) == Parsed(c);
      assert rs[i] == Parsed(c);
    }
  }

  /**
   * The aborting lines: not a comment or blank after stripping, exactly
   * three tab fields, and int/float/float all parse. This covers lines
   * whose trailing empty columns were tabs removed by `strip()`.
   */
  lemma AbortingLine<F>(raw: string, parseInt: string -> Option<int>, parseFloat: string -> Option<F>)
    ensures var line := Strip(raw);
            var parts := Split(line, '\t');
            DataResult(raw, parseInt, parseFloat).IndexError?
            <==> !(StartsWith(line, "#") || line == "") && |parts| == 3 && RequiredParse(parts, parseInt, parseFloat)
  {
  }

  /**
   * A data line whose optional columns are only empty tabs (`w` is the
   * whitespace tail: tabs, newline) loses them to `strip()`: it has three
   * fields, and when they parse it raises the IndexError.
   */
  lemma TrailingTabsAbort<F>(a: string, b: string, c: string, w: string,
                             parseInt: string -> Option<int>, parseFloat: string -> Option<F>)
    requires '\t' !in a && '\t' !in b && '\t' !in c
    requires |a| > 0 && !IsSpace(a[0]) && a[0] != '#'
    requires |c| > 0 && !IsSpace(c[|c| - 1])
    requires forall i :: 0 <= i < |w| ==> IsSpace(w[i])
    requires parseInt(a).Some? && parseFloat(b).Some? && parseFloat(c).Some?
    ensures DataResult(a + "\t" + b + "\t" + c + w, parseInt, parseFloat).IndexError?
  {
    var line := a + "\t" + b + "\t" + c;
    var parts := [a, b, c];
    assert line[0] == a[0] && line[|line| - 1] == c[|c| - 1];
    StripTrailing(line, w);
    assert Join(parts, '\t') == line by {
      assert parts[1..] == [b, c] && parts[1..][1..] == [c];
      assert Join([c], '\t') == c;
      assert Join([b, c], '\t') == b + ['\t'] + c;
      assert Join(parts, '\t') == a + ['\t'] + (b + ['\t'] + c);
    }
    SplitJoin(parts, '\t');
    NotStartsWithChar(line, "#");
    assert RequiredParse(parts, parseInt, parseFloat);
    AbortsWhen(a + "\t" + b + "\t" + c + w, line, parts, parseInt, parseFloat);
  }

  lemma AbortsWhen<F>(raw: string, line: string, parts: seq<string>,
                      parseInt: string -> Option<int>, parseFloat: string -> Option<F>)
    requires Strip(raw) == line && Split(line, '\t') == parts && |parts| == 3
    requires !StartsWith(line, "#") && line != ""
    requires RequiredParse(parts, parseInt, parseFloat)
    ensures DataResult(raw, parseInt, parseFloat).IndexError?
  {
  }
}
