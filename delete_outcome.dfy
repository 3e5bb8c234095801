/**
 * The outcome of deleting a track: once the track file is handled and the
 * overlapping videos have been removed or have failed to be removed, the
 * counts decide the response flags and the message shown to the user.
 */
module DeleteOutcome {
  import opened PyStr

  datatype DeleteResponse = DeleteResponse(success: bool, trackDeleted: bool, videoDeleted: bool, message: string)

  const Lead: string := "Track deleted successfully"

  /** Rest of the message when every video removal failed. */
  function AllFailedTail(failed: nat): string {
    ", but failed to delete " + (NatStr(failed) + " corresponding video file(s)")
  }

  /** Rest of the message when some removals succeeded and some failed. */
  function SomeFailedTail(deleted: nat, failed: nat): string {
    " along with " + (NatStr(deleted) + (" video(s), but failed to delete " + (NatStr(failed) + " video file(s)")))
  }

  /** Rest of the message when at least one video was removed and none failed. */
  function AllDeletedTail(deleted: nat): string {
    " along with " + (NatStr(deleted) + " corresponding video(s)")
  }

  const NoneFoundTail: string := " (no corresponding videos found)"

  /**
   * The partial-failure branching of `delete_track` (main.py:478-507).  A
   * failure forces `track_deleted` to true whatever happened to the track
   * file; otherwise the flag reports whether the file existed and was removed.
   */
  function Classify(deleted: nat, failed: nat, trackDeleted: bool): (r: DeleteResponse)
    ensures r.success
    ensures r.videoDeleted <==> deleted > 0
    ensures r.trackDeleted <==> trackDeleted || failed > 0
    ensures StartsWith(r.message, Lead)
  {
    if failed > 0 && deleted == 0 then
      DeleteResponse(true, true, false, Lead + AllFailedTail(failed))
    else if failed > 0 then
      DeleteResponse(true, true, true, Lead + SomeFailedTail(deleted, failed))
    else
      var videoDeleted := deleted > 0;
      var message := if deleted > 0 then Lead + AllDeletedTail(deleted) else Lead + NoneFoundTail;
      DeleteResponse(true, trackDeleted, videoDeleted, message)
  }

  lemma CancelPrefix(a: string, x: string, y: string)
    requires a + x == a + y
    ensures x == y
  {
    assert x == (a + x)[|a|..];
    assert y == (a + y)[|a|..];
  }

  /** A run of digits followed by a non-digit can be split off in one way only. */
  lemma DigitsPrefix(p: string, x: string, q: string, y: string)
    requires AllDigits(p) && AllDigits(q)
    requires |x| > 0 && !IsDigit(x[0]) && |y| > 0 && !IsDigit(y[0])
    requires p + x == q + y
    ensures p == q && x == y
  {
    DigitRun(p, x);
    DigitRun(q, y);
    assert |p| == |q|;
    assert p == (p + x)[..|p|];
    assert q == (q + y)[..|q|];
    CancelPrefix(p, x, y);
  }

  /** In `p + x` the digits of `p` run exactly up to the start of `x`. */
  lemma DigitRun(p: string, x: string)
    requires AllDigits(p) && |x| > 0 && !IsDigit(x[0])
    ensures forall i :: 0 <= i < |p| ==> IsDigit((p + x)[i])
    ensures !IsDigit((p + x)[|p|])
  {
  }

  /** Distinct numbers print differently, even when followed by more text. */
  lemma NumberPrefix(m: nat, x: string, n: nat, y: string)
    requires |x| > 0 && !IsDigit(x[0]) && |y| > 0 && !IsDigit(y[0])
    requires NatStr(m) + x == NatStr(n) + y
    ensures m == n && x == y
  {
    DigitsPrefix(NatStr(m), x, NatStr(n), y);
  }

  lemma AllFailedTails(f1: nat, f2: nat)
    requires AllFailedTail(f1) == AllFailedTail(f2)
    ensures f1 == f2
  {
    CancelPrefix(", but failed to delete ", NatStr(f1) + " corresponding video file(s)", NatStr(f2) + " corresponding video file(s)");
    NumberPrefix(f1, " corresponding video file(s)", f2, " corresponding video file(s)");
  }

  lemma SomeFailedTails(d1: nat, f1: nat, d2: nat, f2: nat)
    requires SomeFailedTail(d1, f1) == SomeFailedTail(d2, f2)
    ensures d1 == d2 && f1 == f2
  {
    var mid := " video(s), but failed to delete ";
    var end := " video file(s)";
    CancelPrefix(" along with ", NatStr(d1) + (mid + (NatStr(f1) + end)), NatStr(d2) + (mid + (NatStr(f2) + end)));
    NumberPrefix(d1, mid + (NatStr(f1) + end), d2, mid + (NatStr(f2) + end));
    CancelPrefix(mid, NatStr(f1) + end, NatStr(f2) + end);
    NumberPrefix(f1, end, f2, end);
  }

  lemma AllDeletedTails(d1: nat, d2: nat)
    requires AllDeletedTail(d1) == AllDeletedTail(d2)
    ensures d1 == d2
  {
    CancelPrefix(" along with ", NatStr(d1) + " corresponding video(s)", NatStr(d2) + " corresponding video(s)");
    NumberPrefix(d1, " corresponding video(s)", d2, " corresponding video(s)");
  }

  lemma SomeFailedIsNotAllDeleted(d1: nat, f1: nat, d2: nat)
    ensures SomeFailedTail(d1, f1) != AllDeletedTail(d2)
  {
    var rest1 := " video(s), but failed to delete " + (NatStr(f1) + " video file(s)");
    var rest2 := " corresponding video(s)";
    if SomeFailedTail(d1, f1) == AllDeletedTail(d2) {
      CancelPrefix(" along with ", NatStr(d1) + rest1, NatStr(d2) + rest2);
      NumberPrefix(d1, rest1, d2, rest2);
      assert false;
    }
  }

  /** Which of the four messages a pair of counts selects. */
  function Kind(deleted: nat, failed: nat): nat {
    if failed > 0 && deleted == 0 then 0
    else if failed > 0 then 1
    else if deleted > 0 then 2
    else 3
  }

  function Tail(deleted: nat, failed: nat): string {
    match Kind(deleted, failed)
    case 0 => AllFailedTail(failed)
    case 1 => SomeFailedTail(deleted, failed)
    case 2 => AllDeletedTail(deleted)
    case _ => NoneFoundTail
  }

  lemma MessageIsLeadAndTail(deleted: nat, failed: nat, trackDeleted: bool)
    ensures Classify(deleted, failed, trackDeleted).message == Lead + Tail(deleted, failed)
  {
  }

  lemma {:induction false} TailsOfDifferentKind(d1: nat, f1: nat, d2: nat, f2: nat)
    requires Tail(d1, f1) == Tail(d2, f2)
    ensures Kind(d1, f1) == Kind(d2, f2)
  {
    var t := Tail(d1, f1);
    var k1, k2 := Kind(d1, f1), Kind(d2, f2);
    // The first character tells the all-failed message from the others,
    // the second tells the no-videos message from the two "along with" ones.
    assert k1 == 0 <==> t[0] == ',';
    assert k2 == 0 <==> t[0] == ',';
    assert k1 == 3 <==> t[0] == ' ' && t[1] == '(';
    assert k2 == 3 <==> t[0] == ' ' && t[1] == '(';
    if k1 == 1 && k2 == 2 {
      SomeFailedIsNotAllDeleted(d1, f1, d2);
    } else if k1 == 2 && k2 == 1 {
      SomeFailedIsNotAllDeleted(d2, f2, d1);
    }
  }

  /**
   * The message alone determines both counts: no two different outcomes of
   * the removal loop are reported with the same text.
   */
  lemma {:induction false} MessageDeterminesCounts(d1: nat, f1: nat, t1: bool, d2: nat, f2: nat, t2: bool)
    requires Classify(d1, f1, t1).message == Classify(d2, f2, t2).message
    ensures d1 == d2 && f1 == f2
  {
    MessageIsLeadAndTail(d1, f1, t1);
    MessageIsLeadAndTail(d2, f2, t2);
    CancelPrefix(Lead, Tail(d1, f1), Tail(d2, f2));
    TailsOfDifferentKind(d1, f1, d2, f2);
    match Kind(d1, f1)
    case 0 => AllFailedTails(f1, f2);
    case 1 => SomeFailedTails(d1, f1, d2, f2);
    case 2 => AllDeletedTails(d1, d2);
    case _ =>
  }

  /**
   * As written, the two failure branches report `track_deleted` as true
   * even when there was no track file to remove: a missing track file and
   * one video that could not be removed.
   */
  lemma MissingTrackReportedDeleted()
    ensures var r := Classify(0, 1, false); r.trackDeleted && !r.videoDeleted
  {
  }

  /**
   * The evidently intended classification: the flag reports whether the
   * track file was removed in every branch; flags for the videos and the
   * message are those of `Classify`.
   */
  function ClassifyIntended(deleted: nat, failed: nat, trackDeleted: bool): (r: DeleteResponse)
    ensures r.success
    ensures r.trackDeleted == trackDeleted
    ensures r.videoDeleted <==> deleted > 0
    ensures r.message == Classify(deleted, failed, trackDeleted).message
  {
    Classify(deleted, failed, trackDeleted).(trackDeleted := trackDeleted)
  }
}
