/**
 * The temporal matcher: the videos whose recording span overlaps a track's
 * span, in chronological order.
 */
module TemporalMatcher {
  import opened Optional
  import opened StableSort
  import opened VideoCatalog

  function Max(a: real, b: real): real {
    if a >= b then a else b
  }

  function Min(a: real, b: real): real {
    if a <= b then a else b
  }

  /** The test of main.py:296-310: an end time is known and `max(starts) < min(ends)`. */
  predicate Overlaps(trackStart: int, trackEnd: int, v: Video) {
    && v.endTime.Some?
    && Max(trackStart as real, v.timestamp as real) < Min(trackEnd as real, v.endTime.value)
  }

  /**
   * The max/min test is the crossing test: both spans are non-empty and each
   * starts before the other ends.
   */
  lemma OverlapsCrossing(trackStart: int, trackEnd: int, v: Video)
    requires v.endTime.Some?
    ensures Overlaps(trackStart, trackEnd, v)
            <==> && trackStart < trackEnd && v.timestamp as real < v.endTime.value
                 && (trackStart as real) < v.endTime.value && v.timestamp < trackEnd
  {
  }

  /** `t` lies in the half-open interval `[lo, hi)`. */
  predicate InSpan(t: real, lo: real, hi: real) {
    lo <= t < hi
  }

  /** Instant `t` lies in both the track's span and the video's. */
  predicate InBoth(t: real, trackStart: int, trackEnd: int, v: Video)
    requires v.endTime.Some?
  {
    InSpan(t, trackStart as real, trackEnd as real) && InSpan(t, v.timestamp as real, v.endTime.value)
  }

  /**
   * The max/min test is exactly "the half-open spans share an instant":
   * touching spans (one ends where the other starts) do not overlap.
   */
  lemma OverlapMeansSharedInstant(trackStart: int, trackEnd: int, v: Video)
    requires v.endTime.Some?
    ensures Overlaps(trackStart, trackEnd, v)
            <==> exists t :: InBoth(t, trackStart, trackEnd, v)
  {
    var lo := Max(trackStart as real, v.timestamp as real);
    if Overlaps(trackStart, trackEnd, v) {
      assert InBoth(lo, trackStart, trackEnd, v);
    }
  }

  /** The videos the loop appends, in input order. */
  function Related(trackStart: int, trackEnd: int, videos: seq<Video>): seq<Video>
    decreases |videos|
  {
    if videos == [] then []
    else
      var v := videos[|videos| - 1];
      Related(trackStart, trackEnd, videos[..|videos| - 1])
      + (if Overlaps(trackStart, trackEnd, v) then [v] else [])
  }

  /**
   * Exactly the qualifying videos, each as often as in the input: nothing is
   * added, duplicated or dropped.
   */
  lemma {:induction false} RelatedCounts(trackStart: int, trackEnd: int, videos: seq<Video>, v: Video)
    ensures multiset(Related(trackStart, trackEnd, videos))[v]
            == if Overlaps(trackStart, trackEnd, v) then multiset(videos)[v] else 0
  {
    if videos != [] {
      var init := videos[..|videos| - 1];
      var last := videos[|videos| - 1];
      assert videos == init + [last];
      RelatedCounts(trackStart, trackEnd, init, v);
      assert multiset(videos) == multiset(init) + multiset{last};
    }
  }

  /** Sort key for `sort(key=timestamp)`. */
  function StartKey(v: Video): int {
    v.timestamp
  }

  /** `find_all_related_videos` (main.py:278-315). */
  method FindAllRelatedVideos(trackStart: int, trackEnd: int, videos: seq<Video>)
    returns (related: seq<Video>)
    ensures related == SortBy(Related(trackStart, trackEnd, videos), StartKey)
    ensures forall v :: v in related <==> v in videos && Overlaps(trackStart, trackEnd, v)
    ensures forall v :: multiset(related)[v] == if Overlaps(trackStart, trackEnd, v) then multiset(videos)[v] else 0
    ensures forall i, j :: 0 <= i < j < |related| ==> related[i].timestamp <= related[j].timestamp
    ensures forall k :: WithKey(related, StartKey, k) == WithKey(Related(trackStart, trackEnd, videos), StartKey, k)
  {
    if videos == [] {
      return [];
    }
    var found: seq<Video> := [];
    for i := 0 to |videos|
      invariant found == Related(trackStart, trackEnd, videos[..i])
    {
      var video := videos[i];
      RelatedSnoc(trackStart, trackEnd, videos[..i], video);
      assert videos[..i + 1] == videos[..i] + [video];
      var videoStart := video.timestamp;
      var videoEnd := video.endTime;
      if videoEnd.None? {
        continue;
      }
      var overlapStart := Max(trackStart as real, videoStart as real);
      var overlapEnd := Min(trackEnd as real, videoEnd.value);
      if overlapStart < overlapEnd {
        found := found + [video];
      }
    }
    assert videos[..|videos|] == videos;
    related := SortBy(found, StartKey);
    SortedRelated(trackStart, trackEnd, videos);
  }

  /** What sorting the qualifying videos yields: exactly them, by start, stably. */
  lemma SortedRelated(trackStart: int, trackEnd: int, videos: seq<Video>)
    ensures var related := SortBy(Related(trackStart, trackEnd, videos), StartKey);
            && (forall v :: v in related <==> v in videos && Overlaps(trackStart, trackEnd, v))
            && (forall v :: multiset(related)[v] == if Overlaps(trackStart, trackEnd, v) then multiset(videos)[v] else 0)
            && (forall i, j :: 0 <= i < j < |related| ==> related[i].timestamp <= related[j].timestamp)
            && (forall k :: WithKey(related, StartKey, k) == WithKey(Related(trackStart, trackEnd, videos), StartKey, k))
  {
    var found := Related(trackStart, trackEnd, videos);
    var related := SortBy(found, StartKey);
    assert SortedBy(related, StartKey);
    forall v ensures multiset(related)[v] == if Overlaps(trackStart, trackEnd, v) then multiset(videos)[v] else 0 {
      RelatedCounts(trackStart, trackEnd, videos, v);
    }
    forall v ensures v in related <==> v in videos && Overlaps(trackStart, trackEnd, v) {
      assert v in related <==> multiset(related)[v] > 0;
      assert v in videos <==> multiset(videos)[v] > 0;
    }
    forall k ensures WithKey(related, StartKey, k) == WithKey(found, StartKey, k) {
      SortByStable(found, StartKey, k);
    }
  }

  /** One step of the filter: the next video is appended exactly when it qualifies. */
  lemma RelatedSnoc(trackStart: int, trackEnd: int, videos: seq<Video>, v: Video)
    ensures Related(trackStart, trackEnd, videos + [v])
            == Related(trackStart, trackEnd, videos) + (if Overlaps(trackStart, trackEnd, v) then [v] else [])
  {
    assert (videos + [v])[..|videos|] == videos;
  }

  /** Sorting two videos by start puts the earlier one first. */
  lemma SortTwo(b: Video, a: Video)
    requires a.timestamp < b.timestamp
    ensures SortBy([b, a], StartKey) == [a, b]
  {
    assert [b, a][1..] == [a];
  }

  /**
   * A track recorded from 1000 to 2000: a video that starts before it and
   * runs into it, one inside it, one after it and one without a known
   * length.  The first two are kept, in start order, whatever the input order.
   */
  lemma {:induction false} MatchScenario(d: string, k: string)
    ensures var before := Video("900.mp4", 900, 1, d, k, Some(150.0), Some(1050.0));
            var inside := Video("1500.mp4", 1500, 1, d, k, Some(100.0), Some(1600.0));
            var after := Video("2100.mp4", 2100, 1, d, k, Some(100.0), Some(2200.0));
            var unknown := Video("1800.mp4", 1800, 1, d, k, None, None);
            SortBy(Related(1000, 2000, [after, unknown, inside, before]), StartKey) == [before, inside]
  {
    var before := Video("900.mp4", 900, 1, d, k, Some(150.0), Some(1050.0));
    var inside := Video("1500.mp4", 1500, 1, d, k, Some(100.0), Some(1600.0));
    var after := Video("2100.mp4", 2100, 1, d, k, Some(100.0), Some(2200.0));
    var unknown := Video("1800.mp4", 1800, 1, d, k, None, None);
    assert !Overlaps(1000, 2000, after) && !Overlaps(1000, 2000, unknown);
    assert Overlaps(1000, 2000, inside) && Overlaps(1000, 2000, before);
    RelatedSnoc(1000, 2000, [], after);
    assert [] + [after] == [after];
    RelatedSnoc(1000, 2000, [after], unknown);
    assert [after] + [unknown] == [after, unknown];
    RelatedSnoc(1000, 2000, [after, unknown], inside);
    assert [after, unknown] + [inside] == [after, unknown, inside];
    RelatedSnoc(1000, 2000, [after, unknown, inside], before);
    assert [after, unknown, inside] + [before] == [after, unknown, inside, before];
    assert Related(1000, 2000, [after, unknown, inside, before]) == [inside, before];
    SortTwo(inside, before);
  }
}
