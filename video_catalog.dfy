/**
 * The video catalogue: one entry per recording named `<decimal timestamp>.mp4`
 * under `<domain>/<rtmpkey>/`, newest first.
 *
 * The directory walk is given as the list of files it reaches, in listing
 * order; `os.stat` raising is `size == None`; the media probe's answer is
 * `duration`; whether `datetime.fromtimestamp` accepts a timestamp is the
 * oracle `representable`.
 */
module VideoCatalog {
  import opened Optional
  import opened PyStr
  import opened Sequences
  import opened StableSort

  /** A file found at `<domain>/<rtmpkey>/<filename>`. */
  datatype VideoEntry = VideoEntry(domain: string, rtmpkey: string, filename: string,
                                   size: Option<int>, duration: Option<real>)

  /** A catalogued recording; `duration` and `endTime` are both present or both absent. */
  datatype Video = Video(name: string, timestamp: int, size: int, domain: string, rtmpkey: string,
                         duration: Option<real>, endTime: Option<real>)

  /** `<digits>.mp4`, with at least one ASCII digit. */
  predicate IsStampName(f: string) {
    |f| > 4 && EndsWith(f, ".mp4") && AllDigits(f[..|f| - 4])
  }

  /** `re.match(r'^(\d+)\.mp4$', f)`: `$` also matches just before a final newline. */
  predicate PatternMatches(f: string) {
    || IsStampName(f)
    || (|f| > 0 && f[|f| - 1] == '\n' && IsStampName(f[..|f| - 1]))
  }

  /** Together with `endswith('.mp4')`, the pattern accepts exactly the names `<digits>.mp4`. */
  lemma RecognisedNames(f: string)
    ensures (EndsWith(f, ".mp4") && PatternMatches(f)) <==> IsStampName(f)
  {
    assert EndsWith(f, ".mp4") ==> f[|f| - 1] == ".mp4"[3];
  }

  /** The digits before `.mp4`. */
  function Stem(f: string): string
    requires |f| >= 4
  {
    f[..|f| - 4]
  }

  /** One iteration of the innermost loop of `get_video_files` (main.py:123-163). */
  function Recognise(e: VideoEntry, representable: int -> bool): (r: Option<Video>)
    ensures r.Some? <==>
              IsStampName(e.filename) && e.size.Some? && representable(DecimalValue(Stem(e.filename)))
    ensures r.Some? ==>
              && r.value.timestamp == DecimalValue(Stem(e.filename))
              && r.value.domain == e.domain && r.value.rtmpkey == e.rtmpkey
              && r.value.size == e.size.value
              && r.value.name == e.domain + "/" + e.rtmpkey + "/" + e.filename
              && r.value.duration == e.duration
              && (r.value.endTime.Some? <==> e.duration.Some?)
              && (e.duration.Some? ==> r.value.endTime.value == r.value.timestamp as real + e.duration.value)
  {
    var f := e.filename;
    if !EndsWith(f, ".mp4") then None
    else if !PatternMatches(f) then None
    else
      RecognisedNames(f);
      var timestamp := DecimalValue(Stem(f));
      if e.size.None? then None                   // os.stat raised
      else if !representable(timestamp) then None  // datetime.fromtimestamp raised
      else
        var endTime := if e.duration.Some? then Some(timestamp as real + e.duration.value) else None;
        Some(Video(e.domain + "/" + e.rtmpkey + "/" + f, timestamp, e.size.value, e.domain, e.rtmpkey,
                   e.duration, endTime))
  }

  /** The list the walk appends to, in walk order. */
  function Recognised(entries: seq<VideoEntry>, representable: int -> bool): seq<Video> {
    FilterMap((e: VideoEntry) => Recognise(e, representable), entries)
  }

  /** A video is listed exactly when some file of the walk is recognised as it. */
  lemma RecognisedMembers(entries: seq<VideoEntry>, representable: int -> bool, v: Video)
    ensures v in Recognised(entries, representable)
            <==> exists i :: 0 <= i < |entries| && Recognise(entries[i], representable) == Some(v)
  {
    FilterMapMembers((e: VideoEntry) => Recognise(e, representable), entries, v);
  }

  /** Sort key for `sort(key=timestamp, reverse=True)`. */
  function NewestFirst(v: Video): int {
    -v.timestamp
  }

  /** `get_video_files` over the files the walk reaches (main.py:104-167). */
  method GetVideoFiles(entries: seq<VideoEntry>, representable: int -> bool) returns (videos: seq<Video>)
    ensures videos == SortBy(Recognised(entries, representable), NewestFirst)
    ensures multiset(videos) == multiset(Recognised(entries, representable))
    ensures forall i, j :: 0 <= i < j < |videos| ==> videos[i].timestamp >= videos[j].timestamp
  {
    var found: seq<Video> := [];
    for i := 0 to |entries|
      invariant found == Recognised(entries[..i], representable)
    {
      var e := entries[i];
      assert entries[..i + 1] == entries[..i] + [e];
      FilterMapSnoc((e: VideoEntry) => Recognise(e, representable), entries[..i], e);
      var filename := e.filename;
      if EndsWith(filename, ".mp4") {
        if PatternMatches(filename) {
          RecognisedNames(filename);
          var timestamp := DecimalValue(Stem(filename));
          if e.size.Some? && representable(timestamp) {
            var endTime: Option<real> := None;
            if e.duration.Some? {
              endTime := Some(timestamp as real + e.duration.value);
            }
            var video := Video(e.domain + "/" + e.rtmpkey + "/" + filename, timestamp, e.size.value,
                               e.domain, e.rtmpkey, e.duration, endTime);
            found := found + [video];
          }
        }
      }
    }
    assert entries[..|entries|] == entries;
    videos := SortBy(found, NewestFirst);
    assert SortedBy(videos, NewestFirst);
  }
}
