/**
 * get_playlist_info: resolving which positions of a playlist to fetch, and
 * the stream of events produced while fetching them one by one.
 */
module Playlist {
  import opened Wrappers
  import opened Decimal
  import opened Extraction

  const NoVideosMessage := "No videos found in the playlist."
  const FailurePrefix := "Failed to retrieve playlist information: "
  /** str() of the IndexError that videos[index - 1] raises */
  const IndexErrorText := "list index out of range"

  datatype Event =
    | Progress(message: string, current: nat, total: nat)
    | Complete(videos: seq<Video>)
    | Error(message: string)

  /** The integers from lo up to hi, one after another; empty when hi < lo. */
  function Interval(lo: int, hi: int): (r: seq<int>)
    ensures |r| == Max(hi - lo + 1, 0)
    ensures forall k :: 0 <= k < |r| ==> r[k] == lo + k
  {
    seq(Max(hi - lo + 1, 0), k => lo + k)
  }

  /** A run holds exactly the integers from lo to hi, each once, in increasing order. */
  lemma IntervalMembers(lo: int, hi: int)
    ensures forall x :: x in Interval(lo, hi) <==> lo <= x <= hi
    ensures forall j, k :: 0 <= j < k < |Interval(lo, hi)| ==> Interval(lo, hi)[j] < Interval(lo, hi)[k]
  {
    var r := Interval(lo, hi);
    forall x | lo <= x <= hi
      ensures x in r
    {
      assert r[x - lo] == x;
    }
  }

  /**
   * The positions get_playlist_info fetches, 1-based: a non-empty selection
   * verbatim; otherwise the whole playlist when a bound is missing, or the
   * bounds clamped to [1, total].
   */
  function ResolvePositions(total: nat, start: Option<int>, end: Option<int>, selected: seq<int>): (r: seq<int>)
    ensures selected != [] ==> r == selected
    ensures selected == [] && (start.None? || end.None?) ==>
      |r| == total && forall k :: 0 <= k < |r| ==> r[k] == k + 1
    ensures selected == [] && start.Some? && end.Some? ==>
      var lo := Max(1, start.value);
      var hi := Min(total, end.value);
      && |r| == Max(hi - lo + 1, 0)
      && forall k :: 0 <= k < |r| ==> r[k] == lo + k
    ensures selected == [] ==> forall k :: 0 <= k < |r| ==> 1 <= r[k] <= total
    ensures selected == [] ==> forall j, k :: 0 <= j < k < |r| ==> r[j] < r[k]
  {
    if selected != [] then selected
    else if start.None? || end.None? then Interval(1, total)
    else Interval(Max(1, start.value), Min(total, end.value))
  }

  /** How many leading positions the loop gets through before videos[index - 1] raises. */
  function ValidPrefix(count: nat, positions: seq<int>): (k: nat)
    ensures k <= |positions|
    ensures forall j :: 0 <= j < k ==> InRange(count, positions[j])
    ensures k < |positions| ==> !InRange(count, positions[k])
  {
    if positions == [] || !InRange(count, positions[0]) then 0
    else 1 + ValidPrefix(count, positions[1..])
  }

  /** Fetching the entry at one position, labelled with format_index(position, total_videos). */
  function Attempt(entries: seq<Entry>, fetch: Fetcher, index: int): (r: Option<Video>)
    ensures r.Some? <==> InRange(|entries|, index) && fetch(EntryAt(entries, index).value.url).Some?
    ensures r.Some? ==> r.value.index == FormatIndex(index, |entries|)
    ensures r.Some? ==> r.value == fetch(EntryAt(entries, index).value.url).value.(index := FormatIndex(index, |entries|))
  {
    match EntryAt(entries, index)
    case None => None
    case Some(entry) =>
      match fetch(entry.url)
      case None => None
      case Some(video) => Some(video.(index := FormatIndex(index, |entries|)))
  }

  /** A successful fetch: the loop counter i of enumerate(indices, 1), the position, the record. */
  datatype Hit = Hit(current: nat, position: int, video: Video)

  /** The successful fetches over a run of positions, in order; failed fetches are skipped. */
  function Harvest(entries: seq<Entry>, fetch: Fetcher, positions: seq<int>): (hits: seq<Hit>)
    ensures |hits| <= |positions|
  {
    if positions == [] then []
    else
      var n := |positions|;
      var earlier := Harvest(entries, fetch, positions[..n - 1]);
      match Attempt(entries, fetch, positions[n - 1])
      case None => earlier
      case Some(video) => earlier + [Hit(n, positions[n - 1], video)]
  }

  /** The progress event for one successful fetch. */
  function ProgressOf(hit: Hit, rangeTotal: nat, count: nat): Event {
    Progress("Retrieved video " + FormatIndex(hit.position, count) + "/" + Digits(count), hit.current, rangeTotal)
  }

  function ProgressEvents(hits: seq<Hit>, rangeTotal: nat, count: nat): seq<Event> {
    seq(|hits|, j requires 0 <= j < |hits| => ProgressOf(hits[j], rangeTotal, count))
  }

  function VideosOf(hits: seq<Hit>): seq<Video> {
    seq(|hits|, j requires 0 <= j < |hits| => hits[j].video)
  }

  /**
   * The events for a non-empty playlist: a progress event per successful
   * fetch, then the batch, or the IndexError's error event where a position
   * lies outside the playlist.
   */
  function Stream(entries: seq<Entry>, fetch: Fetcher, positions: seq<int>): seq<Event> {
    var k := ValidPrefix(|entries|, positions);
    var hits := Harvest(entries, fetch, positions[..k]);
    ProgressEvents(hits, |positions|, |entries|)
      + [if k == |positions| then Complete(VideosOf(hits)) else Error(FailurePrefix + IndexErrorText)]
  }

  /** Every hit is a successful fetch of the position its counter names. */
  predicate SoundHits(entries: seq<Entry>, fetch: Fetcher, positions: seq<int>, hits: seq<Hit>) {
    forall j :: 0 <= j < |hits| ==>
      && 1 <= hits[j].current <= |positions|
      && hits[j].position == positions[hits[j].current - 1]
      && Attempt(entries, fetch, hits[j].position) == Some(hits[j].video)
  }

  /** The loop counters of the hits strictly increase. */
  predicate Ascending(hits: seq<Hit>) {
    forall j, k :: 0 <= j < k < |hits| ==> hits[j].current < hits[k].current
  }

  lemma {:induction false} HarvestSound(entries: seq<Entry>, fetch: Fetcher, positions: seq<int>)
    ensures SoundHits(entries, fetch, positions, Harvest(entries, fetch, positions))
  {
    if positions != [] {
      var n := |positions|;
      var prefix := positions[..n - 1];
      HarvestSound(entries, fetch, prefix);
      var earlier := Harvest(entries, fetch, prefix);
      var hits := Harvest(entries, fetch, positions);
      forall j | 0 <= j < |earlier|
        ensures earlier[j].position == positions[earlier[j].current - 1]
      {
        assert prefix[earlier[j].current - 1] == positions[earlier[j].current - 1];
      }
      if Attempt(entries, fetch, positions[n - 1]).Some? {
        var hit := Hit(n, positions[n - 1], Attempt(entries, fetch, positions[n - 1]).value);
        assert hits == earlier + [hit];
        forall j | 0 <= j < |hits|
          ensures hits[j] == if j < |earlier| then earlier[j] else hit
        {
        }
      } else {
        assert hits == earlier;
      }
    }
  }

  lemma {:induction false} HarvestAscending(entries: seq<Entry>, fetch: Fetcher, positions: seq<int>)
    ensures Ascending(Harvest(entries, fetch, positions))
  {
    if positions != [] {
      var n := |positions|;
      var prefix := positions[..n - 1];
      HarvestSound(entries, fetch, prefix);
      HarvestAscending(entries, fetch, prefix);
      var earlier := Harvest(entries, fetch, prefix);
      var hits := Harvest(entries, fetch, positions);
      if Attempt(entries, fetch, positions[n - 1]).Some? {
        var hit := Hit(n, positions[n - 1], Attempt(entries, fetch, positions[n - 1]).value);
        assert hits == earlier + [hit];
        forall j, k | 0 <= j < k < |hits|
          ensures hits[j].current < hits[k].current
        {
          assert hits[j] == earlier[j];
          if k < |earlier| {
            assert hits[k] == earlier[k];
          }
        }
      } else {
        assert hits == earlier;
      }
    }
  }

  lemma HarvestStep(entries: seq<Entry>, fetch: Fetcher, positions: seq<int>, i: nat)
    requires i < |positions|
    ensures Harvest(entries, fetch, positions[..i + 1]) ==
      Harvest(entries, fetch, positions[..i])
        + match Attempt(entries, fetch, positions[i])
          case None => []
          case Some(video) => [Hit(i + 1, positions[i], video)]
  {
    assert positions[..i + 1][..i] == positions[..i];
  }

  lemma ExtendEvents(hits: seq<Hit>, hit: Hit, rangeTotal: nat, count: nat)
    ensures ProgressEvents(hits + [hit], rangeTotal, count) == ProgressEvents(hits, rangeTotal, count) + [ProgressOf(hit, rangeTotal, count)]
    ensures VideosOf(hits + [hit]) == VideosOf(hits) + [hit.video]
  {
  }

  /** The loop stops after i positions exactly when those are in range and the next is not. */
  lemma StopsAt(count: nat, positions: seq<int>, i: nat)
    requires i <= |positions|
    requires forall j :: 0 <= j < i ==> InRange(count, positions[j])
    requires i < |positions| ==> !InRange(count, positions[i])
    ensures ValidPrefix(count, positions) == i
  {
  }

  /** Everything get_playlist_info yields for one call. */
  function PlaylistStream(listing: Listing, start: Option<int>, end: Option<int>, selected: seq<int>, fetch: Fetcher): seq<Event> {
    match listing
    case Failure(detail) => [Error(FailurePrefix + detail)]
    case Success(entries) =>
      if |entries| == 0 then [Error(NoVideosMessage)]
      else Stream(entries, fetch, ResolvePositions(|entries|, start, end, selected))
  }

  /** A position yields a hit exactly when fetching it succeeds. */
  lemma {:induction false} HarvestKeepsEverySuccess(entries: seq<Entry>, fetch: Fetcher, positions: seq<int>, j: int)
    requires 0 <= j < |positions|
    ensures Attempt(entries, fetch, positions[j]).Some?
      <==> exists h :: h in Harvest(entries, fetch, positions) && h.current == j + 1
  {
    var n := |positions|;
    var hits := Harvest(entries, fetch, positions);
    var earlier := Harvest(entries, fetch, positions[..n - 1]);
    assert hits == earlier || hits == earlier + [Hit(n, positions[n - 1], Attempt(entries, fetch, positions[n - 1]).value)];
    HarvestSound(entries, fetch, positions[..n - 1]);
    if j == n - 1 {
      if Attempt(entries, fetch, positions[j]).Some? {
        assert hits[|hits| - 1].current == j + 1;
      }
    } else {
      assert positions[..n - 1][j] == positions[j];
      HarvestKeepsEverySuccess(entries, fetch, positions[..n - 1], j);
      if h :| h in hits && h.current == j + 1 {
        assert h in earlier;
      }
    }
  }

  /** When every fetch succeeds, the i-th hit is the i-th position. */
  lemma {:induction false} HarvestAllSucceed(entries: seq<Entry>, fetch: Fetcher, positions: seq<int>)
    requires forall k :: 0 <= k < |positions| ==> Attempt(entries, fetch, positions[k]).Some?
    ensures var hits := Harvest(entries, fetch, positions);
      && |hits| == |positions|
      && forall j :: 0 <= j < |hits| ==> hits[j].current == j + 1 && hits[j].position == positions[j]
  {
    if positions != [] {
      var prefix := positions[..|positions| - 1];
      forall k | 0 <= k < |prefix|
        ensures Attempt(entries, fetch, prefix[k]).Some?
      {
        assert prefix[k] == positions[k];
      }
      HarvestAllSucceed(entries, fetch, prefix);
      var earlier := Harvest(entries, fetch, prefix);
      var video := Attempt(entries, fetch, positions[|prefix|]).value;
      var hits := Harvest(entries, fetch, positions);
      assert hits == earlier + [Hit(|positions|, positions[|prefix|], video)];
      forall j | 0 <= j < |hits|
        ensures hits[j].current == j + 1 && hits[j].position == positions[j]
      {
        if j < |earlier| {
          assert hits[j] == earlier[j] && prefix[j] == positions[j];
        } else {
          assert j == |prefix|;
          assert hits[j] == Hit(|positions|, positions[|prefix|], video);
        }
      }
    }
  }

  /**
   * Every progress event counts loop iterations out of the resolved range, in
   * strictly increasing order, and names the position it fetched.
   */
  lemma StreamProgress(entries: seq<Entry>, fetch: Fetcher, positions: seq<int>)
    ensures var s := Stream(entries, fetch, positions);
      && (forall j :: 0 <= j < |s| - 1 ==>
            && s[j].Progress?
            && s[j].total == |positions|
            && 1 <= s[j].current <= ValidPrefix(|entries|, positions)
            && s[j].message == "Retrieved video " + FormatIndex(positions[s[j].current - 1], |entries|) + "/" + Digits(|entries|))
      && (forall j, m :: 0 <= j < m < |s| - 1 ==> s[j].current < s[m].current)
  {
    var prefix := positions[..ValidPrefix(|entries|, positions)];
    var hits := Harvest(entries, fetch, prefix);
    HarvestSound(entries, fetch, prefix);
    HarvestAscending(entries, fetch, prefix);
    var events := ProgressEvents(hits, |positions|, |entries|);
    var s := Stream(entries, fetch, positions);
    assert s[..|s| - 1] == events;
    forall j | 0 <= j < |events|
      ensures s[j] == ProgressOf(hits[j], |positions|, |entries|)
      ensures hits[j].position == positions[hits[j].current - 1]
      ensures hits[j].current <= |prefix|
    {
      assert s[j] == events[j];
      assert prefix[hits[j].current - 1] == positions[hits[j].current - 1];
    }
  }

  /** A complete batch holds exactly the fetched records, in order, each labelled with its position. */
  lemma StreamBatch(entries: seq<Entry>, fetch: Fetcher, positions: seq<int>)
    ensures var s := Stream(entries, fetch, positions);
      var last := |s| - 1;
      s[last].Complete? ==>
        && |s[last].videos| == last
        && forall j :: 0 <= j < last ==>
             && s[j].Progress? && 1 <= s[j].current <= |positions|
             && Attempt(entries, fetch, positions[s[j].current - 1]) == Some(s[last].videos[j])
             && s[last].videos[j].index == FormatIndex(positions[s[j].current - 1], |entries|)
  {
    var prefix := positions[..ValidPrefix(|entries|, positions)];
    var hits := Harvest(entries, fetch, prefix);
    var events := ProgressEvents(hits, |positions|, |entries|);
    var s := Stream(entries, fetch, positions);
    if s[|s| - 1].Complete? {
      assert prefix == positions;
      HarvestSound(entries, fetch, prefix);
      var videos := VideosOf(hits);
      assert s == events + [Complete(videos)];
      forall j | 0 <= j < |events|
        ensures s[j].current == hits[j].current && videos[j] == hits[j].video
      {
        assert s[j] == events[j];
      }
    }
  }

  /**
   * The stream ends with the batch exactly when every resolved position lies
   * inside the playlist; otherwise with the IndexError's error event.
   */
  lemma StreamCompletesIffInRange(entries: seq<Entry>, fetch: Fetcher, positions: seq<int>)
    ensures var s := Stream(entries, fetch, positions);
      && (s[|s| - 1].Complete? <==> forall k :: 0 <= k < |positions| ==> InRange(|entries|, positions[k]))
      && (!s[|s| - 1].Complete? ==> s[|s| - 1] == Error(FailurePrefix + IndexErrorText))
  {
  }

  /** A progress event with counter c stands for a hit with counter c. */
  lemma ReportedMeansHit(entries: seq<Entry>, fetch: Fetcher, positions: seq<int>, c: int)
    requires exists e :: e in Stream(entries, fetch, positions) && e.Progress? && e.current == c
    ensures exists h :: h in Harvest(entries, fetch, positions[..ValidPrefix(|entries|, positions)]) && h.current == c
  {
    var hits := Harvest(entries, fetch, positions[..ValidPrefix(|entries|, positions)]);
    var s := Stream(entries, fetch, positions);
    var events := ProgressEvents(hits, |positions|, |entries|);
    var e :| e in s && e.Progress? && e.current == c;
    var m :| 0 <= m < |s| && s[m] == e;
    assert m < |events| && events[m] == e;
    assert hits[m] in hits && hits[m].current == c;
  }

  /** A hit with counter c is reported by a progress event with counter c. */
  lemma HitMeansReported(entries: seq<Entry>, fetch: Fetcher, positions: seq<int>, c: int)
    requires exists h :: h in Harvest(entries, fetch, positions[..ValidPrefix(|entries|, positions)]) && h.current == c
    ensures exists e :: e in Stream(entries, fetch, positions) && e.Progress? && e.current == c
  {
    var hits := Harvest(entries, fetch, positions[..ValidPrefix(|entries|, positions)]);
    var s := Stream(entries, fetch, positions);
    var events := ProgressEvents(hits, |positions|, |entries|);
    assert s[..|events|] == events;
    var h :| h in hits && h.current == c;
    var m :| 0 <= m < |hits| && hits[m] == h;
    assert events[m] == s[m];
    assert s[m] in s && s[m].Progress? && s[m].current == c;
  }

  /**
   * Position j is reported by a progress event with counter j + 1 exactly
   * when the loop gets through it before the IndexError stop and its fetch
   * succeeds.
   */
  lemma StreamReportsEachSuccess(entries: seq<Entry>, fetch: Fetcher, positions: seq<int>, j: int)
    requires 0 <= j < |positions|
    ensures (exists e :: e in Stream(entries, fetch, positions) && e.Progress? && e.current == j + 1)
      <==> j < ValidPrefix(|entries|, positions) && Attempt(entries, fetch, positions[j]).Some?
  {
    var k := ValidPrefix(|entries|, positions);
    if k <= j {
      StreamProgress(entries, fetch, positions);
      StreamEndsOnce(entries, fetch, positions);
      return;
    }
    assert positions[..k][j] == positions[j];
    HarvestKeepsEverySuccess(entries, fetch, positions[..k], j);
    if exists e :: e in Stream(entries, fetch, positions) && e.Progress? && e.current == j + 1 {
      ReportedMeansHit(entries, fetch, positions, j + 1);
    }
    if Attempt(entries, fetch, positions[j]).Some? {
      HitMeansReported(entries, fetch, positions, j + 1);
    }
  }

  /**
   * When every fetch succeeds the loop reports every position, counting
   * 1..n, and completes with one record per position, in order.
   */
  lemma EveryFetchSucceeds(entries: seq<Entry>, fetch: Fetcher, positions: seq<int>)
    requires forall k :: 0 <= k < |positions| ==> Attempt(entries, fetch, positions[k]).Some?
    ensures var s := Stream(entries, fetch, positions);
      var n := |positions|;
      && |s| == n + 1
      && (forall j :: 0 <= j < n ==>
            s[j] == Progress("Retrieved video " + FormatIndex(positions[j], |entries|) + "/" + Digits(|entries|), j + 1, n))
      && s[n].Complete?
      && |s[n].videos| == n
      && forall j :: 0 <= j < n ==> Attempt(entries, fetch, positions[j]) == Some(s[n].videos[j])
  {
    var n := |positions|;
    StopsAt(|entries|, positions, n);
    assert positions[..n] == positions;
    HarvestAllSucceed(entries, fetch, positions);
    HarvestSound(entries, fetch, positions);
    var hits := Harvest(entries, fetch, positions);
    var events := ProgressEvents(hits, n, |entries|);
    var videos := VideosOf(hits);
    var s := Stream(entries, fetch, positions);
    assert s == events + [Complete(videos)];
    forall j | 0 <= j < n
      ensures s[j] == Progress("Retrieved video " + FormatIndex(positions[j], |entries|) + "/" + Digits(|entries|), j + 1, n)
      ensures Attempt(entries, fetch, positions[j]) == Some(videos[j])
    {
      assert s[j] == events[j] == ProgressOf(hits[j], n, |entries|);
      assert videos[j] == hits[j].video;
    }
  }

  /**
   * The whole playlist with every fetch succeeding: one progress event per
   * entry, counting 1..n, then exactly one complete event whose n records are
   * labelled 1..n at the width of str(n).
   */
  lemma WholePlaylistStream(entries: seq<Entry>, fetch: Fetcher)
    requires entries != []
    requires forall e :: e in entries ==> fetch(e.url).Some?
    ensures var n := |entries|;
      var s := PlaylistStream(Success(entries), None, None, [], fetch);
      && |s| == n + 1
      && (forall j :: 0 <= j < n ==>
            s[j] == Progress("Retrieved video " + FormatIndex(j + 1, n) + "/" + Digits(n), j + 1, n))
      && s[n].Complete?
      && |s[n].videos| == n
      && forall j :: 0 <= j < n ==>
           && s[n].videos[j].index == FormatIndex(j + 1, n)
           && |s[n].videos[j].index| == |Digits(n)|
  {
    var n := |entries|;
    var positions := ResolvePositions(n, None, None, []);
    var s := PlaylistStream(Success(entries), None, None, [], fetch);
    assert s == Stream(entries, fetch, positions);
    forall k | 0 <= k < |positions|
      ensures Attempt(entries, fetch, positions[k]).Some?
    {
      assert EntryAt(entries, positions[k]) == Some(entries[k]);
    }
    EveryFetchSucceeds(entries, fetch, positions);
    forall j | 0 <= j < n
      ensures s[j] == Progress("Retrieved video " + FormatIndex(j + 1, n) + "/" + Digits(n), j + 1, n)
      ensures s[n].videos[j].index == FormatIndex(j + 1, n)
      ensures |s[n].videos[j].index| == |Digits(n)|
    {
      assert positions[j] == j + 1;
      FormatIndexWidth(j + 1, n);
    }
  }

  /** The last event closes the stream; every event before it is a progress event. */
  lemma StreamEndsOnce(entries: seq<Entry>, fetch: Fetcher, positions: seq<int>)
    ensures var s := Stream(entries, fetch, positions);
      && 1 <= |s| && !s[|s| - 1].Progress?
      && forall j :: 0 <= j < |s| - 1 ==> s[j].Progress?
  {
  }

  /** The loop of get_playlist_info over the resolved positions of a non-empty playlist. */
  method FetchPositions(entries: seq<Entry>, fetch: Fetcher, positions: seq<int>) returns (events: seq<Event>)
    ensures events == Stream(entries, fetch, positions)
  {
    var count := |entries|;
    var rangeTotal := |positions|;
    var videos: seq<Video> := [];
    events := [];
    ghost var hits: seq<Hit> := [];
    var i := 0;
    while i < |positions|
      invariant 0 <= i <= |positions|
      invariant forall j :: 0 <= j < i ==> InRange(count, positions[j])
      invariant hits == Harvest(entries, fetch, positions[..i])
      invariant events == ProgressEvents(hits, rangeTotal, count)
      invariant videos == VideosOf(hits)
    {
      var index := positions[i];
      var entry := EntryAt(entries, index);
      if entry.None? {
        StopsAt(count, positions, i);
        events := events + [Error(FailurePrefix + IndexErrorText)];
        return;
      }
      var video := fetch(entry.value.url);
      HarvestStep(entries, fetch, positions, i);
      if video.Some? {
        var labelled := video.value.(index := FormatIndex(index, count));
        ghost var hit := Hit(i + 1, index, labelled);
        ExtendEvents(hits, hit, rangeTotal, count);
        videos := videos + [labelled];
        events := events + [Progress("Retrieved video " + FormatIndex(index, count) + "/" + Digits(count), i + 1, rangeTotal)];
        hits := hits + [hit];
      }
      i := i + 1;
    }
    StopsAt(count, positions, i);
    assert positions[..i] == positions;
    events := events + [Complete(videos)];
  }

  /** get_playlist_info: the flat listing, its empty-playlist guard, then the fetch loop. */
  method PlaylistEvents(listing: Listing, start: Option<int>, end: Option<int>, selected: seq<int>, fetch: Fetcher)
    returns (events: seq<Event>)
    ensures events == PlaylistStream(listing, start, end, selected, fetch)
    ensures listing == Success([]) ==> events == [Error(NoVideosMessage)]
    ensures 1 <= |events| && !events[|events| - 1].Progress?
    ensures forall j :: 0 <= j < |events| - 1 ==> events[j].Progress?
  {
    if listing.Failure? {
      return [Error(FailurePrefix + listing.error)];
    }
    var entries := listing.value;
    if |entries| == 0 {
      return [Error(NoVideosMessage)];
    }
    var positions := ResolvePositions(|entries|, start, end, selected);
    events := FetchPositions(entries, fetch, positions);
    StreamEndsOnce(entries, fetch, positions);
  }
}
