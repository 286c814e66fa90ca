/**
 * The playlist branch of fetch_videos: choosing how to call get_playlist_info
 * from the request's fields, then turning each event into a streamed line and
 * saving the completed batch through save_to_json.
 */
module Handler {
  import opened Wrappers
  import opened Decimal
  import opened Naming
  import opened Extraction
  import opened Playlist

  const NoRetrievedMessage := "No videos were retrieved from the playlist."
  const SaveFailedMessage := "Failed to save playlist information."
  const SavedPrefix := "Playlist information saved to "
  const InvalidRangeMessage := "Invalid range provided."
  const NoSelectionMessage := "Please specify a range or select videos using checkboxes."

  /** One JSON line of the streamed response. */
  datatype Line =
    | ProgressLine(message: string, current: nat, total: nat)
    | SuccessLine(message: string)
    | ErrorLine(message: string)

  /** Writing a JSON file: true when the file was written. */
  type Writer = (string, seq<Video>) -> bool

  /** One call of the writer, as save_to_json makes it. */
  datatype Save = Save(filename: string, videos: seq<Video>)

  /** The streamed lines and the files the handler asked to write, in order. */
  datatype Response = Response(lines: seq<Line>, saves: seq<Save>)

  /** save_to_json: refuses empty data without writing, otherwise reports whether the write succeeded. */
  function SaveToJson(data: seq<Video>, filename: string, write: Writer): (saved: bool)
    ensures data == [] ==> !saved
    ensures saved <==> data != [] && write(filename, data)
  {
    if data == [] then false else write(filename, data)
  }

  /**
   * The lines and writes for one event: exactly one line; progress and
   * errors are forwarded; only a non-empty batch is written, under the
   * playlist's file name, and the line reports whether the write succeeded.
   */
  function Answer(event: Event, name: string, write: Writer): (a: Response)
    ensures |a.lines| == 1 && |a.saves| <= 1
    ensures event.Progress? ==> a.lines[0] == ProgressLine(event.message, event.current, event.total)
    ensures event.Error? ==> a.lines[0] == ErrorLine(event.message)
    ensures a.saves != [] <==> event.Complete? && event.videos != []
    ensures a.saves != [] ==> a.saves[0] == Save(PlaylistFileName(name, |event.videos|), event.videos)
    ensures a.lines[0].SuccessLine? <==> a.saves != [] && write(a.saves[0].filename, a.saves[0].videos)
    ensures a.lines[0].SuccessLine? ==> a.lines[0].message == SavedPrefix + a.saves[0].filename
    ensures event.Complete? && event.videos == [] ==> a.lines[0] == ErrorLine(NoRetrievedMessage)
    ensures a.saves != [] && !write(a.saves[0].filename, a.saves[0].videos) ==> a.lines[0] == ErrorLine(SaveFailedMessage)
  {
    match event
    case Progress(message, current, total) => Response([ProgressLine(message, current, total)], [])
    case Error(message) => Response([ErrorLine(message)], [])
    case Complete(videos) =>
      if videos == [] then Response([ErrorLine(NoRetrievedMessage)], [])
      else
        var filename := PlaylistFileName(name, |videos|);
        if SaveToJson(videos, filename, write) then Response([SuccessLine(SavedPrefix + filename)], [Save(filename, videos)])
        else Response([ErrorLine(SaveFailedMessage)], [Save(filename, videos)])
  }

  /** The response to a stream of events: each event answered in turn, stopping after the first error. */
  function Respond(events: seq<Event>, name: string, write: Writer): (r: Response)
    ensures |r.lines| <= |events|
    ensures |r.saves| <= |r.lines|
    ensures forall k :: 0 <= k < |r.saves| ==>
      r.saves[k].videos != [] && r.saves[k].filename == PlaylistFileName(name, |r.saves[k].videos|)
  {
    if events == [] then Response([], [])
    else
      var first := Answer(events[0], name, write);
      if events[0].Error? then first
      else
        var rest := Respond(events[1..], name, write);
        Response(first.lines + rest.lines, first.saves + rest.saves)
  }

  /** Respond on the suffix from i: answer events[i], then go on unless it is an error. */
  lemma RespondFrom(events: seq<Event>, i: nat, name: string, write: Writer)
    requires i < |events|
    ensures var answer := Answer(events[i], name, write);
      var rest := Respond(events[i + 1..], name, write);
      Respond(events[i..], name, write) ==
        if events[i].Error? then answer else Response(answer.lines + rest.lines, answer.saves + rest.saves)
  {
    assert events[i..][1..] == events[i + 1..];
  }

  /** Sequence concatenation regroups freely. */
  lemma AppendAssociates<T>(a: seq<T>, b: seq<T>, c: seq<T>)
    ensures a + (b + c) == (a + b) + c
  {
  }

  /** The consuming loop of generate over the events of get_playlist_info. */
  method Consume(events: seq<Event>, name: string, write: Writer) returns (lines: seq<Line>, saves: seq<Save>)
    ensures Response(lines, saves) == Respond(events, name, write)
  {
    var progressMessages: seq<string> := [];
    lines, saves := [], [];
    var i := 0;
    assert events[i..] == events;
    while i < |events|
      invariant 0 <= i <= |events|
      invariant lines + Respond(events[i..], name, write).lines == Respond(events, name, write).lines
      invariant saves + Respond(events[i..], name, write).saves == Respond(events, name, write).saves
    {
      var item := events[i];
      ghost var answer := Answer(item, name, write);
      ghost var before := Response(lines, saves);
      RespondFrom(events, i, name, write);
      if item.Progress? {
        progressMessages := progressMessages + [item.message];
        lines := lines + [ProgressLine(item.message, item.current, item.total)];
      } else if item.Complete? {
        var videos := item.videos;
        if videos != [] {
          var filename := PlaylistFileName(name, |videos|);
          saves := saves + [Save(filename, videos)];
          if SaveToJson(videos, filename, write) {
            lines := lines + [SuccessLine(SavedPrefix + filename)];
          } else {
            lines := lines + [ErrorLine(SaveFailedMessage)];
          }
        } else {
          lines := lines + [ErrorLine(NoRetrievedMessage)];
        }
      } else {
        lines := lines + [ErrorLine(item.message)];
        break;
      }
      assert lines == before.lines + answer.lines && saves == before.saves + answer.saves;
      ghost var rest := Respond(events[i + 1..], name, write);
      AppendAssociates(before.lines, answer.lines, rest.lines);
      AppendAssociates(before.saves, answer.saves, rest.saves);
      i := i + 1;
    }
  }

  /**
   * A start_index or end_index field: falsy (absent, null, "" or 0), a value
   * int() accepts, or one it rejects with ValueError or TypeError.
   */
  datatype Bound = Blank | Number(value: int) | Malformed

  /** The request fields the playlist branch reads; selected_indices already as integers, [] when falsy. */
  datatype PlaylistRequest = PlaylistRequest(
    rangeType: Option<string>,
    startIndex: Bound,
    endIndex: Bound,
    selectedIndices: seq<int>,
    playlistName: Option<string>)

  /** The arguments get_playlist_info is called with. */
  datatype Call = Call(start: Option<int>, end: Option<int>, selected: seq<int>)

  /**
   * The dispatch of generate: the entire playlist, the range when both bounds
   * are given, else the checked boxes; the two error messages otherwise.
   */
  function ChooseCall(request: PlaylistRequest): (r: Result<Call, string>)
    ensures r == Failure(InvalidRangeMessage) <==>
      && request.rangeType != Some("entire")
      && !request.startIndex.Blank? && !request.endIndex.Blank?
      && (request.startIndex.Malformed? || request.endIndex.Malformed?)
    ensures r == Failure(NoSelectionMessage) <==>
      && request.rangeType != Some("entire")
      && (request.startIndex.Blank? || request.endIndex.Blank?)
      && request.selectedIndices == []
    ensures r.Success? ==> r.value.start.Some? == r.value.end.Some?
    ensures r.Success? && r.value.start.Some? ==>
      && request.startIndex.Number? && request.endIndex.Number?
      && r.value == Call(Some(request.startIndex.value), Some(request.endIndex.value), [])
    ensures r.Success? && r.value.selected != [] ==> r.value.selected == request.selectedIndices
    ensures request.rangeType == Some("entire") ==> r == Success(Call(None, None, []))
    ensures
      && request.rangeType != Some("entire")
      && request.startIndex.Number? && request.endIndex.Number?
      ==> r == Success(Call(Some(request.startIndex.value), Some(request.endIndex.value), []))
    ensures
      && request.rangeType != Some("entire")
      && (request.startIndex.Blank? || request.endIndex.Blank?)
      && request.selectedIndices != []
      ==> r == Success(Call(None, None, request.selectedIndices))
  {
    if request.rangeType == Some("entire") then Success(Call(None, None, []))
    else if !request.startIndex.Blank? && !request.endIndex.Blank? then
      if request.startIndex.Malformed? || request.endIndex.Malformed? then Failure(InvalidRangeMessage)
      else Success(Call(Some(request.startIndex.value), Some(request.endIndex.value), []))
    else if request.selectedIndices != [] then Success(Call(None, None, request.selectedIndices))
    else Failure(NoSelectionMessage)
  }

  /**
   * The positions fetched for an accepted request on a playlist of n entries:
   * all of them for 'entire', the clamped range when both bounds parse, the
   * checked boxes otherwise.
   */
  lemma CallPositions(request: PlaylistRequest, n: nat)
    requires ChooseCall(request).Success?
    ensures var call := ChooseCall(request).value;
      var positions := ResolvePositions(n, call.start, call.end, call.selected);
      && (request.rangeType == Some("entire") ==> positions == Interval(1, n))
      && (request.rangeType != Some("entire") && request.startIndex.Number? && request.endIndex.Number? ==>
            positions == Interval(Max(1, request.startIndex.value), Min(n, request.endIndex.value)))
      && (request.rangeType != Some("entire") && (request.startIndex.Blank? || request.endIndex.Blank?) ==>
            positions == request.selectedIndices)
  {
  }

  /** Everything the playlist branch streams and writes for one request. */
  function Served(request: PlaylistRequest, listing: Listing, fetch: Fetcher, write: Writer): Response {
    match ChooseCall(request)
    case Failure(message) => Response([ErrorLine(message)], [])
    case Success(call) =>
      Respond(PlaylistStream(listing, call.start, call.end, call.selected, fetch), PlaylistName(request.playlistName), write)
  }

  /** The playlist branch of generate. */
  method ServePlaylist(request: PlaylistRequest, listing: Listing, fetch: Fetcher, write: Writer)
    returns (lines: seq<Line>, saves: seq<Save>)
    ensures Response(lines, saves) == Served(request, listing, fetch, write)
    ensures 1 <= |lines|
    ensures forall k :: 0 <= k < |saves| ==> IsSafe(saves[k].filename)
  {
    var name := PlaylistName(request.playlistName);
    var call := ChooseCall(request);
    if call.Failure? {
      return [ErrorLine(call.error)], [];
    }
    var events := PlaylistEvents(listing, call.value.start, call.value.end, call.value.selected, fetch);
    lines, saves := Consume(events, name, write);
    RespondToStream(events, name, write);
    forall k | 0 <= k < |saves|
      ensures IsSafe(saves[k].filename)
    {
      PlaylistFileNameIsSafe(name, |saves[k].videos|);
    }
  }

  /**
   * A stream of progress events closed by one final event is answered line
   * for line: progress forwarded as is, then the final event's line; only a
   * non-empty batch is written, once, under the playlist's file name.
   */
  lemma {:induction false} RespondToStream(events: seq<Event>, name: string, write: Writer)
    requires 1 <= |events|
    requires forall j :: 0 <= j < |events| - 1 ==> events[j].Progress?
    ensures var r := Respond(events, name, write);
      var last := events[|events| - 1];
      && |r.lines| == |events|
      && (forall j :: 0 <= j < |events| - 1 ==>
            r.lines[j] == ProgressLine(events[j].message, events[j].current, events[j].total))
      && r.lines[|events| - 1] == Answer(last, name, write).lines[0]
      && r.saves == Answer(last, name, write).saves
  {
    var r := Respond(events, name, write);
    if |events| > 1 {
      var rest := events[1..];
      forall j | 0 <= j < |rest| - 1
        ensures rest[j].Progress?
      {
        assert rest[j] == events[j + 1];
      }
      RespondToStream(rest, name, write);
      var tail := Respond(rest, name, write);
      assert r.lines == [ProgressLine(events[0].message, events[0].current, events[0].total)] + tail.lines;
      forall j | 1 <= j < |events| - 1
        ensures r.lines[j] == ProgressLine(events[j].message, events[j].current, events[j].total)
      {
        assert r.lines[j] == tail.lines[j - 1];
        assert rest[j - 1] == events[j];
      }
    }
  }

  /** The response never goes past the first error event. */
  lemma {:induction false} RespondStopsAtFirstError(events: seq<Event>, name: string, write: Writer, i: nat)
    requires i < |events| && events[i].Error?
    ensures Respond(events, name, write) == Respond(events[..i + 1], name, write)
  {
    if i > 0 {
      assert events[1..][i - 1] == events[i];
      RespondStopsAtFirstError(events[1..], name, write, i - 1);
      assert events[1..][..i] == events[..i + 1][1..];
    }
  }

  /** A range or selection request that cannot be served gets its one error line and writes nothing. */
  lemma RejectedRequest(request: PlaylistRequest, listing: Listing, fetch: Fetcher, write: Writer)
    requires ChooseCall(request).Failure?
    ensures var r := Served(request, listing, fetch, write);
      && r.saves == []
      && (r.lines == [ErrorLine(InvalidRangeMessage)] || r.lines == [ErrorLine(NoSelectionMessage)])
  {
  }

  /** When the listing fails, the client sees get_playlist_info's error line and nothing is written. */
  lemma ListingFailureReported(request: PlaylistRequest, detail: string, fetch: Fetcher, write: Writer)
    requires ChooseCall(request).Success?
    ensures Served(request, Failure(detail), fetch, write) == Response([ErrorLine(FailurePrefix + detail)], [])
  {
  }

  /**
   * The whole playlist with every fetch and the write succeeding: one
   * progress line per entry, counting 1..n, then the success line naming
   * "<name>_<n>.json", which holds the n records labelled 1..n.
   */
  lemma WholePlaylistSaved(request: PlaylistRequest, entries: seq<Entry>, fetch: Fetcher, write: Writer)
    requires request.rangeType == Some("entire")
    requires entries != []
    requires forall e :: e in entries ==> fetch(e.url).Some?
    requires forall filename, videos :: write(filename, videos)
    ensures var n := |entries|;
      var filename := PlaylistFileName(PlaylistName(request.playlistName), n);
      var r := Served(request, Success(entries), fetch, write);
      && |r.lines| == n + 1
      && (forall j :: 0 <= j < n ==> r.lines[j] == ProgressLine("Retrieved video " + FormatIndex(j + 1, n) + "/" + Digits(n), j + 1, n))
      && r.lines[n] == SuccessLine(SavedPrefix + filename)
      && |r.saves| == 1
      && r.saves[0].filename == filename
      && |r.saves[0].videos| == n
      && forall j :: 0 <= j < n ==> r.saves[0].videos[j].index == FormatIndex(j + 1, n)
  {
    var n := |entries|;
    var name := PlaylistName(request.playlistName);
    var s := PlaylistStream(Success(entries), None, None, [], fetch);
    WholePlaylistStream(entries, fetch);
    StreamEndsOnce(entries, fetch, ResolvePositions(n, None, None, []));
    RespondToStream(s, name, write);
    var r := Served(request, Success(entries), fetch, write);
    assert r == Respond(s, name, write);
    forall j | 0 <= j < n
      ensures r.lines[j] == ProgressLine("Retrieved video " + FormatIndex(j + 1, n) + "/" + Digits(n), j + 1, n)
    {
      assert s[j] == Progress("Retrieved video " + FormatIndex(j + 1, n) + "/" + Digits(n), j + 1, n);
    }
  }
}
