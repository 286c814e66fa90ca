# phd-scraper playlist core, in Dafny

A model of the playlist logic of the `phd-scraper` Flask application
(`app.py`) and proofs about it. The application takes a playlist URL,
streams newline-delimited JSON progress lines to the browser, and saves the
collected metadata as a JSON file named after the playlist. The model covers
these parts:

- **Naming** (`naming.dfy`): `sanitize_filename`, the default playlist name,
  and the export's file name `<name>_<count>.json`.
- **Decimal** (`decimal.dfy`): `str()` on integers and `format_index`, which
  zero-pads a position to the width of `str(total_videos)`.
- **Extraction** (`extraction.dfy`): the records `get_video_info` returns,
  Python's `videos[index - 1]` on the flat entry list, and
  `list_playlist_videos`.
- **Playlist** (`playlist.dfy`): `get_playlist_info`. This covers the range
  resolution (entire playlist, clamped start/end, or checked positions), the
  fetch loop as a method, and the event stream the loop produces. The stream
  is a progress event per successful fetch, then either the batch or an
  error.
- **Handler** (`handler.dfy`): the playlist branch of `generate` in
  `fetch_videos`. This covers the choice of call from the request fields,
  the consuming loop that forwards events and stops at the first error, and
  `save_to_json` with its empty-data guard.

The metadata extractor is a foreign library reached over the network. It
appears as two parameters:

- a `Fetcher`, a function from an entry's URL to a record or `None`;
- a `Listing`, the flat extraction's entries or the text of the exception
  it raised.

Writing a file is a `Writer` parameter that reports success. Each method is
proved equal to a specification function, and the lemmas state what the
application promises about those functions.

Checked positions are used verbatim, with no bounds check, so the model has
Python's list indexing:

- positions `1..n` pick entries 1 to n;
- `0` and negative positions down to `1 - n` wrap to the end of the list;
- any other position raises `IndexError`. The loop then ends with the event
  "Failed to retrieve playlist information: list index out of range". The
  progress events already streamed remain.

## Model

| member | source | states |
|---|---|---|
| Naming.SanitizeFilename | app.py:27-29 | the result has the input's length; each of `<>:"/\|?*` becomes `_` and every other character is kept; the result holds no forbidden character |
| Naming.SanitizeIdempotent | app.py:27-29 | sanitizing an already sanitized name changes nothing |
| Naming.SanitizeFixesExactlySafeNames | app.py:27-29 | a name is left unchanged if and only if it holds no forbidden character |
| Naming.PlaylistName | app.py:182 | the playlist name is the request's name sanitized, or "playlist" when the request gives none; it is always free of forbidden characters |
| Naming.PlaylistFileName | app.py:249 | the file name starts with the playlist name and an underscore, ends with ".json", and is 6 characters longer than the name and the count's digits together |
| Naming.PlaylistFileNameCount | app.py:249 | the part between the underscore and ".json" is all digits, and `int()` reads the number of records back from it |
| Naming.PlaylistFileNameIsSafe | app.py:249 | `<name>_<count>.json` stays free of forbidden characters when the name is |
| Decimal.Digits | app.py:33 | `str()` of a natural number is a non-empty digit string with no leading zero unless the number is 0 |
| Decimal.ValueOfDigits | app.py:33 | `int()` reads back the number `str()` wrote |
| Decimal.DigitsMonotone | app.py:33 | a larger total never has fewer digits |
| Decimal.FormatIndex | app.py:31-34 | the label is as wide as the wider of `str(total_videos)` and `str(index)`: padding is a minimum and never truncates |
| Decimal.FormatIndexValue | app.py:31-34 | the label of a non-negative index is all digits, and `int()` reads the index back from it |
| Decimal.FormatIndexNegative | app.py:31-34 | the label of a negative index puts `-` before the zero padding; the rest is digits that read back as the index's magnitude |
| Decimal.FormatIndexWidth | app.py:31-34 | every position 1..total_videos gets a label exactly as wide as `str(total_videos)` |
| Decimal.FormatIndexInjective | app.py:31-34 | distinct non-negative positions get distinct labels |
| Extraction.EntryAt | app.py:107 | `videos[index - 1]` succeeds if and only if `1 - n <= index <= n`, and then picks the entry at `(index - 1) mod n`: positions 1..n give entry index-1, and 0 and the negative positions count back from the end |
| Extraction.ListPlaylistVideos | app.py:120-146 | a failed extraction gives `(0, [])`; otherwise the count is the number of entries, with one label per entry |
| Extraction.ListedLabelsNumberEntries | app.py:135-141 | the j-th label is as wide as `str(total)`, reads back as j+1, and carries the entry's title or "Unknown Title" |
| Playlist.IntervalMembers | app.py:102 | `range(lo, hi + 1)` holds exactly the integers from lo to hi, in strictly increasing order |
| Playlist.ResolvePositions | app.py:92-103 | checked positions are used verbatim; without them a missing bound gives 1..total, and both bounds give the run clamped to `[max(1, start), min(total, end)]`; without checked positions every result lies in `[1, total]` and is strictly ascending |
| Playlist.ValidPrefix | app.py:105-107 | the loop gets through exactly the leading positions inside the list, and the next position, if any, is outside it |
| Playlist.StopsAt | app.py:105-107 | the loop stops after i positions exactly when those are in range and position i is not |
| Playlist.Attempt | app.py:107-111 | fetching a position succeeds if and only if the position is in range and the fetch of its entry's URL succeeds; the record is then the fetched record with only its `index` replaced by `format_index(position, total_videos)` |
| Playlist.HarvestSound | app.py:105-114 | every collected record comes from a successful fetch of the position its loop counter names |
| Playlist.HarvestAscending | app.py:105-114 | the loop counters of the collected records strictly increase |
| Playlist.HarvestKeepsEverySuccess | app.py:105-114 | a position is collected if and only if its fetch succeeds: failures are skipped and nothing else is |
| Playlist.HarvestAllSucceed | app.py:105-114 | when every fetch succeeds, the i-th collected record is the i-th position, counted i+1 |
| Playlist.StreamProgress | app.py:105-114 | every event before the last is a progress event; its `total` is the number of resolved positions and its `current` is a loop counter in `1..total`, strictly increasing, and never past the last position before the IndexError stop; its message names the fetched position's label out of `str(total_videos)` |
| Playlist.StreamBatch | app.py:108-115 | a complete event holds exactly one record per progress event, in order, each the fetch result of that event's position and labelled with it |
| Playlist.StreamCompletesIffInRange | app.py:105-118 | the stream ends with the batch if and only if every resolved position is inside the list; otherwise it ends with the IndexError's error event |
| Playlist.StreamReportsEachSuccess | app.py:105-114 | for every resolved position j, a progress event with `current == j + 1` exists if and only if the loop gets through position j before the IndexError stop and its fetch succeeds |
| Playlist.EveryFetchSucceeds | app.py:105-115 | when every fetch succeeds, there are n progress events counting 1..n, then one batch of n records in position order |
| Playlist.WholePlaylistStream | app.py:86-115 | for the whole playlist with every fetch succeeding: n progress events "Retrieved video <label>/<n>" counting 1..n, then one batch whose records are labelled 1..n at the width of `str(n)` |
| Playlist.StreamEndsOnce | app.py:105-118 | the stream is never empty, its last event is not a progress event, and every event before it is |
| Playlist.FetchPositions | app.py:105-115 | the fetch loop yields exactly the specified stream for the resolved positions, including the IndexError stop |
| Playlist.PlaylistEvents | app.py:81-118 | `get_playlist_info` yields the specified stream: the failure text of the listing, "No videos found in the playlist." for an empty list, otherwise the fetch loop's events; the last event closes the stream |
| Handler.SaveToJson | app.py:148-161 | empty data is refused without writing; otherwise the result is whether the write succeeded |
| Handler.Answer | app.py:243-258 | each event gets exactly one line: progress and error events are forwarded; an empty batch gets "No videos were retrieved from the playlist." without a write; a non-empty batch is written once under `<name>_<count>.json`, and the line is the success line naming that file exactly when the write succeeds; otherwise the line is "Failed to save playlist information." |
| Handler.Respond | app.py:241-258 | the response has at most one line per event and at most one write per line; every write is of a non-empty batch, under `<name>_<count>.json` with count the batch size |
| Handler.Consume | app.py:241-258 | the consuming loop produces exactly the specified response: progress and error events forwarded, a batch saved or reported, and the loop stops at the first error |
| Handler.RespondToStream | app.py:241-258 | for a stream of progress events closed by one final event, progress is forwarded line for line, the final event gets one line, and only that event can cause a write |
| Handler.RespondStopsAtFirstError | app.py:256-258 | events after the first error event change neither the lines nor the writes |
| Handler.ChooseCall | app.py:207-239 | "Invalid range provided." if and only if both bounds are given and one fails `int()`; the selection prompt if and only if a bound is missing and no box is checked; 'entire' calls for the whole playlist whatever the other fields hold; otherwise two bounds that both parse always give the range call with those bounds and no selection; with a bound missing and boxes checked, the checked positions are passed verbatim |
| Handler.CallPositions | app.py:207-239 | an accepted request fetches all positions for 'entire', the clamped range when both bounds parse, and the checked positions otherwise |
| Handler.ServePlaylist | app.py:205-258 | the playlist branch streams exactly the specified response, at least one line, and every file it writes has a name free of forbidden characters |
| Handler.RejectedRequest | app.py:218-239 | a request that cannot be served gets one error line and writes nothing |
| Handler.ListingFailureReported | app.py:116-118 | when the listing fails, the only line is "Failed to retrieve playlist information: " with the exception text, and nothing is written |
| Handler.WholePlaylistSaved | app.py:205-258 | the whole playlist with every fetch and the write succeeding gives n progress lines counting 1..n, then "Playlist information saved to <name>_<n>.json"; exactly one file is written, holding the n records labelled 1..n |

## Left out

- The metadata extractor (a foreign library reached over the network) is not modelled. It is a `Fetcher` or `Listing` parameter, and every exception inside the flat extraction is a `Listing` failure carrying its text.
- The copying of extractor fields into a record in `get_video_info` (app.py:36-68) is not modelled. The record is a `Video` value the `Fetcher` returns.
- File I/O in `save_to_json` (JSON encoding, `os.path.join`, the `try`/`except`) is not modelled. It is a `Writer` that reports success; the model records each write it requests.
- Directory creation at start-up, logging, `render_template` and the Flask routes are not modelled. This includes `/list_playlist_videos`, which only wraps `list_playlist_videos`, and the 400/500 responses of `fetch_videos`.
- The video branch of `generate` and its "Invalid input type." line are not modelled; only the playlist branch is.
- Playlist.ResolvePositions: does not model `int()` on the checked positions (app.py:93). The positions are integers already. A value `int()` rejects would end the stream with the error event carrying the exception text.
- Handler.ChooseCall: does not model Python truthiness and `int()` on the raw JSON value. The caller classifies each bound as `Blank` (absent, null, "" or 0), `Number` or `Malformed`.
- The JSON encoding of each line is not modelled. Lines are values with the same fields.
- `progress_messages` is collected by the consuming loop (app.py:241-244) but never read. It is kept as a local and has no contract.
- The laziness of Python generators is not modelled. Events are a finished sequence, so the interleaving of fetching and streaming is not captured.
- `static/script.js` is not part of this model.
