/**
 * What the metadata extractor hands back, and the flat playlist listing.
 * The extractor itself (network access through a foreign library) is an
 * oracle: a Fetcher for the metadata of one video and a Listing for the
 * flat extraction of a playlist.
 */
module Extraction {
  import opened Wrappers
  import opened Decimal

  /** One entry of a flat playlist listing: its 'url' and 'title' keys, when present. */
  datatype Entry = Entry(url: Option<string>, title: Option<string>)

  /** The record get_video_info builds; index is '' until a playlist labels it. */
  datatype Video = Video(
    index: string,
    id: string,
    title: string,
    uploader: string,
    uploadDate: string,
    thumbnail: string,
    duration: int,
    likeCount: int,
    viewCount: int,
    tags: seq<string>,
    categories: seq<string>,
    cast: seq<string>,
    description: string)

  /** get_video_info on an entry's url: the record, or None when extraction fails. */
  type Fetcher = Option<string> -> Option<Video>

  /** The flat extraction of a playlist: its entries, or the text of the exception it raised. */
  type Listing = Result<seq<Entry>, string>

  /** videos[index - 1] does not raise on a list of count entries (negative offsets count from the end). */
  predicate InRange(count: nat, index: int) {
    1 - count <= index <= count
  }

  /** Python's videos[index - 1]: None where it raises IndexError. */
  function EntryAt(entries: seq<Entry>, index: int): (r: Option<Entry>)
    ensures r.Some? <==> InRange(|entries|, index)
    ensures 1 <= index <= |entries| ==> r == Some(entries[index - 1])
    ensures index == 0 && entries != [] ==> r == Some(entries[|entries| - 1])
    ensures InRange(|entries|, index) ==> r == Some(entries[(index - 1) % |entries|])
    ensures r.Some? ==> r.value in entries
  {
    if !InRange(|entries|, index) then None
    else
      OffsetModulo(index - 1, |entries|);
      if index >= 1 then Some(entries[index - 1])
      else Some(entries[|entries| + index - 1])
  }

  /** An offset within one list length either way, taken modulo the length: a negative one counts back from the end. */
  lemma OffsetModulo(offset: int, n: int)
    requires -n <= offset < n
    ensures offset % n == if offset < 0 then n + offset else offset
  {
  }

  /** One row of the listing shown to the user. */
  datatype Label = Label(index: string, title: string)

  /** list_playlist_videos: the entry count and a label per entry; (0, []) when extraction fails. */
  function ListPlaylistVideos(listing: Listing): (r: (nat, seq<Label>))
    ensures listing.Failure? ==> r == (0, [])
    ensures listing.Success? ==> r.0 == |listing.value| && |r.1| == r.0
  {
    match listing
    case Failure(_) => (0, [])
    case Success(entries) =>
      (|entries|,
       seq(|entries|, i requires 0 <= i < |entries| =>
         Label(FormatIndex(i + 1, |entries|), entries[i].title.GetOr("Unknown Title"))))
  }

  /**
   * The j-th label is as wide as str(total), int() reads j + 1 back from it,
   * and it carries the entry's title or "Unknown Title".
   */
  lemma ListedLabelsNumberEntries(listing: Listing, j: int)
    requires listing.Success? && 0 <= j < |listing.value|
    ensures var (total, labels) := ListPlaylistVideos(listing);
      && |labels[j].index| == |Digits(total)|
      && AllDigits(labels[j].index)
      && Value(labels[j].index) == j + 1
      && labels[j].title == listing.value[j].title.GetOr("Unknown Title")
  {
    var total := |listing.value|;
    FormatIndexWidth(j + 1, total);
    FormatIndexValue(j + 1, total);
  }
}
