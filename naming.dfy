/** File names: sanitize_filename and the name of a playlist's JSON export. */
module Naming {
  import opened Wrappers
  import opened Decimal

  /** The characters sanitize_filename replaces: < > : " / \ | ? * */
  predicate IsForbidden(c: char) {
    c in {'<', '>', ':', '"', '/', '\\', '|', '?', '*'}
  }

  predicate IsSafe(name: string) {
    forall k :: 0 <= k < |name| ==> !IsForbidden(name[k])
  }

  /** sanitize_filename: every forbidden character becomes '_', every other character stays. */
  function SanitizeFilename(name: string): (r: string)
    ensures |r| == |name|
    ensures forall k :: 0 <= k < |name| ==> r[k] == if IsForbidden(name[k]) then '_' else name[k]
    ensures IsSafe(r)
  {
    if name == [] then []
    else
      var last := name[|name| - 1];
      SanitizeFilename(name[..|name| - 1]) + [if IsForbidden(last) then '_' else last]
  }

  /** Sanitizing twice is sanitizing once. */
  lemma SanitizeIdempotent(name: string)
    ensures SanitizeFilename(SanitizeFilename(name)) == SanitizeFilename(name)
  {
  }

  /** A name is left unchanged exactly when it holds no forbidden character. */
  lemma SanitizeFixesExactlySafeNames(name: string)
    ensures SanitizeFilename(name) == name <==> IsSafe(name)
  {
    if SanitizeFilename(name) == name {
      assert IsSafe(SanitizeFilename(name));
    }
  }

  /** playlist_name as the handler computes it: the request's name, "playlist" by default, sanitized. */
  function PlaylistName(requested: Option<string>): (name: string)
    ensures IsSafe(name)
    ensures requested.None? ==> name == "playlist"
    ensures requested.Some? ==> name == SanitizeFilename(requested.value)
  {
    SanitizeFilename(requested.GetOr("playlist"))
  }

  /**
   * The export's file name: the playlist name, an underscore, the number of
   * records in decimal, and the extension ".json".
   */
  function PlaylistFileName(name: string, count: nat): (f: string)
    ensures |f| == |name| + |Digits(count)| + 6
    ensures f[..|name|] == name && f[|name|] == '_'
    ensures f[|f| - 5..] == ".json"
  {
    name + "_" + Digits(count) + ".json"
  }

  /** The part between the underscore and ".json" is all digits and int() reads the record count back from it. */
  lemma PlaylistFileNameCount(name: string, count: nat)
    ensures var f := PlaylistFileName(name, count);
      && AllDigits(f[|name| + 1..|f| - 5])
      && Value(f[|name| + 1..|f| - 5]) == count
  {
    var f := PlaylistFileName(name, count);
    assert f[|name| + 1..|f| - 5] == Digits(count);
    ValueOfDigits(count);
  }

  /** The export's file name holds no forbidden character when the playlist name is sanitized. */
  lemma PlaylistFileNameIsSafe(name: string, count: nat)
    requires IsSafe(name)
    ensures IsSafe(PlaylistFileName(name, count))
  {
    var d := Digits(count);
    var f := PlaylistFileName(name, count);
    forall k | 0 <= k < |f|
      ensures !IsForbidden(f[k])
    {
      if k < |name| {
        assert f[k] == name[k];
      } else if k == |name| {
        assert f[k] == '_';
      } else if k < |name| + 1 + |d| {
        assert f[k] == d[k - |name| - 1];
        assert IsDigit(f[k]);
      } else {
        assert f[k] == ".json"[k - |name| - 1 - |d|];
      }
    }
  }
}
