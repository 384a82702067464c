/** The ids that the scanner derives from a path. */
module ScannerIds {
  import opened Wrappers
  import opened Text
  import opened PathLayout
  import Segmenter

  function AlbumIdPart(artistSlug: string, albumSlug: string): string {
    artistSlug + ":" + albumSlug
  }

  function NumberPrefix(number: Option<nat>): string {
    match number
    case None => ""
    case Some(n) => (if n < 10 then "0" else "") + Decimal(n) + "-"
  }

  method TrackIdPart(albumPart: string, trackSlug: string, number: Option<nat>) returns (out: string)
    ensures out == albumPart + ":" + NumberPrefix(number) + trackSlug
  {
    out := albumPart + ":";
    if number.Some? {
      if number.value < 10 {
        out := out + "0";
      }
      out := out + Decimal(number.value);
      out := out + "-";
    }
    assert out == albumPart + ":" + NumberPrefix(number);
    out := out + trackSlug;
  }

  const AUDIO_EXTENSIONS: seq<string> := ["mp3", "flac", "m4a", "wav"]

  datatype Keys = Keys(artist: string, album: string, track: string, rendition: string, cover: string)

  function KeysFrom(artistSlug: string, albumSlug: string, trackSlug: string, number: Option<nat>,
                    extension: string): Keys {
    var album := AlbumIdPart(artistSlug, albumSlug);
    var track := album + ":" + NumberPrefix(number) + trackSlug;
    Keys(artistSlug, album, track, track + ":" + extension, "cover:" + album)
  }

  lemma NoColon(s: string)
    requires IsSlug(s)
    ensures ':' !in s
  {}

  lemma SplitAtColon(a: string, x: string, b: string, y: string)
    requires ':' !in a && ':' !in b && a + ":" + x == b + ":" + y
    ensures a == b && x == y
  {
    var s := a + ":" + x;
    assert s == b + ":" + y && s[|a|] == s[|b|] == ':';
    assert forall k :: 0 <= k < |a| ==> s[k] == a[k] && a[k] in a;
    assert forall k :: 0 <= k < |b| ==> s[k] == b[k] && b[k] in b;
    assert a == s[..|a|] && b == s[..|b|] && x == s[|a| + 1..] && y == s[|b| + 1..];
  }

  /** An album id splits into its artist and album slugs in one way. */
  lemma AlbumIdSplits(artist: string, album: string, artist': string, album': string)
    requires IsSlug(artist) && IsSlug(artist') && AlbumIdPart(artist, album) == AlbumIdPart(artist', album')
    ensures artist == artist' && album == album'
  {
    NoColon(artist);
    NoColon(artist');
    SplitAtColon(artist, album, artist', album');
  }

  /** So does a rendition id into artist, album, the track's own part and the extension. */
  lemma RenditionIdSplits(artist: string, album: string, track: string, extension: string,
                          artist': string, album': string, track': string, extension': string)
    requires IsSlug(artist) && IsSlug(artist') && IsSlug(album) && IsSlug(album')
    requires ':' !in track && ':' !in track'
    requires AlbumIdPart(artist, album) + ":" + track + ":" + extension ==
             AlbumIdPart(artist', album') + ":" + track' + ":" + extension'
    ensures artist == artist' && album == album' && track == track' && extension == extension'
  {
    NoColon(artist);
    NoColon(artist');
    NoColon(album);
    NoColon(album');
    var rest, rest' := track + ":" + extension, track' + ":" + extension';
    assert AlbumIdPart(artist, album) + ":" + track + ":" + extension == artist + ":" + (album + ":" + rest);
    assert AlbumIdPart(artist', album') + ":" + track' + ":" + extension' == artist' + ":" + (album' + ":" + rest');
    SplitAtColon(artist, album + ":" + rest, artist', album' + ":" + rest');
    SplitAtColon(album, rest, album', rest');
    SplitAtColon(track, extension, track', extension');
  }

  // ---------- ids as directory names and on the wire ----------

  /** The characters of scanner ids. */
  predicate IsIdText(s: string) {
    forall i :: 0 <= i < |s| ==> IsSlugChar(s[i]) || s[i] == '-' || s[i] == ':'
  }

  lemma IdTextConcat(a: string, b: string)
    requires IsIdText(a) && IsIdText(b)
    ensures IsIdText(a + b)
  {}

  lemma NumberPrefixIsIdText(number: Option<nat>)
    ensures IsIdText(NumberPrefix(number)) && ':' !in NumberPrefix(number)
  {
    if number.Some? {
      var digits := Decimal(number.value);
      forall i | 0 <= i < |digits| ensures IsDigit(digits[i]) {
        assert digits[i] in digits;
      }
      IdTextConcat(if number.value < 10 then "0" else "", digits);
      IdTextConcat((if number.value < 10 then "0" else "") + digits, "-");
    }
  }

  lemma KeysAreIdText(artist: string, album: string, track: string, number: Option<nat>, extension: string)
    requires IsSlug(artist) && IsSlug(album) && IsSlug(track) && extension in AUDIO_EXTENSIONS
    ensures var k := KeysFrom(artist, album, track, number, extension);
            IsIdText(k.artist) && IsIdText(k.album) && IsIdText(k.track) && IsIdText(k.rendition)
  {
    hide NumberPrefix, IsIdText;
    NumberPrefixIsIdText(number);
    SlugsAreIdText(artist, album, track, extension);
    var k := KeysFrom(artist, album, track, number, extension);
    IdTextConcat(artist, ":");
    IdTextConcat(artist + ":", album);
    IdTextConcat(k.album, ":");
    IdTextConcat(k.album + ":", NumberPrefix(number));
    IdTextConcat(k.album + ":" + NumberPrefix(number), track);
    IdTextConcat(k.track, ":");
    IdTextConcat(k.track + ":", extension);
  }

  lemma SlugsAreIdText(artist: string, album: string, track: string, extension: string)
    requires IsSlug(artist) && IsSlug(album) && IsSlug(track) && extension in AUDIO_EXTENSIONS
    ensures IsIdText(artist) && IsIdText(album) && IsIdText(track) && IsIdText(extension) && IsIdText(":")
  {}

  /** A scanner id may name a cache directory exactly when it is not too long. */
  lemma IdTextIsSafe(id: string)
    requires IsIdText(id) && id != ""
    ensures Segmenter.IsSafeRenditionId(id) <==> |id| <= 256
  {
    forall c | c in id ensures Segmenter.IsIdChar(c) && c != '.' {
      var i :| 0 <= i < |id| && id[i] == c;
    }
    if |id| >= 5 {
      assert id[|id| - 5] != '.';
      assert ".part"[0] == '.';
    }
  }
}
