/** Which files of a library are indexed, on the text of their paths, and what is written for each. */
module ScannedFiles {
  import opened Wrappers
  import opened Text
  import opened PathLayout
  import opened ScannerIds
  import opened Catalog
  import opened MediaScanner

  // ---------- the path ----------

  predicate Blank(segments: seq<string>) {
    forall i :: 0 <= i < |segments| ==> segments[i] == "" || segments[i] == "."
  }

  predicate IsName(segment: string) {
    segment != "" && segment != "."
  }

  /** Apart from blank segments the path consists of these three names. */
  ghost predicate ThreeNames(segments: seq<string>, artist: string, album: string, file: string) {
    && IsName(artist) && IsName(album) && IsName(file)
    && exists w, x, y, z ::
         Blank(w) && Blank(x) && Blank(y) && Blank(z) && segments == w + [artist] + x + [album] + y + [file] + z
  }

  lemma {:induction false} PartsConcat(a: seq<string>, b: seq<string>)
    ensures Parts(a + b) == Parts(a) + Parts(b)
  {
    if b == [] {
      assert a + b == a;
    } else {
      var n := |b| - 1;
      assert (a + b)[..|a + b| - 1] == a + b[..n];
      PartsConcat(a, b[..n]);
    }
  }

  lemma {:induction false} BlankHasNoParts(a: seq<string>)
    requires Blank(a)
    ensures Parts(a) == []
  {
    if a != [] {
      BlankHasNoParts(a[..|a| - 1]);
    }
  }

  lemma OnePart(name: string)
    requires IsName(name)
    ensures Parts([name]) == [name]
  {
    assert [name][..0] == [];
  }

  lemma NamesAreParts(w: seq<string>, artist: string, x: seq<string>, album: string, y: seq<string>, file: string,
                      z: seq<string>)
    requires Blank(w) && Blank(x) && Blank(y) && Blank(z) && IsName(artist) && IsName(album) && IsName(file)
    ensures Parts(w + [artist] + x + [album] + y + [file] + z) == [artist, album, file]
  {
    hide Parts, Blank;
    BlankHasNoParts(w);
    BlankHasNoParts(x);
    BlankHasNoParts(y);
    BlankHasNoParts(z);
    OnePart(artist);
    OnePart(album);
    OnePart(file);
    PartsConcat(w, [artist]);
    PartsConcat(w + [artist], x);
    PartsConcat(w + [artist] + x, [album]);
    PartsConcat(w + [artist] + x + [album], y);
    PartsConcat(w + [artist] + x + [album] + y, [file]);
    PartsConcat(w + [artist] + x + [album] + y + [file], z);
  }

  /** The last name of a path, and the blanks behind it. */
  lemma {:induction false} LastName(segments: seq<string>) returns (front: seq<string>, blanks: seq<string>)
    requires Parts(segments) != []
    ensures var parts := Parts(segments);
            && segments == front + [parts[|parts| - 1]] + blanks && Blank(blanks)
            && IsName(parts[|parts| - 1]) && Parts(front) == parts[..|parts| - 1]
  {
    var n := |segments| - 1;
    if IsName(segments[n]) {
      front, blanks := segments[..n], [];
      assert segments == front + [segments[n]] + [];
    } else {
      front, blanks := LastName(segments[..n]);
      blanks := blanks + [segments[n]];
      assert segments == segments[..n] + [segments[n]];
    }
  }

  lemma {:induction false} NoPartsIsBlank(a: seq<string>)
    requires Parts(a) == []
    ensures Blank(a)
  {
    if a != [] {
      NoPartsIsBlank(a[..|a| - 1]);
    }
  }

  lemma PartsExactly(segments: seq<string>, artist: string, album: string, file: string)
    ensures Parts(segments) == [artist, album, file] <==> ThreeNames(segments, artist, album, file)
  {
    hide Parts, Blank;
    if Parts(segments) == [artist, album, file] {
      var front, z := LastName(segments);
      var middle, y := LastName(front);
      var w, x := LastName(middle);
      NoPartsIsBlank(w);
      assert segments == w + [artist] + x + [album] + y + [file] + z;
    }
    if ThreeNames(segments, artist, album, file) {
      var w, x, y, z :|
        Blank(w) && Blank(x) && Blank(y) && Blank(z) && segments == w + [artist] + x + [album] + y + [file] + z;
      NamesAreParts(w, artist, x, album, y, file, z);
    }
  }

  // ---------- the file's name ----------

  /** Digits, separators and a rest that starts with neither; the digits are a 16-bit number. */
  predicate Numbered(stem: string, digits: string, gap: string, rest: string) {
    && stem == digits + gap + rest && digits != "" && gap != ""
    && AllDigits(digits) && (forall c :: c in gap ==> IsSeparator(c)) && (rest != "" ==> !IsSeparator(rest[0]))
    && DigitsValue(digits) < 0x1_0000
  }

  ghost predicate IsNumbered(stem: string) {
    exists digits, gap, rest :: Numbered(stem, digits, gap, rest)
  }

  /** The title and number that a file's stem tells; a stem that is number and separators alone is the title. */
  ghost predicate Tells(stem: string, title: string, number: Option<nat>) {
    || (number == None && title == stem && !IsNumbered(stem))
    || exists digits, gap, rest ::
         && Numbered(stem, digits, gap, rest) && number == Some(DigitsValue(digits))
         && title == if rest == "" then stem else rest
  }

  lemma NumberedTitleOf(stem: string, digits: string, gap: string, rest: string)
    requires Numbered(stem, digits, gap, rest)
    ensures TitleOf(stem) == (if rest == "" then stem else rest, Some(DigitsValue(digits)))
  {
    hide DigitsValue;
    var d, g := |digits|, |gap|;
    assert stem[..d] == digits && stem[d..] == gap + rest;
    assert stem[d] == gap[0] && gap[0] in gap;
    assert forall k :: 0 <= k < d ==> stem[k] == digits[k] && digits[k] in digits;
    SpanIs(stem, Digits, d);
    assert forall k :: 0 <= k < g ==> (gap + rest)[k] == gap[k] && gap[k] in gap;
    assert rest != "" ==> (gap + rest)[g] == rest[0];
    SpanIs(gap + rest, Separators, g);
    assert stem[d + g..] == rest;
  }

  lemma NumberedStem(stem: string) returns (digits: string, gap: string, rest: string)
    requires TitleOf(stem).1.Some?
    ensures Numbered(stem, digits, gap, rest)
  {
    hide DigitsValue;
    var d := Span(stem, Digits);
    var g := Span(stem[d..], Separators);
    digits, gap, rest := stem[..d], stem[d..][..g], stem[d..][g..];
    assert stem == digits + gap + rest;
    assert forall k :: 0 <= k < d ==> Digits(stem[k]);
  }

  lemma TitleExactly(stem: string, title: string, number: Option<nat>)
    ensures TitleOf(stem) == (title, number) <==> Tells(stem, title, number)
  {
    hide DigitsValue, TitleOf;
    if TitleOf(stem).1.Some? {
      var digits, gap, rest := NumberedStem(stem);
      NumberedTitleOf(stem, digits, gap, rest);
      assert IsNumbered(stem);
    } else {
      Unnumbered(stem);
    }
    forall digits, gap, rest | Numbered(stem, digits, gap, rest)
      ensures TitleOf(stem) == (if rest == "" then stem else rest, Some(DigitsValue(digits)))
    {
      NumberedTitleOf(stem, digits, gap, rest);
    }
  }

  lemma Unnumbered(stem: string)
    requires TitleOf(stem).1.None?
    ensures TitleOf(stem).0 == stem
  {}

  predicate SameUpToCase(text: string, lower: string) {
    && |text| == |lower|
    && forall i :: 0 <= i < |text| ==>
         text[i] == lower[i] || ('a' <= lower[i] <= 'z' && text[i] as int + 32 == lower[i] as int)
  }

  predicate HoldsLetter(text: string) {
    exists i :: 0 <= i < |text| && IsAlnum(text[i])
  }

  predicate IsAudio(extension: string) {
    extension == "mp3" || extension == "flac" || extension == "m4a" || extension == "wav"
  }

  lemma LowerExactly(text: string, lower: string)
    requires IsAudio(lower)
    ensures LowerAll(text) == lower <==> SameUpToCase(text, lower)
  {
    assert forall i :: 0 <= i < |lower| ==> 'a' <= lower[i] <= 'z' || '0' <= lower[i] <= '9';
    if SameUpToCase(text, lower) {
      assert forall i :: 0 <= i < |text| ==> Lower(text[i]) == lower[i];
    }
    if LowerAll(text) == lower {
      assert forall i :: 0 <= i < |text| ==> Lower(text[i]) == lower[i];
    }
  }

  lemma LetterExactly(text: string)
    ensures Slug(text) != "" <==> HoldsLetter(text)
  {
    hide Slug;
    SlugShape(text);
    if c :| c in text && IsAlnum(c) {
      var i :| 0 <= i < |text| && text[i] == c;
    }
  }

  // ---------- which files are indexed ----------

  /** What a file's path says of it; `extension` is in lower case. */
  datatype Label = Label(artist: string, album: string, title: string, number: Option<nat>, extension: string)

  /** The file lies two directories deep under names with a letter or digit, and its name ends in an audio extension. */
  ghost predicate Labelled(f: MediaFile, l: Label) {
    && f.relative.Some? && IsAudio(l.extension)
    && HoldsLetter(l.artist) && HoldsLetter(l.album) && HoldsLetter(l.title)
    && exists stem, ending ::
         && stem != "" && '.' !in ending && SameUpToCase(ending, l.extension) && Tells(stem, l.title, l.number)
         && ThreeNames(f.relative.value, l.artist, l.album, stem + "." + ending)
  }

  lemma LabelledIsParsed(f: MediaFile, l: Label)
    requires Labelled(f, l)
    ensures ParsedPath(f.relative.value) == Some(TrackPath(l.artist, l.album, l.title, l.number, l.extension))
  {
    hide Parts, ThreeNames, Tells, TitleOf, LastDot, SameUpToCase, LowerAll, HoldsLetter;
    var stem, ending :|
      && stem != "" && '.' !in ending && SameUpToCase(ending, l.extension) && Tells(stem, l.title, l.number)
      && ThreeNames(f.relative.value, l.artist, l.album, stem + "." + ending);
    PartsExactly(f.relative.value, l.artist, l.album, stem + "." + ending);
    NameDot(stem, ending);
    TitleExactly(stem, l.title, l.number);
    LowerExactly(ending, l.extension);
    assert ending != "" by { NotEmpty(ending, l.extension); }
  }

  lemma NotEmpty(text: string, lower: string)
    requires SameUpToCase(text, lower) && IsAudio(lower)
    ensures text != ""
  {}

  lemma ParsedIsLabelled(f: MediaFile)
    requires PlaceOf(f).Some?
    ensures var p := PlaceOf(f).value.path; Labelled(f, Label(p.artist, p.album, p.title, p.number, p.extension))
  {
    hide Parts, ThreeNames, Tells, TitleOf, LastDot, SameUpToCase, LowerAll, HoldsLetter, Slug, KeysFrom;
    var segments := f.relative.value;
    var parts := Parts(segments);
    var p := PlaceOf(f).value.path;
    var dot := LastDot(parts[2]).value;
    var stem, ending := parts[2][..dot], parts[2][dot + 1..];
    assert parts == [parts[0], parts[1], parts[2]];
    assert parts[2] == stem + "." + ending;
    NoDotBehind(parts[2], dot);
    PartsExactly(segments, p.artist, p.album, stem + "." + ending);
    TitleExactly(stem, p.title, p.number);
    assert IsAudio(p.extension);
    LowerExactly(ending, p.extension);
    LetterExactly(p.artist);
    LetterExactly(p.album);
    LetterExactly(p.title);
  }

  lemma NoDotBehind(name: string, dot: nat)
    requires LastDot(name) == Some(dot)
    ensures '.' !in name[dot + 1..]
  {}

  /** A file is indexed exactly when its path has such a label; any other file is skipped. */
  lemma IndexedExactly(f: MediaFile)
    ensures PlaceOf(f).Some? <==> exists l :: Labelled(f, l)
  {
    hide Labelled, ParsedPath, Slug;
    if PlaceOf(f).Some? {
      ParsedIsLabelled(f);
    }
    if l :| Labelled(f, l) {
      LabelledIsPlaced(f, l);
    }
  }

  lemma LabelledIsPlaced(f: MediaFile, l: Label)
    requires Labelled(f, l)
    ensures PlaceOf(f) == Some(Placed(TrackPath(l.artist, l.album, l.title, l.number, l.extension), Slug(l.album),
                                      Slug(l.title), KeysFrom(Slug(l.artist), Slug(l.album), Slug(l.title), l.number,
                                                              l.extension)))
  {
    hide ParsedPath, Slug, KeysFrom, HoldsLetter, Tells, ThreeNames, SameUpToCase;
    LabelledIsParsed(f, l);
    LetterExactly(l.artist);
    LetterExactly(l.album);
    LetterExactly(l.title);
    assert l.extension in AUDIO_EXTENSIONS;
  }

  // ---------- what is written for it ----------

  /** A display text is the file's tag if it has one, and else what the path says. */
  predicate Shown(text: string, tag: Option<string>, path: string) {
    tag == Some(text) || (tag == None && text == path)
  }

  /** The part of a track id in front of the title: the number with two digits at least, and a dash. */
  predicate NumberPart(part: string, number: Option<nat>) {
    match number
    case None => part == ""
    case Some(n) =>
      && |part| > 2 && part[|part| - 1] == '-' && AllDigits(part[..|part| - 1])
      && DigitsValue(part[..|part| - 1]) == n && (|part| > 3 ==> part[0] != '0')
  }

  /** The ids of a file, put together from the slugs of its label. */
  datatype FileIds = FileIds(artist: string, album: string, track: string, rendition: string, cover: string)

  ghost predicate IdsOf(ids: FileIds, l: Label) {
    && ids.artist == Slug(l.artist)
    && ids.album == ids.artist + ":" + Slug(l.album)
    && (exists part :: NumberPart(part, l.number) && ids.track == ids.album + ":" + part + Slug(l.title))
    && ids.rendition == ids.track + ":" + l.extension
    && ids.cover == "cover:" + ids.album
  }

  predicate IsAsset(a: Asset, f: MediaFile, ids: FileIds) {
    && f.cover.Some? && a.id == ids.cover && a.path == f.cover.value.path
    && (a.mime == if f.cover.value.mime.Some? then f.cover.value.mime.value else "image/jpeg")
  }

  predicate IsArtist(a: Artist, f: MediaFile, l: Label, ids: FileIds) {
    a.id == ids.artist && Shown(a.name, f.tags.artist, l.artist) && a.sortName == Slug(l.artist)
  }

  predicate IsAlbum(a: Album, f: MediaFile, l: Label, ids: FileIds) {
    && a.id == ids.album && a.artistId == ids.artist && Shown(a.title, f.tags.album, l.album)
    && a.sortTitle == Slug(l.album) && a.cover == if f.cover.Some? then Some(ids.cover) else None
  }

  predicate IsTrack(t: Track, f: MediaFile, l: Label, ids: FileIds) {
    && t.id == ids.track && t.albumId == ids.album && t.artistId == ids.artist
    && Shown(t.title, f.tags.title, l.title) && t.sortTitle == Slug(l.title)
    && t.number == l.number && t.durationMs == f.tags.durationMs
  }

  predicate IsRendition(r: Rendition, f: MediaFile, ids: FileIds) {
    r.id == ids.rendition && r.trackId == ids.track && r.sizeBytes == f.size && r.path == f.path
  }

  /**
   The rows that a file adds: its cover, artist and album where the scan has not seen them, its track and
   rendition.
   */
  datatype FileRows = FileRows(asset: Option<Asset>, artist: Option<Artist>, album: Option<Album>, track: Track,
                               rendition: Rendition)
  {
    function Rows(): seq<Row> {
      (if asset.Some? then [AssetRow(asset.value)] else [])
      + (if artist.Some? then [ArtistRow(artist.value)] else [])
      + (if album.Some? then [AlbumRow(album.value)] else [])
      + [TrackRow(track), RenditionRow(rendition)]
    }
  }

  predicate RowsFor(rows: FileRows, s: Scan, f: MediaFile, l: Label, ids: FileIds) {
    && (rows.asset.Some? <==> ids.album !in s.albums && f.cover.Some? && ids.cover !in s.covers)
    && (rows.asset.Some? ==> IsAsset(rows.asset.value, f, ids))
    && (rows.artist.Some? <==> ids.artist !in s.artists)
    && (rows.artist.Some? ==> IsArtist(rows.artist.value, f, l, ids))
    && (rows.album.Some? <==> ids.album !in s.albums)
    && (rows.album.Some? ==> IsAlbum(rows.album.value, f, l, ids))
    && IsTrack(rows.track, f, l, ids) && IsRendition(rows.rendition, f, ids)
  }

  function Accepted(rows: seq<Row>): seq<Call> {
    seq(|rows|, i requires 0 <= i < |rows| => Call(rows[i], true))
  }

  function One(some: bool): nat {
    if some then 1 else 0
  }

  /** The scan behind a file whose rows were all accepted. */
  ghost predicate Adds(s: Scan, s': Scan, rows: FileRows, ids: FileIds) {
    && s'.log == s.log + Accepted(rows.Rows())
    && s'.artists == s.artists + {ids.artist} && s'.albums == s.albums + {ids.album}
    && s'.covers == s.covers + (if rows.asset.Some? then {ids.cover} else {})
    && s'.report == s.report.(
                      artists := s.report.artists + One(rows.artist.Some?),
                      albums := s.report.albums + One(rows.album.Some?),
                      covers := s.report.covers + One(rows.asset.Some?),
                      tracks := s.report.tracks + 1, renditions := s.report.renditions + 1)
  }

  lemma NumberPartOf(number: Option<nat>)
    ensures NumberPart(NumberPrefix(number), number)
  {
    hide DigitsValue;
    if number.Some? {
      var n, part := number.value, NumberPrefix(number);
      DecimalValue(n);
      DecimalHead(n);
      if n < 10 {
        PaddedValue(n);
        assert part[..|part| - 1] == "0" + Decimal(n);
      } else {
        assert part[..|part| - 1] == Decimal(n);
      }
    }
  }

  lemma PaddedValue(n: nat)
    requires n < 10
    ensures AllDigits("0" + Decimal(n)) && DigitsValue("0" + Decimal(n)) == n
  {
    var s := "0" + Decimal(n);
    assert s[..1] == "0" && "0"[..0] == "";
    assert DigitsValue("0") == 0;
  }

  lemma {:induction false} DecimalHead(n: nat)
    ensures n > 0 ==> Decimal(n)[0] != '0'
    ensures n < 10 ==> |Decimal(n)| == 1
    ensures n >= 10 ==> |Decimal(n)| >= 2
  {
    if n >= 10 {
      DecimalHead(n / 10);
    }
  }

  function FileIdsOf(l: Label): FileIds {
    var k := KeysFrom(Slug(l.artist), Slug(l.album), Slug(l.title), l.number, l.extension);
    FileIds(k.artist, k.album, k.track, k.rendition, k.cover)
  }

  lemma FileIdsAre(l: Label)
    ensures IdsOf(FileIdsOf(l), l)
  {
    hide Slug, NumberPart, NumberPrefix;
    NumberPartOf(l.number);
  }

  /** A file with a label whose rows are all accepted: the rows and the counters, and that it is not skipped. */
  lemma IndexedFileWrites(s: Scan, f: MediaFile, l: Label, refuses: Refusals) returns (rows: FileRows, ids: FileIds)
    requires Labelled(f, l) && forall n :: !refuses(n)
    ensures IdsOf(ids, l) && RowsFor(rows, s, f, l, ids) && Adds(s, ScanFile(s, f, refuses), rows, ids)
  {
    hide Slug, IdsOf, Labelled, KeysFrom, PlaceOf;
    ids := FileIdsOf(l);
    FileIdsAre(l);
    LabelledIsPlaced(f, l);
    var p := PlaceOf(f).value;
    assert p.keys == Keys(ids.artist, ids.album, ids.track, ids.rendition, ids.cover);
    rows := PlacedRows(s, p, f);
    PlacedWrites(s, p, f, refuses);
    PlacedRowsFor(s, p, f, l, ids);
  }

  lemma PlacedRowsFor(s: Scan, p: Placed, f: MediaFile, l: Label, ids: FileIds)
    requires p.path == TrackPath(l.artist, l.album, l.title, l.number, l.extension) && IdsOf(ids, l)
    requires p.albumSlug == Slug(l.album) && p.trackSlug == Slug(l.title)
    requires p.keys == Keys(ids.artist, ids.album, ids.track, ids.rendition, ids.cover)
    ensures RowsFor(PlacedRows(s, p, f), s, f, l, ids)
  {
    hide Slug, NumberPart;
  }

  /** The same rows, from the scanner's own helpers. */
  function PlacedRows(s: Scan, p: Placed, f: MediaFile): FileRows {
    var k := p.keys;
    FileRows(
      if k.album !in s.albums && f.cover.Some? && k.cover !in s.covers then Some(AssetOf(k, f.cover.value)) else None,
      if k.artist !in s.artists then Some(ArtistOf(p, f)) else None,
      if k.album !in s.albums then Some(AlbumOf(p, f, if f.cover.Some? then Some(k.cover) else None)) else None,
      TrackOf(p, f), RenditionOf(p, f))
  }

  lemma AcceptedPut(s: Scan, row: Row, refuses: Refusals)
    requires forall n :: !refuses(n)
    ensures Put(s, row, refuses) == s.(log := s.log + Accepted([row])) && LastOk(Put(s, row, refuses))
  {
    assert Accepted([row]) == [Call(row, true)];
  }

  lemma AcceptedConcat(a: seq<Row>, b: seq<Row>)
    ensures Accepted(a + b) == Accepted(a) + Accepted(b)
  {}

  function AssetRows(rows: FileRows): seq<Row> {
    if rows.asset.Some? then [AssetRow(rows.asset.value)] else []
  }

  function ArtistRows(rows: FileRows): seq<Row> {
    if rows.artist.Some? then [ArtistRow(rows.artist.value)] else []
  }

  function AlbumRows(rows: FileRows): seq<Row> {
    if rows.album.Some? then [AlbumRow(rows.album.value)] else []
  }

  lemma CoverAccepted(s: Scan, p: Placed, f: MediaFile, refuses: Refusals)
    requires forall n :: !refuses(n)
    ensures var rows, k := PlacedRows(s, p, f), p.keys;
            var s' := WithCover(s, k, f.cover, refuses);
            && s' == s.(log := s.log + Accepted(AssetRows(rows)),
                        covers := s.covers + (if rows.asset.Some? then {k.cover} else {}),
                        report := s.report.(covers := s.report.covers + One(rows.asset.Some?)))
            && CoverId(s', k, f.cover) == if k.album !in s.albums && f.cover.Some? then Some(k.cover) else None
  {
    hide Put, Accepted, LastOk;
    NothingAccepted();
    if PlacedRows(s, p, f).asset.Some? {
      AcceptedPut(s, AssetRow(AssetOf(p.keys, f.cover.value)), refuses);
    }
  }

  lemma ArtistAccepted(s: Scan, a: Artist, refuses: Refusals)
    requires forall n :: !refuses(n)
    ensures var unseen := a.id !in s.artists;
            WithArtist(s, a, refuses) ==
            s.(log := s.log + Accepted(if unseen then [ArtistRow(a)] else []), artists := s.artists + {a.id},
               report := s.report.(artists := s.report.artists + One(unseen)))
  {
    hide Put, Accepted, LastOk;
    NothingAccepted();
    AcceptedPut(s, ArtistRow(a), refuses);
  }

  lemma AlbumAccepted(s: Scan, a: Album, refuses: Refusals)
    requires forall n :: !refuses(n)
    ensures var unseen := a.id !in s.albums;
            WithAlbum(s, a, refuses) ==
            s.(log := s.log + Accepted(if unseen then [AlbumRow(a)] else []), albums := s.albums + {a.id},
               report := s.report.(albums := s.report.albums + One(unseen)))
  {
    hide Put, Accepted, LastOk;
    NothingAccepted();
    AcceptedPut(s, AlbumRow(a), refuses);
  }

  lemma TrackAccepted(s: Scan, t: Track, r: Rendition, refuses: Refusals)
    requires forall n :: !refuses(n)
    ensures WithTrack(s, t, r, refuses) ==
            s.(log := s.log + Accepted([TrackRow(t), RenditionRow(r)]),
               report := s.report.(tracks := s.report.tracks + 1, renditions := s.report.renditions + 1))
  {
    hide Put, Accepted, LastOk;
    AcceptedPut(s, TrackRow(t), refuses);
    var s' := Put(s, TrackRow(t), refuses);
    AcceptedPut(s'.(report := s'.report.(tracks := s'.report.tracks + 1)), RenditionRow(r), refuses);
    AcceptedConcat([TrackRow(t)], [RenditionRow(r)]);
    assert [TrackRow(t)] + [RenditionRow(r)] == [TrackRow(t), RenditionRow(r)];
  }

  lemma PlacedWrites(s: Scan, p: Placed, f: MediaFile, refuses: Refusals)
    requires forall n :: !refuses(n)
    ensures var k := p.keys;
            Adds(s, ScanPlaced(s, p, f, refuses), PlacedRows(s, p, f),
                 FileIds(k.artist, k.album, k.track, k.rendition, k.cover))
  {
    hide Accepted, WithCover, WithArtist, WithAlbum, WithTrack, CoverId;
    var k, rows := p.keys, PlacedRows(s, p, f);
    CoverAccepted(s, p, f, refuses);
    var s1 := WithCover(s, k, f.cover, refuses);
    ArtistAccepted(s1, ArtistOf(p, f), refuses);
    var s2 := WithArtist(s1, ArtistOf(p, f), refuses);
    var album := AlbumOf(p, f, CoverId(s1, k, f.cover));
    assert rows.album.Some? ==> album == rows.album.value;
    AlbumAccepted(s2, album, refuses);
    var s3 := WithAlbum(s2, album, refuses);
    TrackAccepted(s3, rows.track, rows.rendition, refuses);
    Logged(s.log, rows);
  }

  lemma Logged(log: seq<Call>, rows: FileRows)
    ensures log + Accepted(AssetRows(rows)) + Accepted(ArtistRows(rows)) + Accepted(AlbumRows(rows))
              + Accepted([TrackRow(rows.track), RenditionRow(rows.rendition)]) == log + Accepted(rows.Rows())
  {
    hide Accepted;
    var a, b, c, d := AssetRows(rows), ArtistRows(rows), AlbumRows(rows),
      [TrackRow(rows.track), RenditionRow(rows.rendition)];
    AcceptedConcat(a, b);
    AcceptedConcat(a + b, c);
    AcceptedConcat(a + b + c, d);
    assert rows.Rows() == a + b + c + d;
  }

  lemma NothingAccepted()
    ensures Accepted([]) == []
  {}

  /** A file without a label is counted as skipped, and that is all. */
  lemma OtherFileIsSkipped(s: Scan, f: MediaFile, refuses: Refusals)
    requires !exists l :: Labelled(f, l)
    ensures ScanFile(s, f, refuses) == s.(report := s.report.(skipped := s.report.skipped + 1))
  {
    hide Labelled, PlaceOf;
    IndexedExactly(f);
  }

  // ---------- a library ----------

  ghost predicate IsIndexed(f: MediaFile) {
    exists l :: Labelled(f, l)
  }

  ghost function IndexedFiles(entries: seq<Entry>): nat {
    if entries == [] then 0
    else
      var e := entries[|entries| - 1];
      IndexedFiles(entries[..|entries| - 1]) + if e.Regular? && IsIndexed(e.file) then 1 else 0
  }

  ghost function OtherFiles(entries: seq<Entry>): nat {
    if entries == [] then 0
    else
      var e := entries[|entries| - 1];
      OtherFiles(entries[..|entries| - 1]) + if e.Regular? && !IsIndexed(e.file) then 1 else 0
  }

  /** Where nothing is refused, each file with a label has its track and its rendition, and the others are skipped. */
  lemma {:induction false} LibraryIsIndexed(log: seq<Call>, entries: seq<Entry>, refuses: Refusals)
    requires forall n :: !refuses(n)
    ensures var r := ScanAll(log, entries, refuses).report;
            r.tracks == r.renditions == IndexedFiles(entries) && r.skipped == OtherFiles(entries) && r.errors == []
  {
    hide ScanFile, Labelled, Adds, RowsFor, IdsOf;
    if entries != [] {
      var n := |entries| - 1;
      LibraryIsIndexed(log, entries[..n], refuses);
      var before := ScanAll(log, entries[..n], refuses);
      if entries[n].Regular? {
        FileIsCounted(before, entries[n].file, refuses);
      }
    }
  }

  lemma FileIsCounted(s: Scan, f: MediaFile, refuses: Refusals)
    requires forall n :: !refuses(n)
    ensures var r := ScanFile(s, f, refuses).report;
            && r.tracks == s.report.tracks + One(IsIndexed(f))
            && r.renditions == s.report.renditions + One(IsIndexed(f))
            && r.skipped == s.report.skipped + One(!IsIndexed(f)) && r.errors == s.report.errors
  {
    hide ScanFile, Labelled, RowsFor, IdsOf, Accepted;
    if l :| Labelled(f, l) {
      var rows, ids := IndexedFileWrites(s, f, l, refuses);
    } else {
      OtherFileIsSkipped(s, f, refuses);
    }
  }
}
