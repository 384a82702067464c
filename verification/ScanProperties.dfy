/** What a scan promises of its calls and its report, for every library and every pattern of refusals. */
module ScanProperties {
  import opened Wrappers
  import opened PathLayout
  import opened ScannerIds
  import opened Catalog
  import opened MediaScanner

  /** The names of rows. */
  datatype Ref = ArtistRef(id: string) | AlbumRef(id: string) | TrackRef(id: string) | RenditionRef(id: string)
               | AssetRef(id: string) | UpdateId

  function RefOf(row: Row): Ref {
    match row
    case ArtistRow(a) => ArtistRef(a.id)
    case AlbumRow(a) => AlbumRef(a.id)
    case TrackRow(t) => TrackRef(t.id)
    case RenditionRow(r) => RenditionRef(r.id)
    case AssetRow(a) => AssetRef(a.id)
    case UpdateIdBump => UpdateId
  }

  /** The rows that a row refers to. */
  function Needs(row: Row): set<Ref> {
    match row
    case AlbumRow(a) => {ArtistRef(a.artistId)} + if a.cover.Some? then {AssetRef(a.cover.value)} else {}
    case TrackRow(t) => {AlbumRef(t.albumId), ArtistRef(t.artistId)}
    case RenditionRow(r) => {TrackRef(r.trackId)}
    case _ => {}
  }

  /** The row was written by one of the calls from number `from` to in front of number `until`. */
  ghost predicate Wrote(log: seq<Call>, from: nat, until: nat, ref: Ref) {
    exists j :: from <= j < until <= |log| && log[j].ok && RefOf(log[j].row) == ref
  }

  /** Every call refers only to rows that calls of this scan in front of it have written. */
  ghost predicate RefsClosed(log: seq<Call>, from: nat) {
    forall i, ref :: from <= i < |log| && ref in Needs(log[i].row) ==> Wrote(log, from, i, ref)
  }

  function Tally(log: seq<Call>, from: nat, counted: Call -> bool): nat {
    if |log| <= from then 0
    else Tally(log[..|log| - 1], from, counted) + if counted(log[|log| - 1]) then 1 else 0
  }

  const ArtistWritten: Call -> bool := (c: Call) => c.ok && c.row.ArtistRow?
  const AlbumWritten: Call -> bool := (c: Call) => c.ok && c.row.AlbumRow?
  const TrackWritten: Call -> bool := (c: Call) => c.ok && c.row.TrackRow?
  const RenditionWritten: Call -> bool := (c: Call) => c.ok && c.row.RenditionRow?
  const AssetWritten: Call -> bool := (c: Call) => c.ok && c.row.AssetRow?
  const IsRefused: Call -> bool := (c: Call) => !c.ok
  /** The refusals after which a file is given up. */
  const Drops: Call -> bool := (c: Call) => !c.ok && (c.row.ArtistRow? || c.row.AlbumRow? || c.row.TrackRow?)

  /** Ids that mean themselves as object ids, and that need no escaping anywhere. */
  predicate NamedRow(row: Row) {
    var id := if row.UpdateIdBump? then "-" else if row.AssetRow? then "-" else RefOf(row).id;
    id != "" && IsIdText(id) && (row.ArtistRow? ==> ':' !in id)
  }

  ghost predicate Seen(s: Scan, from: nat) {
    && |s.log| >= from
    && (forall id :: id in s.artists <==> Wrote(s.log, from, |s.log|, ArtistRef(id)))
    && (forall id :: id in s.albums <==> Wrote(s.log, from, |s.log|, AlbumRef(id)))
    && (forall id :: id in s.covers <==> Wrote(s.log, from, |s.log|, AssetRef(id)))
  }

  ghost predicate Counted(s: Scan, from: nat) {
    && s.report.artists == |s.artists| == Tally(s.log, from, ArtistWritten)
    && s.report.albums == |s.albums| == Tally(s.log, from, AlbumWritten)
    && s.report.covers == |s.covers| == Tally(s.log, from, AssetWritten)
    && s.report.tracks == Tally(s.log, from, TrackWritten)
    && s.report.renditions == Tally(s.log, from, RenditionWritten)
  }

  ghost predicate WellLogged(log: seq<Call>, from: nat) {
    RefsClosed(log, from) && forall i :: from <= i < |log| ==> NamedRow(log[i].row) && !log[i].row.UpdateIdBump?
  }

  ghost predicate ScanInv(s: Scan, from: nat) {
    Seen(s, from) && Counted(s, from) && WellLogged(s.log, from)
  }

  // ---------- one call ----------

  lemma WroteOne(log: seq<Call>, c: Call, from: nat, ref: Ref)
    requires from <= |log|
    ensures Wrote(log + [c], from, |log| + 1, ref) <==> Wrote(log, from, |log|, ref) || (c.ok && RefOf(c.row) == ref)
  {
    var more := log + [c];
    if j :| from <= j < |log| && log[j].ok && RefOf(log[j].row) == ref {
      assert more[j] == log[j];
    }
    if c.ok && RefOf(c.row) == ref {
      assert more[|log|] == c;
    }
  }

  lemma WroteEarlier(log: seq<Call>, c: Call, from: nat, until: nat, ref: Ref)
    requires until <= |log| && Wrote(log, from, until, ref)
    ensures Wrote(log + [c], from, until, ref)
  {
    var j :| from <= j < until && log[j].ok && RefOf(log[j].row) == ref;
    assert (log + [c])[j] == log[j];
  }

  lemma LoggedOne(log: seq<Call>, c: Call, from: nat)
    requires from <= |log| && RefsClosed(log, from) && forall ref :: ref in Needs(c.row) ==>
             Wrote(log, from, |log|, ref)
    ensures RefsClosed(log + [c], from)
  {
    hide Wrote, Needs;
    var more := log + [c];
    forall i, ref | from <= i < |more| && ref in Needs(more[i].row) ensures Wrote(more, from, i, ref) {
      assert i < |log| ==> more[i] == log[i];
      WroteEarlier(log, c, from, i, ref);
    }
  }

  lemma TallyOne(log: seq<Call>, c: Call, from: nat, counted: Call -> bool)
    requires from <= |log|
    ensures Tally(log + [c], from, counted) == Tally(log, from, counted) + if counted(c) then 1 else 0
  {
    assert (log + [c])[..|log|] == log;
  }

  /** The call of a row whose references are written: what it adds to each part of the invariant. */
  lemma PutLogged(s: Scan, row: Row, refuses: Refusals, from: nat)
    requires |s.log| >= from && WellLogged(s.log, from) && NamedRow(row) && !row.UpdateIdBump?
    requires forall ref :: ref in Needs(row) ==> Wrote(s.log, from, |s.log|, ref)
    ensures WellLogged(Put(s, row, refuses).log, from)
  {
    hide RefsClosed, Needs, Wrote, NamedRow;
    LoggedOne(s.log, Call(row, !refuses(|s.log|)), from);
  }

  lemma PutWrote(s: Scan, row: Row, refuses: Refusals, from: nat, ref: Ref)
    requires |s.log| >= from
    ensures var s' := Put(s, row, refuses);
            Wrote(s'.log, from, |s'.log|, ref) <==>
              Wrote(s.log, from, |s.log|, ref) || (LastOk(s') && RefOf(row) == ref)
  {
    WroteOne(s.log, Call(row, !refuses(|s.log|)), from, ref);
  }

  lemma PutWroteAll(s: Scan, row: Row, refuses: Refusals, from: nat)
    requires |s.log| >= from
    ensures var s' := Put(s, row, refuses);
            forall ref :: Wrote(s'.log, from, |s'.log|, ref) <==>
              Wrote(s.log, from, |s.log|, ref) || (LastOk(s') && RefOf(row) == ref)
  {
    hide Put, LastOk;
    forall ref
      ensures var s' := Put(s, row, refuses);
              Wrote(s'.log, from, |s'.log|, ref) <==>
                Wrote(s.log, from, |s.log|, ref) || (LastOk(s') && RefOf(row) == ref)
    {
      PutWrote(s, row, refuses, from, ref);
    }
  }

  lemma PutTallies(s: Scan, row: Row, refuses: Refusals, from: nat)
    requires |s.log| >= from
    ensures var s' := Put(s, row, refuses);
            var one := if LastOk(s') then 1 else 0;
            && Tally(s'.log, from, ArtistWritten) == Tally(s.log, from, ArtistWritten) + (if row.ArtistRow?
                 then one else 0)
            && Tally(s'.log, from, AlbumWritten) == Tally(s.log, from, AlbumWritten) + (if row.AlbumRow?
                 then one else 0)
            && Tally(s'.log, from, AssetWritten) == Tally(s.log, from, AssetWritten) + (if row.AssetRow?
                 then one else 0)
            && Tally(s'.log, from, TrackWritten) == Tally(s.log, from, TrackWritten) + (if row.TrackRow?
                 then one else 0)
            && Tally(s'.log, from, RenditionWritten) ==
                 Tally(s.log, from, RenditionWritten) + (if row.RenditionRow? then one else 0)
  {
    hide Tally;
    var c := Call(row, !refuses(|s.log|));
    TallyOne(s.log, c, from, ArtistWritten);
    TallyOne(s.log, c, from, AlbumWritten);
    TallyOne(s.log, c, from, AssetWritten);
    TallyOne(s.log, c, from, TrackWritten);
    TallyOne(s.log, c, from, RenditionWritten);
  }

  // ---------- the steps of a file ----------

  lemma CoverSeen(s: Scan, k: Keys, cover: Option<Cover>, refuses: Refusals, from: nat)
    requires Seen(s, from)
    ensures Seen(WithCover(s, k, cover, refuses), from)
  {
    hide Wrote;
    if cover.Some? {
      PutWroteAll(s, AssetRow(AssetOf(k, cover.value)), refuses, from);
    }
  }

  lemma CoverCounted(s: Scan, k: Keys, cover: Option<Cover>, refuses: Refusals, from: nat)
    requires |s.log| >= from && Counted(s, from)
    ensures Counted(WithCover(s, k, cover, refuses), from)
  {
    hide Tally;
    if cover.Some? {
      PutTallies(s, AssetRow(AssetOf(k, cover.value)), refuses, from);
    }
  }

  lemma CoverLogged(s: Scan, k: Keys, cover: Option<Cover>, refuses: Refusals, from: nat)
    requires |s.log| >= from && WellLogged(s.log, from)
    ensures WellLogged(WithCover(s, k, cover, refuses).log, from)
  {
    hide WellLogged, Wrote, Needs, NamedRow;
    if cover.Some? {
      AssetsNeedNothing(AssetOf(k, cover.value));
      PutLogged(s, AssetRow(AssetOf(k, cover.value)), refuses, from);
    }
  }

  lemma CoverKeeps(s: Scan, k: Keys, cover: Option<Cover>, refuses: Refusals, from: nat)
    requires ScanInv(s, from)
    ensures ScanInv(WithCover(s, k, cover, refuses), from)
  {
    hide Seen, Counted, WellLogged, WithCover;
    assert |s.log| >= from by { SeenFrom(s, from); }
    CoverSeen(s, k, cover, refuses, from);
    CoverCounted(s, k, cover, refuses, from);
    CoverLogged(s, k, cover, refuses, from);
  }

  lemma AssetsNeedNothing(a: Asset)
    ensures NamedRow(AssetRow(a)) && Needs(AssetRow(a)) == {}
  {}

  lemma CoverWritten(s: Scan, k: Keys, cover: Option<Cover>, from: nat)
    requires Seen(s, from)
    ensures var id := CoverId(s, k, cover); id.Some? ==> Wrote(s.log, from, |s.log|, AssetRef(id.value))
  {
    hide Wrote;
  }

  lemma ArtistSeen(s: Scan, a: Artist, refuses: Refusals, from: nat)
    requires Seen(s, from)
    ensures Seen(WithArtist(s, a, refuses), from)
  {
    hide Wrote;
    PutWroteAll(s, ArtistRow(a), refuses, from);
  }

  lemma ArtistCounted(s: Scan, a: Artist, refuses: Refusals, from: nat)
    requires |s.log| >= from && Counted(s, from)
    ensures Counted(WithArtist(s, a, refuses), from)
  {
    hide Tally;
    PutTallies(s, ArtistRow(a), refuses, from);
  }

  lemma ArtistLogged(s: Scan, a: Artist, refuses: Refusals, from: nat)
    requires |s.log| >= from && WellLogged(s.log, from) && NamedRow(ArtistRow(a))
    requires forall ref :: ref in Needs(ArtistRow(a)) ==> Wrote(s.log, from, |s.log|, ref)
    ensures WellLogged(WithArtist(s, a, refuses).log, from)
  {
    hide WellLogged, Wrote, Needs, NamedRow;
    PutLogged(s, ArtistRow(a), refuses, from);
  }

  lemma ArtistKeeps(s: Scan, a: Artist, refuses: Refusals, from: nat)
    requires ScanInv(s, from) && NamedRow(ArtistRow(a))
    ensures ScanInv(WithArtist(s, a, refuses), from)
  {
    hide Seen, Counted, WellLogged, NamedRow, WithArtist;
    assert |s.log| >= from by { SeenFrom(s, from); }
    ArtistSeen(s, a, refuses, from);
    ArtistCounted(s, a, refuses, from);
    ArtistLogged(s, a, refuses, from);
  }

  lemma SeenFrom(s: Scan, from: nat)
    requires Seen(s, from)
    ensures |s.log| >= from
  {}

  lemma AlbumSeen(s: Scan, a: Album, refuses: Refusals, from: nat)
    requires Seen(s, from)
    ensures Seen(WithAlbum(s, a, refuses), from)
  {
    hide Wrote;
    PutWroteAll(s, AlbumRow(a), refuses, from);
  }

  lemma AlbumCounted(s: Scan, a: Album, refuses: Refusals, from: nat)
    requires |s.log| >= from && Counted(s, from)
    ensures Counted(WithAlbum(s, a, refuses), from)
  {
    hide Tally;
    PutTallies(s, AlbumRow(a), refuses, from);
  }

  lemma AlbumLogged(s: Scan, a: Album, refuses: Refusals, from: nat)
    requires |s.log| >= from && WellLogged(s.log, from) && NamedRow(AlbumRow(a))
    requires forall ref :: ref in Needs(AlbumRow(a)) ==> Wrote(s.log, from, |s.log|, ref)
    ensures WellLogged(WithAlbum(s, a, refuses).log, from)
  {
    hide WellLogged, Wrote, Needs, NamedRow;
    PutLogged(s, AlbumRow(a), refuses, from);
  }

  lemma AlbumKeeps(s: Scan, a: Album, refuses: Refusals, from: nat)
    requires ScanInv(s, from) && NamedRow(AlbumRow(a))
    requires forall ref :: ref in Needs(AlbumRow(a)) ==> Wrote(s.log, from, |s.log|, ref)
    ensures ScanInv(WithAlbum(s, a, refuses), from)
  {
    hide Seen, Counted, WellLogged, NamedRow, WithAlbum, Needs, Wrote;
    assert |s.log| >= from by { SeenFrom(s, from); }
    AlbumSeen(s, a, refuses, from);
    AlbumCounted(s, a, refuses, from);
    AlbumLogged(s, a, refuses, from);
  }

  /** A row that no dedupe set remembers. */
  lemma OtherKeeps(s: Scan, row: Row, refuses: Refusals, from: nat)
    requires ScanInv(s, from) && NamedRow(row) && (row.TrackRow? || row.RenditionRow?)
    requires forall ref :: ref in Needs(row) ==> Wrote(s.log, from, |s.log|, ref)
    ensures var s' := Put(s, row, refuses);
            Seen(s', from) && WellLogged(s'.log, from) && (LastOk(s') ==> Wrote(s'.log, from, |s'.log|, RefOf(row)))
  {
    hide WellLogged, Wrote, Tally, NamedRow, Needs, Counted;
    PutLogged(s, row, refuses, from);
    PutWroteAll(s, row, refuses, from);
  }

  lemma TrackKeeps(s: Scan, t: Track, r: Rendition, refuses: Refusals, from: nat)
    requires ScanInv(s, from) && NamedRow(TrackRow(t)) && NamedRow(RenditionRow(r)) && r.trackId == t.id
    requires forall ref :: ref in Needs(TrackRow(t)) ==> Wrote(s.log, from, |s.log|, ref)
    ensures ScanInv(WithTrack(s, t, r, refuses), from)
  {
    hide WellLogged, Wrote, Tally, NamedRow;
    OtherKeeps(s, TrackRow(t), refuses, from);
    PutTallies(s, TrackRow(t), refuses, from);
    var s1 := Put(s, TrackRow(t), refuses);
    if LastOk(s1) {
      var s2 := s1.(report := s1.report.(tracks := s1.report.tracks + 1));
      assert ScanInv(s2, from);
      OtherKeeps(s2, RenditionRow(r), refuses, from);
      PutTallies(s2, RenditionRow(r), refuses, from);
    }
  }

  lemma {:induction false} StaysWritten(s: Scan, s': Scan, from: nat, ref: Ref)
    requires s.log <= s'.log && Wrote(s.log, from, |s.log|, ref)
    ensures Wrote(s'.log, from, |s'.log|, ref)
  {
    var j :| from <= j < |s.log| && s.log[j].ok && RefOf(s.log[j].row) == ref;
    assert s'.log[j] == s.log[j];
  }

  lemma PlacedNames(f: MediaFile, cover: Option<string>)
    requires PlaceOf(f).Some?
    ensures var p := PlaceOf(f).value;
            NamedRow(ArtistRow(ArtistOf(p, f))) && NamedRow(AlbumRow(AlbumOf(p, f, cover)))
            && NamedRow(TrackRow(TrackOf(p, f))) && NamedRow(RenditionRow(RenditionOf(p, f)))
  {
    hide Slug, IsSlug, IsIdText, ParsedPath, NumberPrefix;
    var p := PlaceOf(f).value;
    SlugShape(p.path.artist);
    SlugShape(p.path.album);
    SlugShape(p.path.title);
    NoColon(Slug(p.path.artist));
    KeysAreIdText(Slug(p.path.artist), p.albumSlug, p.trackSlug, p.path.number, p.path.extension);
  }

  lemma PlacedKeeps(s: Scan, f: MediaFile, refuses: Refusals, from: nat)
    requires ScanInv(s, from) && PlaceOf(f).Some?
    ensures ScanInv(ScanPlaced(s, PlaceOf(f).value, f, refuses), from)
  {
    hide WithCover, WithArtist, WithAlbum, WithTrack, NamedRow, Counted, WellLogged, Wrote, PlaceOf;
    var p := PlaceOf(f).value;
    var s1 := WithCover(s, p.keys, f.cover, refuses);
    var album := AlbumOf(p, f, CoverId(s1, p.keys, f.cover));
    PlacedNames(f, album.cover);
    CoverKeeps(s, p.keys, f.cover, refuses, from);
    CoverWritten(s1, p.keys, f.cover, from);
    ArtistKeeps(s1, ArtistOf(p, f), refuses, from);
    var s2 := WithArtist(s1, ArtistOf(p, f), refuses);
    if p.keys.artist in s2.artists {
      ArtistAppends(s1, ArtistOf(p, f), refuses);
      if album.cover.Some? {
        StaysWritten(s1, s2, from, AssetRef(album.cover.value));
      }
      AlbumKeeps(s2, album, refuses, from);
      var s3 := WithAlbum(s2, album, refuses);
      if p.keys.album in s3.albums {
        AlbumAppends(s2, album, refuses);
        StaysWritten(s2, s3, from, ArtistRef(p.keys.artist));
        TrackKeeps(s3, TrackOf(p, f), RenditionOf(p, f), refuses, from);
      }
    }
  }

  lemma ArtistAppends(s: Scan, a: Artist, refuses: Refusals)
    ensures s.log <= WithArtist(s, a, refuses).log
  {}

  lemma AlbumAppends(s: Scan, a: Album, refuses: Refusals)
    ensures s.log <= WithAlbum(s, a, refuses).log
  {}

  /** Every prefix of a library leaves a scan with closed references and honest counters. */
  lemma {:induction false} ScanKeeps(log: seq<Call>, entries: seq<Entry>, refuses: Refusals)
    ensures ScanInv(ScanAll(log, entries, refuses), |log|)
  {
    hide ScanPlaced, PlaceOf, Wrote;
    if entries == [] {
      NothingWritten(log);
    } else {
      var before := ScanAll(log, entries[..|entries| - 1], refuses);
      ScanKeeps(log, entries[..|entries| - 1], refuses);
      var e := entries[|entries| - 1];
      if e.Regular? && PlaceOf(e.file).Some? {
        PlacedKeeps(before, e.file, refuses, |log|);
      }
    }
  }

  lemma NothingWritten(log: seq<Call>)
    ensures forall ref :: !Wrote(log, |log|, |log|, ref)
  {}

  // ---------- every file is accounted for ----------

  function Files(entries: seq<Entry>): nat {
    if entries == [] then 0 else Files(entries[..|entries| - 1]) + if entries[|entries| - 1].Regular? then 1 else 0
  }

  /** What one file or one step adds to the three ways in which a file can end, and to the errors. */
  datatype Balance = Balance(ended: nat, errors: int)

  ghost function BalanceOf(s: Scan, from: nat): Balance {
    Balance(s.report.skipped + s.report.tracks + Tally(s.log, from, Drops),
            |s.report.errors| - Tally(s.log, from, IsRefused))
  }

  lemma PutBalance(s: Scan, row: Row, refuses: Refusals, from: nat)
    requires |s.log| >= from
    ensures var s' := Put(s, row, refuses);
            BalanceOf(s', from) ==
              BalanceOf(s, from).(ended := BalanceOf(s, from).ended + if Drops(Call(row, LastOk(s'))) then 1 else 0)
            && |s'.log| >= from
  {
    var c := Call(row, !refuses(|s.log|));
    TallyOne(s.log, c, from, Drops);
    TallyOne(s.log, c, from, IsRefused);
  }

  lemma CoverBalance(s: Scan, k: Keys, cover: Option<Cover>, refuses: Refusals, from: nat)
    requires |s.log| >= from
    ensures var s' := WithCover(s, k, cover, refuses); BalanceOf(s', from) == BalanceOf(s, from) && |s'.log| >= from
  {
    if cover.Some? {
      PutBalance(s, AssetRow(AssetOf(k, cover.value)), refuses, from);
    }
  }

  lemma ArtistBalance(s: Scan, a: Artist, refuses: Refusals, from: nat)
    requires |s.log| >= from
    ensures var s' := WithArtist(s, a, refuses);
            var b := BalanceOf(s, from);
            BalanceOf(s', from) == b.(ended := b.ended + if a.id in s'.artists then 0 else 1)
            && |s'.log| >= from
  {
    PutBalance(s, ArtistRow(a), refuses, from);
  }

  lemma AlbumBalance(s: Scan, a: Album, refuses: Refusals, from: nat)
    requires |s.log| >= from
    ensures var s' := WithAlbum(s, a, refuses);
            var b := BalanceOf(s, from);
            BalanceOf(s', from) == b.(ended := b.ended + if a.id in s'.albums then 0 else 1)
            && |s'.log| >= from
  {
    PutBalance(s, AlbumRow(a), refuses, from);
  }

  lemma TrackBalance(s: Scan, t: Track, r: Rendition, refuses: Refusals, from: nat)
    requires |s.log| >= from
    ensures var s' := WithTrack(s, t, r, refuses);
            BalanceOf(s', from) == BalanceOf(s, from).(ended := BalanceOf(s, from).ended + 1) && |s'.log| >= from
  {
    PutBalance(s, TrackRow(t), refuses, from);
    var s1 := Put(s, TrackRow(t), refuses);
    if LastOk(s1) {
      PutBalance(s1.(report := s1.report.(tracks := s1.report.tracks + 1)), RenditionRow(r), refuses, from);
    }
  }

  lemma FileBalance(s: Scan, f: MediaFile, refuses: Refusals, from: nat)
    requires |s.log| >= from
    ensures var s' := ScanFile(s, f, refuses);
            BalanceOf(s', from) == BalanceOf(s, from).(ended := BalanceOf(s, from).ended + 1) && |s'.log| >= from
  {
    hide WithCover, WithArtist, WithAlbum, WithTrack, CoverId, PlaceOf, BalanceOf;
    var place := PlaceOf(f);
    if place.None? {
      SkipBalance(s, from);
    } else {
      var p := place.value;
      var s1 := WithCover(s, p.keys, f.cover, refuses);
      CoverBalance(s, p.keys, f.cover, refuses, from);
      ArtistBalance(s1, ArtistOf(p, f), refuses, from);
      var s2 := WithArtist(s1, ArtistOf(p, f), refuses);
      var album := AlbumOf(p, f, CoverId(s1, p.keys, f.cover));
      AlbumBalance(s2, album, refuses, from);
      TrackBalance(WithAlbum(s2, album, refuses), TrackOf(p, f), RenditionOf(p, f), refuses, from);
    }
  }

  lemma SkipBalance(s: Scan, from: nat)
    ensures BalanceOf(Skip(s), from) == BalanceOf(s, from).(ended := BalanceOf(s, from).ended + 1)
  {}

  /**
   Every regular file that the walk comes to ends in one way: skipped, its track written, or given up over
   one refusal. And every refusal is reported once, with nothing else reported.
   */
  lemma {:induction false} EveryFileCounted(log: seq<Call>, entries: seq<Entry>, refuses: Refusals)
    ensures var s := ScanAll(log, entries, refuses);
            && |s.log| >= |log|
            && s.report.skipped + s.report.tracks + Tally(s.log, |log|, Drops) == Files(entries)
            && |s.report.errors| == Tally(s.log, |log|, IsRefused)
  {
    hide ScanFile, Tally;
    if entries == [] {
      TallyNothing(log);
    } else {
      var before := ScanAll(log, entries[..|entries| - 1], refuses);
      EveryFileCounted(log, entries[..|entries| - 1], refuses);
      var e := entries[|entries| - 1];
      if e.Regular? {
        FileBalance(before, e.file, refuses, |log|);
      }
    }
  }

  lemma TallyNothing(log: seq<Call>)
    ensures forall counted :: Tally(log, |log|, counted) == 0
  {}

  lemma {:induction false} FilesSplit(entries: seq<Entry>, n: nat)
    requires n <= |entries|
    ensures Files(entries) == Files(entries[..n]) + Files(entries[n..])
  {
    if n == |entries| {
      assert entries[..n] == entries;
    } else {
      var last := |entries| - 1;
      FilesSplit(entries[..last], n);
      assert entries[..last][..n] == entries[..n] && entries[..last][n..] == entries[n..][..last - n];
    }
  }

  /** What a walk leaves out. */
  function Unseen(entries: seq<Entry>, breaks: Option<nat>): seq<Entry> {
    if breaks.Some? && breaks.value < |entries| then entries[breaks.value + 1..] else []
  }

  /**
   A walk that breaks is not reported: its errors are the refusals alone, whether or not it came to every
   file. So its report accounts for every file of the library exactly when the break left none unseen.
   */
  lemma CompleteExactly(log: seq<Call>, entries: seq<Entry>, breaks: Option<nat>, refuses: Refusals)
    ensures var s := Finish(ScanAll(log, Reached(entries, breaks), refuses), refuses);
            && |s.log| >= |log|
            && |s.report.errors| == Tally(s.log, |log|, IsRefused)
            && (s.report.skipped + s.report.tracks + Tally(s.log, |log|, Drops) == Files(entries)
                <==> Files(Unseen(entries, breaks)) == 0)
  {
    hide ScanAll, Tally;
    var reached := Reached(entries, breaks);
    EveryFileCounted(log, reached, refuses);
    PutBalance(ScanAll(log, reached, refuses), UpdateIdBump, refuses, |log|);
    FilesSplit(entries, |reached|);
  }

  /** The update id is bumped once, by the last call, and no earlier call of the scan bumps it. */
  lemma BumpedOnceLast(log: seq<Call>, entries: seq<Entry>, refuses: Refusals)
    ensures var s := Finish(ScanAll(log, entries, refuses), refuses);
            && |s.log| > |log| && s.log[|s.log| - 1].row == UpdateIdBump
            && forall i :: |log| <= i < |s.log| - 1 ==> s.log[i].row != UpdateIdBump
  {
    hide ScanAll, Seen, Counted, RefsClosed, NamedRow;
    EveryFileCounted(log, entries, refuses);
    ScanKeeps(log, entries, refuses);
  }
}
