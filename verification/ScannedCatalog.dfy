/** The catalog that a scan leaves behind: whole, and fit for browsing, after every one of its calls. */
module ScannedCatalog {
  import opened Wrappers
  import opened Text
  import opened XmlText
  import opened SoapParser
  import opened SoapDocument
  import opened SoapMessages
  import opened DlnaClient
  import opened RequestIds
  import opened Listings
  import opened ScannerIds
  import opened ObjectIds
  import opened Catalog
  import opened BrowseTree
  import opened MediaScanner
  import opened ScanProperties

  /** What a writer call that goes through does to the tables. */
  function Apply(t: Tables, row: Row): Tables {
    match row
    case ArtistRow(a) => t.(artists := t.artists[a.id := a])
    case AlbumRow(a) => t.(albums := t.albums[a.id := a])
    case TrackRow(x) => t.(tracks := t.tracks[x.id := x])
    case RenditionRow(r) => t.(renditions := t.renditions[r.trackId := t.RenditionsOf(r.trackId) + [r]])
    case AssetRow(a) => t.(assets := t.assets[a.id := a])
    case UpdateIdBump => t.(updateId := Wrap(t.updateId + 1))
  }

  /** The in-memory repository as a writer. */
  method Store(repo: InMemoryRepository, row: Row)
    requires repo.Valid()
    modifies repo
    ensures repo.Valid() && repo.View() == Apply(old(repo.View()), row)
  {
    match row
    case ArtistRow(a) => repo.AddArtist(a);
    case AlbumRow(a) => repo.AddAlbum(a);
    case TrackRow(t) => repo.AddTrack(t);
    case RenditionRow(r) => repo.AddRendition(r);
    case AssetRow(a) => repo.AddAsset(a);
    case UpdateIdBump => repo.BumpSystemUpdateId();
  }

  /** The tables after the calls from number `from` on. */
  function Replay(t: Tables, log: seq<Call>, from: nat): Tables {
    if |log| <= from then t
    else
      var before := Replay(t, log[..|log| - 1], from);
      var c := log[|log| - 1];
      if c.ok then Apply(before, c.row) else before
  }

  // ---------- references ----------

  /** Every reference in the tables is to a row that is there. */
  ghost predicate Whole(t: Tables) {
    && (forall a :: a in t.albums ==> t.albums[a].artistId in t.artists
                                      && (t.albums[a].cover.Some? ==> t.albums[a].cover.value in t.assets))
    && (forall x :: x in t.tracks ==> t.tracks[x].albumId in t.albums && t.tracks[x].artistId in t.artists)
    && (forall x :: x in t.renditions ==> x in t.tracks)
  }

  predicate Has(t: Tables, ref: Ref) {
    match ref
    case ArtistRef(id) => id in t.artists
    case AlbumRef(id) => id in t.albums
    case TrackRef(id) => id in t.tracks
    case AssetRef(id) => id in t.assets
    case _ => true
  }

  lemma ApplyHas(t: Tables, row: Row)
    ensures forall ref :: Has(t, ref) ==> Has(Apply(t, row), ref)
    ensures Has(Apply(t, row), RefOf(row))
  {}

  lemma {:induction false} ReplayHas(t: Tables, log: seq<Call>, from: nat, ref: Ref)
    requires Wrote(log, from, |log|, ref)
    ensures Has(Replay(t, log, from), ref)
  {
    hide Apply, Has;
    var n := |log| - 1;
    var before := Replay(t, log[..n], from);
    ApplyHas(before, log[n].row);
    var j :| from <= j < |log| && log[j].ok && RefOf(log[j].row) == ref;
    if j < n {
      assert log[..n][j] == log[j];
      ReplayHas(t, log[..n], from, ref);
    }
  }

  lemma ApplyValid(t: Tables, row: Row)
    requires t.Valid()
    ensures Apply(t, row).Valid()
  {}

  lemma ApplyWhole(t: Tables, row: Row)
    requires Whole(t) && forall ref :: ref in Needs(row) ==> Has(t, ref)
    ensures Whole(Apply(t, row))
  {
    if row.AlbumRow? {
      assert ArtistRef(row.album.artistId) in Needs(row);
      assert row.album.cover.Some? ==> AssetRef(row.album.cover.value) in Needs(row);
    } else if row.TrackRow? {
      assert AlbumRef(row.track.albumId) in Needs(row) && ArtistRef(row.track.artistId) in Needs(row);
    } else if row.RenditionRow? {
      assert TrackRef(row.rendition.trackId) in Needs(row);
    }
  }

  /** Where no album waits for its artist, well-named rows keep the catalog well named. */
  lemma ApplyWellNamed(t: Tables, row: Row)
    requires Whole(t) && WellNamed(t) && NamedRow(row)
    ensures WellNamed(Apply(t, row))
  {
    hide Legible, IsIdText;
    if row.ArtistRow? {
      NoColonIsLegible(row.artist.id);
    }
  }

  lemma NoColonIsLegible(id: string)
    requires id != "" && ':' !in id
    ensures Legible(ObjectId(Kind.Artist, id))
  {
    if |id| >= 7 {
      assert id[|id| - 7..][0] == id[|id| - 7] && id[|id| - 7] in id && ALBUMS_SUFFIX[0] == ':';
    }
  }

  lemma {:induction false} ReplayKeeps(t: Tables, log: seq<Call>, from: nat)
    requires t.Valid() && Whole(t) && WellNamed(t)
    requires RefsClosed(log, from) && forall i :: from <= i < |log| ==> NamedRow(log[i].row)
    ensures Replay(t, log, from).Valid() && Whole(Replay(t, log, from)) && WellNamed(Replay(t, log, from))
  {
    hide Apply, Has, Needs, Tables.Valid, Whole, WellNamed, NamedRow;
    if |log| > from {
      var n := |log| - 1;
      PrefixClosed(log, from, n);
      ReplayKeeps(t, log[..n], from);
      var before := Replay(t, log[..n], from);
      forall ref | ref in Needs(log[n].row) ensures Has(before, ref) {
        WrotePrefix(log, from, n, ref);
        ReplayHas(t, log[..n], from, ref);
      }
      if log[n].ok {
        ApplyValid(before, log[n].row);
        ApplyWhole(before, log[n].row);
        ApplyWellNamed(before, log[n].row);
      }
    }
  }

  lemma WrotePrefix(log: seq<Call>, from: nat, n: nat, ref: Ref)
    requires n <= |log| && Wrote(log, from, n, ref)
    ensures Wrote(log[..n], from, n, ref)
  {
    var j :| from <= j < n && log[j].ok && RefOf(log[j].row) == ref;
    assert log[..n][j] == log[j];
  }

  lemma PrefixClosed(log: seq<Call>, from: nat, n: nat)
    requires RefsClosed(log, from) && n <= |log|
    ensures RefsClosed(log[..n], from)
  {
    hide Wrote, Needs;
    forall i, ref | from <= i < n && ref in Needs(log[..n][i].row) ensures Wrote(log[..n], from, i, ref) {
      assert log[..n][i] == log[i];
      WrotePrefix(log, from, i, ref);
      assert log[..n][..i] == log[..i];
      WroteLonger(log[..n], from, i, ref);
    }
  }

  lemma WroteLonger(log: seq<Call>, from: nat, until: nat, ref: Ref)
    requires until <= |log| && Wrote(log[..until], from, until, ref)
    ensures Wrote(log, from, until, ref)
  {
    var j :| from <= j < until && log[..until][j].ok && RefOf(log[..until][j].row) == ref;
    assert log[..until][j] == log[j];
  }

  /** The log of a whole scan, the bump included. */
  function ScanLog(log: seq<Call>, entries: seq<Entry>, refuses: Refusals): seq<Call> {
    Finish(ScanAll(log, entries, refuses), refuses).log
  }

  lemma ScanLogClosed(log: seq<Call>, entries: seq<Entry>, refuses: Refusals)
    ensures var all := ScanLog(log, entries, refuses);
            RefsClosed(all, |log|) && forall i :: |log| <= i < |all| ==> NamedRow(all[i].row)
  {
    hide ScanAll, Counted, Wrote;
    ScanKeeps(log, entries, refuses);
    var s := ScanAll(log, entries, refuses);
    LoggedOne(s.log, Call(UpdateIdBump, !refuses(|s.log|)), |log|);
    BumpIsNamed();
  }

  lemma BumpIsNamed()
    ensures NamedRow(UpdateIdBump) && Needs(UpdateIdBump) == {}
  {}

  /**
   After every call of a scan, refused or not, a catalog that was whole and walkable still is: no row
   refers to a missing one, and a control point can browse everything it is shown.
   */
  lemma ScanKeepsCatalog(t: Db, log: seq<Call>, entries: seq<Entry>, refuses: Refusals, k: nat)
    requires Whole(t) && WellNamed(t)
    requires |log| <= k <= |ScanLog(log, entries, refuses)|
    ensures var after := Replay(t, ScanLog(log, entries, refuses)[..k], |log|);
            after.Valid() && Whole(after) && Navigable(after)
  {
    hide ScanLog, Replay, Whole, Navigable, WellNamed, NamedRow, RefsClosed, Tables.Valid;
    var all := ScanLog(log, entries, refuses);
    ScanLogClosed(log, entries, refuses);
    PrefixClosed(all, |log|, k);
    ReplayKeeps(t, all[..k], |log|);
    NavigableExactly(Replay(t, all[..k], |log|));
  }

  // ---------- its ids on the wire ----------

  lemma ConcatIsIdText(prefix: string, entity: string, suffix: string)
    requires IsIdText(prefix) && IsIdText(entity) && IsIdText(suffix)
    ensures IsIdText(prefix + entity + suffix)
  {}

  /** A request for a scanned row arrives as it was written, and a response holds its id as it is. */
  lemma ScannedIdsTravel(oid: ObjectId, start: nat, count: nat)
    requires IsIdText(oid.entity)
    ensures Escape(Make(oid)) == Make(oid)
    ensures Parse(BrowseRequestDocument(Make(oid), start, count).Render()).result ==
            Ok(Request(CONTENT_DIRECTORY, "Browse", BrowseArgs(Make(oid), start, count)))
  {
    hide Parse, Document.Render, BrowseRequestDocument, BrowseArgs, EnclosedInAll, HoldsEntity, Escape;
    ScannedIdsArePlain(oid);
    EscapeFixedPoint(Make(oid));
    TagFreeIsEnclosed(Make(oid));
    ArrivesExactly(Make(oid), start, count);
  }

  lemma ScannedIdsArePlain(oid: ObjectId)
    requires IsIdText(oid.entity)
    ensures TagFree(Make(oid)) && NoOuterSpace(Make(oid)) && !HoldsEntity(Make(oid))
    ensures forall c :: c in Make(oid) ==> !IsMarkup(c)
  {
    hide HoldsEntity;
    var id := Make(oid);
    ConcatIsIdText("artist:", oid.entity, ALBUMS_SUFFIX);
    ConcatIsIdText("artist:", oid.entity, "");
    ConcatIsIdText("album:", oid.entity, "");
    ConcatIsIdText("track:", oid.entity, "");
    ConcatIsIdText("playlist:", oid.entity, "");
    assert IsIdText(id);
    forall k | 0 <= k < |id| ensures EntityAt(id[k..]).None? {
      assert id[k..][0] == id[k];
    }
    NoEntity(id);
  }

  lemma NoEntity(id: string)
    requires forall k :: 0 <= k < |id| ==> EntityAt(id[k..]).None?
    ensures !HoldsEntity(id)
  {}
}
