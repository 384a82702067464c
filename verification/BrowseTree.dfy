/** The tree that a control point walks down by browsing: what is listed where, and that it ends. */
module BrowseTree {
  import opened Wrappers
  import opened Listings
  import opened Sorting
  import opened ObjectIds
  import opened Catalog
  import opened Browse

  /** The objects below an object, read off the catalog's references. */
  ghost predicate Below(c: Tables, oid: ObjectId, child: ObjectId) {
    match oid.kind
    case Root => child == ObjectId(Kind.Music, "") || child == ObjectId(Kind.Playlists, "")
    case Music => child == ObjectId(Kind.Artists, "") || child == ObjectId(Kind.Tracks, "")
    case Artists => child.kind.Artist? && child.entity in c.artists
    case Artist => oid.entity in c.artists && child == ObjectId(Kind.ArtistAlbums, oid.entity)
    case ArtistAlbums =>
      oid.entity in c.artists && child.kind.Album? && child.entity in c.albums
      && c.albums[child.entity].artistId == oid.entity
    case Album =>
      oid.entity in c.albums && child.kind.Track? && child.entity in c.tracks
      && c.tracks[child.entity].albumId == oid.entity
    case Tracks => child.kind.Track? && child.entity in c.tracks
    case Playlists => child.kind.Playlist? && child.entity in c.playlists
    case Playlist =>
      oid.entity in c.playlists && child.kind.Track? && child.entity in c.tracks
      && exists item :: item in c.playlists[oid.entity].items && item.trackId == child.entity
    case Track => false
  }

  /** Some page of the object's children holds an entry with this id. */
  ghost predicate Lists(c: Db, oid: ObjectId, id: string) {
    exists start: Uint32, count: Uint32, node :: IsEntry(c, oid, start, count, node) && node.id == id
  }

  ghost predicate IsEntry(c: Db, oid: ObjectId, start: Uint32, count: Uint32, node: Node) {
    Children(c, oid, start, count).Ok? && node in Children(c, oid, start, count).value.nodes
  }

  // ---------- every entry is an object below ----------

  lemma RowsFrom<T>(xs: seq<T>, start: Uint32, count: Uint32, i: nat)
    requires i < |PageOf(xs, start, count).rows|
    ensures PageOf(xs, start, count).rows[i] in xs
  {
    RowInside(|xs|, start, i);
    assert PageOf(xs, start, count).rows[i] == xs[Wrap(start + i)];
  }

  /** The entry for a row on a page is made from a row of the listing. */
  lemma PagedRow<T(!new)>(f: T -> Node, xs: seq<T>, start: Uint32, count: Uint32, id: Uint32, node: Node) returns (x: T)
    requires node in Paged(f, xs, start, count, id).nodes
    ensures x in xs && node == f(x)
  {
    var rows := PageOf(xs, start, count).rows;
    var i: nat :| i < |rows| && Map(f, rows)[i] == node;
    RowsFrom(xs, start, count, i);
    x := rows[i];
  }

  lemma {:induction false} LiveNodeFrom(c: Tables, items: seq<PlaylistItem>, parent: string, node: Node)
    returns (item: PlaylistItem)
    requires node in LiveNodes(c, items, parent)
    ensures item in items && IsLive(c, item) && node == TrackNode(c, c.tracks[item.trackId], parent)
  {
    item := items[|items| - 1];
    if !(IsLive(c, item) && node == TrackNode(c, c.tracks[item.trackId], parent)) {
      item := LiveNodeFrom(c, items[..|items| - 1], parent, node);
    }
  }

  lemma OrderedFrom(p: Playlist, item: PlaylistItem)
    requires item in Ordered(p)
    ensures item in p.items
  {
    hide Sort;
    SortPermutes(p.items, NoLaterPosition);
    assert item in multiset(Sort(p.items, NoLaterPosition));
  }

  lemma PlaylistEntry(c: Db, oid: ObjectId, start: Uint32, count: Uint32, node: Node) returns (child: ObjectId)
    requires oid.kind.Playlist? && IsEntry(c, oid, start, count, node)
    ensures Below(c, oid, child) && node.id == Make(child) && node.Item?
  {
    hide Ordered;
    var p := c.playlists[oid.entity];
    var item := LiveNodeFrom(c, ItemsAt(Ordered(p), start, count), IdOf(Kind.Playlist, p.id), node);
    OrderedFrom(p, item);
    child := ObjectId(Kind.Track, item.trackId);
    assert item in p.items;
  }

  /** Every entry is for an object below, and counts its children as that object's own description does. */
  lemma EntryIsBelow(c: Db, oid: ObjectId, start: Uint32, count: Uint32, node: Node) returns (child: ObjectId)
    requires IsEntry(c, oid, start, count, node)
    ensures Below(c, oid, child) && node.id == Make(child)
    ensures node.Container? && !child.kind.Playlists? ==>
              Exists(c, child) && Description(c, child).Container?
                && Description(c, child).childCount == node.childCount
  {
    hide Paged, Wrap, PlaylistItems;
    match oid.kind
    case Root => child := ObjectId(if node.id == "1" then Kind.Music else Kind.Playlists, "");
    case Music => child := ObjectId(if node.id == "artists" then Kind.Artists else Kind.Tracks, "");
    case Artists =>
      var a := PagedRow(ArtistNode(c), c.Artists(), start, count, c.updateId, node);
      child := ObjectId(Kind.Artist, a.id);
    case Artist => child := ObjectId(Kind.ArtistAlbums, oid.entity);
    case ArtistAlbums =>
      var a := PagedRow(AlbumNode(c, oid.entity), c.AlbumsOf(oid.entity), start, count, c.updateId, node);
      child := ObjectId(Kind.Album, a.id);
    case Album =>
      var t := PagedRow(AlbumTrackNode(c, oid.entity), c.TracksOf(oid.entity), start, count, c.updateId, node);
      child := ObjectId(Kind.Track, t.id);
    case Tracks =>
      var t := PagedRow(AnyTrackNode(c), c.Tracks(), start, count, c.updateId, node);
      child := ObjectId(Kind.Track, t.id);
    case Playlists =>
      var p := PagedRow(PlaylistNode, c.Playlists(), start, count, c.updateId, node);
      child := ObjectId(Kind.Playlist, p.id);
    case Playlist => child := PlaylistEntry(c, oid, start, count, node);
    case Track => child := oid;
  }

  // ---------- every object below is an entry ----------

  /** How many rows the object's listing has. */
  ghost function RowCount(c: Db, oid: ObjectId): nat {
    match oid.kind
    case Artists => |c.Artists()|
    case ArtistAlbums => |c.AlbumsOf(oid.entity)|
    case Album => |c.TracksOf(oid.entity)|
    case Tracks => |c.Tracks()|
    case Playlists => |c.Playlists()|
    case Playlist => if oid.entity in c.playlists then |c.playlists[oid.entity].items| else 0
    case _ => 0
  }

  /** Asking for one row at its place gets its entry. */
  lemma RowListed<T(!new)>(f: T -> Node, xs: seq<T>, x: T, id: Uint32) returns (start: Uint32)
    requires x in xs && |xs| < TWO_32
    ensures f(x) in Paged(f, xs, start, 1, id).nodes
  {
    var i :| 0 <= i < |xs| && xs[i] == x;
    start := i;
    assert Wrap(|xs|) == |xs|;
    PageIsSlice(xs, i, 1);
    assert PageOf(xs, i, 1).rows == [x];
    assert Map(f, [x])[0] == f(x);
  }

  lemma LiveItemListed(c: Db, oid: ObjectId, item: PlaylistItem) returns (start: Uint32, node: Node)
    requires oid.kind.Playlist? && oid.entity in c.playlists && RowCount(c, oid) < TWO_32
    requires item in c.playlists[oid.entity].items && IsLive(c, item)
    ensures IsEntry(c, oid, start, 1, node) && node.id == IdOf(Kind.Track, item.trackId)
  {
    hide Sort;
    var p := c.playlists[oid.entity];
    SortPermutes(p.items, NoLaterPosition);
    var ordered := Sort(p.items, NoLaterPosition);
    assert Ordered(p) == ordered[..|ordered|] == ordered;
    assert item in multiset(ordered);
    var i :| 0 <= i < |ordered| && ordered[i] == item;
    start := i;
    assert ItemsAt(ordered, i, 1) == [item];
    assert [item][..0] == [];
    node := TrackNode(c, c.tracks[item.trackId], IdOf(Kind.Playlist, p.id));
    assert LiveNodes(c, [item], IdOf(Kind.Playlist, p.id)) == [] + [node];
  }

  lemma BelowIsListed(c: Db, oid: ObjectId, child: ObjectId)
    requires Below(c, oid, child) && RowCount(c, oid) < TWO_32
    ensures Lists(c, oid, Make(child))
  {
    hide Paged, Wrap, PlaylistItems, IsListing, Enumerates;
    var start: Uint32, count: Uint32, node := 0, 1, MusicNode();
    match oid.kind {
    case Root => node := if child.kind.Music? then MusicNode() else PlaylistsNode(Kind.Root, None);
    case Music => node := if child.kind.Artists? then ArtistsNode(c) else TracksNode(c);
    case Artists =>
      var a := c.artists[child.entity];
      ArtistsListed(c, a);
      start := RowListed(ArtistNode(c), c.Artists(), a, c.updateId);
      node := ArtistNode(c)(a);
    case Artist => node := AlbumsNode(c, oid.entity, "Albums");
    case ArtistAlbums =>
      var a := c.albums[child.entity];
      AlbumsListed(c, oid.entity, a);
      start := RowListed(AlbumNode(c, oid.entity), c.AlbumsOf(oid.entity), a, c.updateId);
      node := AlbumNode(c, oid.entity)(a);
    case Album =>
      var t := c.tracks[child.entity];
      TracksOfListed(c, oid.entity, t);
      start := RowListed(AlbumTrackNode(c, oid.entity), c.TracksOf(oid.entity), t, c.updateId);
      node := AlbumTrackNode(c, oid.entity)(t);
    case Tracks =>
      var t := c.tracks[child.entity];
      TracksListed(c, t);
      start := RowListed(AnyTrackNode(c), c.Tracks(), t, c.updateId);
      node := AnyTrackNode(c)(t);
    case Playlists =>
      var p := c.playlists[child.entity];
      PlaylistsListed(c, p);
      start := RowListed(PlaylistNode, c.Playlists(), p, c.updateId);
      node := PlaylistNode(p);
    case Playlist =>
      var item :| item in c.playlists[oid.entity].items && item.trackId == child.entity;
      start, node := LiveItemListed(c, oid, item);
    }
    assert IsEntry(c, oid, start, count, node);
  }

  /** The ids that browsing an object can turn up are exactly those of the objects below it. */
  lemma ListsExactly(c: Db, oid: ObjectId, id: string)
    requires RowCount(c, oid) < TWO_32
    ensures Lists(c, oid, id) <==> exists child :: Below(c, oid, child) && Make(child) == id
  {
    hide Below, IsEntry;
    if start: Uint32, count: Uint32, node :| IsEntry(c, oid, start, count, node) && node.id == id {
      var child := EntryIsBelow(c, oid, start, count, node);
    }
    if child :| Below(c, oid, child) && Make(child) == id {
      BelowIsListed(c, oid, child);
    }
  }

  // ---------- closure ----------

  /** The ids that a control point can be handed are ones that mean themselves. */
  ghost predicate WellNamed(c: Tables) {
    && (forall a :: a in c.artists ==> Legible(ObjectId(Kind.Artist, a)))
    && (forall a :: a in c.albums && c.albums[a].artistId in c.artists ==> a != "")
    && (forall t :: t in c.tracks ==> t != "")
    && (forall p :: p in c.playlists ==> p != "")
  }

  /** Whatever is below an object can be browsed under its own id. */
  ghost predicate Navigable(c: Db) {
    forall oid, child :: Below(c, oid, child) ==>
      ParseObjectId(Make(child)) == Ok(child) && Children(c, child, 0, 0).Ok?
  }

  lemma BelowIsBrowsable(c: Db, oid: ObjectId, child: ObjectId)
    requires Below(c, oid, child) && WellNamed(c)
    ensures ParseObjectId(Make(child)) == Ok(child) && Exists(c, child)
  {
    hide ParseObjectId, EndsWith;
    ParseOfMake(child);
  }

  lemma NavigableNames(c: Db, oid: ObjectId, child: ObjectId)
    requires Navigable(c) && Below(c, oid, child)
    ensures Legible(child)
  {
    hide ParseObjectId, EndsWith, Children;
    ParseOfMake(child);
  }

  /** The catalogs that can be walked: exactly those whose ids mean themselves. */
  lemma NavigableExactly(c: Db)
    ensures Navigable(c) <==> WellNamed(c)
  {
    hide Children, Exists, ParseObjectId, EndsWith, Make;
    if WellNamed(c) {
      hide Below;
      forall oid, child | Below(c, oid, child)
        ensures ParseObjectId(Make(child)) == Ok(child) && Children(c, child, 0, 0).Ok?
      {
        BelowIsBrowsable(c, oid, child);
        ExistsAnswers(c, child, 0, 0);
      }
    }
    if Navigable(c) {
      hide Navigable;
      forall a | a in c.artists ensures Legible(ObjectId(Kind.Artist, a)) {
        NavigableNames(c, ObjectId(Kind.Artists, ""), ObjectId(Kind.Artist, a));
      }
      forall a | a in c.albums && c.albums[a].artistId in c.artists ensures a != "" {
        NavigableNames(c, ObjectId(Kind.ArtistAlbums, c.albums[a].artistId), ObjectId(Kind.Album, a));
      }
      forall t | t in c.tracks ensures t != "" {
        NavigableNames(c, ObjectId(Kind.Tracks, ""), ObjectId(Kind.Track, t));
      }
      forall p | p in c.playlists ensures p != "" {
        NavigableNames(c, ObjectId(Kind.Playlists, ""), ObjectId(Kind.Playlist, p));
      }
    }
  }

  /** Direct children are refused exactly for objects that do not exist; a track never is. */
  lemma ExistsAnswers(c: Db, oid: ObjectId, start: Uint32, count: Uint32)
    ensures Children(c, oid, start, count).Ok? <==> Exists(c, oid) || oid.kind.Track?
    ensures Children(c, oid, start, count).Err? ==> Children(c, oid, start, count).error == NoSuchObject
  {}

  // ---------- every descent ends ----------

  function Rank(kind: Kind): nat {
    match kind
    case Root => 6
    case Music => 5
    case Artists => 4
    case Artist => 3
    case ArtistAlbums => 2
    case Album => 1
    case Tracks => 1
    case Playlists => 2
    case Playlist => 1
    case Track => 0
  }

  /** Reading an id back never takes it up the tree, even where it is read as another object's. */
  lemma ParseKeepsRank(oid: ObjectId)
    requires ParseObjectId(Make(oid)).Ok?
    ensures Rank(ParseObjectId(Make(oid)).value.kind) <= Rank(oid.kind)
  {
    ParseOfMake(oid);
    var id := Make(oid);
    match oid.kind
    case Artist => assert id[..7] == "artist:" && id[6] == ':';
    case ArtistAlbums =>
      assert id[7..] == oid.entity + ALBUMS_SUFFIX && id[6] == ':';
      assert id[7..][|oid.entity|..] == ALBUMS_SUFFIX && id[7..][..|oid.entity|] == oid.entity;
    case Album => assert id[6..] == oid.entity && id[0] == 'a' && id[1] == 'l' && id[5] == ':';
    case Track => assert id[6..] == oid.entity && id[5] == ':' && id[0] == 't';
    case Playlist => assert id[9..] == oid.entity && id[8] == ':' && id[0] == 'p';
    case _ =>
  }

  /** A control point's way down: each object is read off an entry among the children of the one before. */
  ghost predicate IsDescent(c: Db, path: seq<ObjectId>) {
    forall i :: 0 <= i < |path| - 1 ==> Leads(c, path[i], path[i + 1])
  }

  ghost predicate Leads(c: Db, from: ObjectId, to: ObjectId) {
    exists id :: Lists(c, from, id) && ParseObjectId(id) == Ok(to)
  }

  lemma LeadsDown(c: Db, from: ObjectId, to: ObjectId)
    requires Leads(c, from, to)
    ensures Rank(to.kind) < Rank(from.kind)
  {
    hide ParseObjectId, Make, IsEntry;
    var id :| Lists(c, from, id) && ParseObjectId(id) == Ok(to);
    var start: Uint32, count: Uint32, node :| IsEntry(c, from, start, count, node) && node.id == id;
    var child := EntryIsBelow(c, from, start, count, node);
    ParseKeepsRank(child);
  }

  /** In every catalog, whatever its ids, a descent ends within six steps. */
  lemma {:induction false} DescentsEnd(c: Db, path: seq<ObjectId>)
    requires path != [] && IsDescent(c, path)
    ensures |path| - 1 + Rank(path[|path| - 1].kind) <= Rank(path[0].kind) <= 6
  {
    hide Leads;
    if |path| > 1 {
      var n := |path| - 1;
      DescentsEnd(c, path[..n]);
      LeadsDown(c, path[n - 1], path[n]);
    }
  }

  // ---------- child counts ----------

  /** The advertised number of children is the total that browsing them reports. */
  ghost predicate CountAgrees(c: Db, oid: ObjectId, start: Uint32, count: Uint32)
    requires Exists(c, oid)
  {
    var d := Description(c, oid);
    d.Container? && Children(c, oid, start, count).Ok?
      && d.childCount == Some(Children(c, oid, start, count).value.total)
  }

  /** Containers whose children are a listing of the catalog. */
  predicate IsListed(kind: Kind) {
    kind.Artists? || kind.Tracks? || kind.ArtistAlbums? || kind.Album? || kind.Playlists?
  }

  /** True of every container but `artist`, unless it has one album, and the root, which never tells. */
  lemma ChildCountsAgree(c: Db, oid: ObjectId, start: Uint32, count: Uint32)
    requires Exists(c, oid)
    ensures IsListed(oid.kind) || oid.kind.Playlist? ==> CountAgrees(c, oid, start, count)
    ensures oid.kind.Artist? ==> (CountAgrees(c, oid, start, count) <==> AlbumCount(c, oid.entity) == 1)
    ensures oid.kind.Root? ==> !CountAgrees(c, oid, start, count)
  {
    hide Wrap, IsListing, Enumerates;
    if oid.kind.Playlist? {
      OrderedLength(c.playlists[oid.entity]);
    } else if oid.kind.Artist? || oid.kind.Root? {
      SmallLengths();
    } else if IsListed(oid.kind) {
      PagedTotals(c, oid, start, count);
    }
  }

  lemma SmallLengths()
    ensures Wrap(1) == 1 && Wrap(2) == 2
  {}

  lemma OrderedLength(p: Playlist)
    ensures |Ordered(p)| == Wrap(|p.items|)
  {
    SortPermutes(p.items, NoLaterPosition);
  }

  lemma PagedTotals(c: Db, oid: ObjectId, start: Uint32, count: Uint32)
    requires Exists(c, oid)
    requires IsListed(oid.kind)
    ensures Children(c, oid, start, count).Ok? && Children(c, oid, start, count).value.total == Wrap(RowCount(c, oid))
  {
    hide Wrap, IsListing, Enumerates;
  }
}
