/** The Browse handler: the methods that fill in an answer from a repository. */
module BrowseHandler {
  import opened Wrappers
  import opened Listings
  import opened Sorting
  import opened ObjectIds
  import opened Catalog
  import opened SoapParser
  import opened Browse

  method ArtistAlbumCount(repo: InMemoryRepository, artist: string) returns (n: Uint32)
    requires repo.Valid()
    ensures n == AlbumCount(repo.View(), artist)
  {
    var page := repo.ListAlbumsForArtist(artist, 0, 0);
    n := page.total;
  }

  method AlbumTrackCount(repo: InMemoryRepository, album: string) returns (n: Uint32)
    requires repo.Valid()
    ensures n == TrackCount(repo.View(), album)
  {
    var page := repo.ListTracksForAlbum(album, 0, 0);
    n := page.total;
  }

  method ArtistsContainer(repo: InMemoryRepository) returns (node: Node)
    requires repo.Valid()
    ensures node == ArtistsNode(repo.View())
  {
    var page := repo.ListArtists(0, 0);
    node := Container("artists", "1", "Artists", Some(page.total));
  }

  method TracksContainer(repo: InMemoryRepository) returns (node: Node)
    requires repo.Valid()
    ensures node == TracksNode(repo.View())
  {
    var page := repo.ListAllTracks(0, 0);
    node := Container("tracks", "1", "All Tracks", Some(page.total));
  }

  method BuildTrackItem(repo: InMemoryRepository, t: Track, parent: string) returns (node: Node)
    requires repo.Valid()
    ensures node == TrackNode(repo.View(), t, parent)
  {
    var art := None;
    if t.albumId != "" {
      var album := Lookup(repo.albums, t.albumId);
      if album.Some? && album.value.cover.Some? && album.value.cover.value != "" {
        art := Some(t.albumId);
      }
    }
    node := Item("track:" + t.id, parent, t.title, t.number, art);
  }

  lemma MapSnoc<T, N>(f: T -> N, xs: seq<T>, i: nat)
    requires i < |xs|
    ensures Map(f, xs[..i + 1]) == Map(f, xs[..i]) + [f(xs[i])]
  {}

  method BrowseArtistsChildren(repo: InMemoryRepository, start: Uint32, count: Uint32) returns (r: Response)
    requires repo.Valid()
    ensures r == Paged(ArtistNode(repo.View()), repo.View().Artists(), start, count, repo.systemUpdateId)
  {
    hide Map;
    var page := repo.ListArtists(start, count);
    var nodes := [];
    assert Map(ArtistNode(repo.View()), page.rows[..0]) == [] by { MapLength(ArtistNode(repo.View()), page.rows[..0]); }
    for i := 0 to |page.rows|
      invariant nodes == Map(ArtistNode(repo.View()), page.rows[..i])
    {
      var a := page.rows[i];
      var albums := ArtistAlbumCount(repo, a.id);
      MapSnoc(ArtistNode(repo.View()), page.rows, i);
      nodes := nodes + [Container("artist:" + a.id, "artists", a.name, Some(albums))];
    }
    assert page.rows[..|page.rows|] == page.rows;
    r := Response(nodes, Wrap(|page.rows|), page.total, repo.systemUpdateId);
  }

  lemma MapLength<T, N>(f: T -> N, xs: seq<T>)
    ensures |Map(f, xs)| == |xs|
  {}

  method BrowseArtistAlbumsChildren(repo: InMemoryRepository, artist: string, start: Uint32, count: Uint32)
    returns (r: Response)
    requires repo.Valid()
    ensures r == Paged(AlbumNode(repo.View(), artist), repo.View().AlbumsOf(artist), start, count, repo.systemUpdateId)
  {
    hide Map;
    var page := repo.ListAlbumsForArtist(artist, start, count);
    var nodes := [];
    MapLength(AlbumNode(repo.View(), artist), page.rows[..0]);
    var parent := "artist:" + artist + ALBUMS_SUFFIX;
    for i := 0 to |page.rows|
      invariant nodes == Map(AlbumNode(repo.View(), artist), page.rows[..i])
    {
      var a := page.rows[i];
      var tracks := AlbumTrackCount(repo, a.id);
      MapSnoc(AlbumNode(repo.View(), artist), page.rows, i);
      nodes := nodes + [Container("album:" + a.id, parent, a.title, Some(tracks))];
    }
    assert page.rows[..|page.rows|] == page.rows;
    r := Response(nodes, Wrap(|page.rows|), page.total, repo.systemUpdateId);
  }

  method BrowseAlbumChildren(repo: InMemoryRepository, album: string, start: Uint32, count: Uint32)
    returns (r: Response)
    requires repo.Valid()
    ensures r == Paged(AlbumTrackNode(repo.View(), album), repo.View().TracksOf(album), start, count,
            repo.systemUpdateId)
  {
    hide Map;
    var page := repo.ListTracksForAlbum(album, start, count);
    var nodes := [];
    MapLength(AlbumTrackNode(repo.View(), album), page.rows[..0]);
    for i := 0 to |page.rows|
      invariant nodes == Map(AlbumTrackNode(repo.View(), album), page.rows[..i])
    {
      var node := BuildTrackItem(repo, page.rows[i], "album:" + album);
      MapSnoc(AlbumTrackNode(repo.View(), album), page.rows, i);
      nodes := nodes + [node];
    }
    assert page.rows[..|page.rows|] == page.rows;
    r := Response(nodes, Wrap(|page.rows|), page.total, repo.systemUpdateId);
  }

  method BrowseAllTracksChildren(repo: InMemoryRepository, start: Uint32, count: Uint32) returns (r: Response)
    requires repo.Valid()
    ensures r == Paged(AnyTrackNode(repo.View()), repo.View().Tracks(), start, count, repo.systemUpdateId)
  {
    hide Map;
    var page := repo.ListAllTracks(start, count);
    var nodes := [];
    MapLength(AnyTrackNode(repo.View()), page.rows[..0]);
    for i := 0 to |page.rows|
      invariant nodes == Map(AnyTrackNode(repo.View()), page.rows[..i])
    {
      var t := page.rows[i];
      var parent := if t.albumId == "" then "tracks" else "album:" + t.albumId;
      var node := BuildTrackItem(repo, t, parent);
      MapSnoc(AnyTrackNode(repo.View()), page.rows, i);
      nodes := nodes + [node];
    }
    assert page.rows[..|page.rows|] == page.rows;
    r := Response(nodes, Wrap(|page.rows|), page.total, repo.systemUpdateId);
  }

  method BrowsePlaylistsChildren(repo: InMemoryRepository, start: Uint32, count: Uint32) returns (r: Response)
    requires repo.Valid()
    ensures r == Paged(PlaylistNode, repo.View().Playlists(), start, count, repo.systemUpdateId)
  {
    hide Map;
    var page := repo.ListPlaylists(start, count);
    var nodes := [];
    MapLength(PlaylistNode, page.rows[..0]);
    for i := 0 to |page.rows|
      invariant nodes == Map(PlaylistNode, page.rows[..i])
    {
      var p := page.rows[i];
      MapSnoc(PlaylistNode, page.rows, i);
      nodes := nodes + [Container("playlist:" + p.id, "playlists", p.title, Some(Wrap(|p.items|)))];
    }
    assert page.rows[..|page.rows|] == page.rows;
    r := Response(nodes, Wrap(|page.rows|), page.total, repo.systemUpdateId);
  }

  /** Sorts by position, keeping the order of items at the same position. */
  method SortByPosition(items: seq<PlaylistItem>) returns (ordered: seq<PlaylistItem>)
    ensures ordered == Sort(items, NoLaterPosition) && |ordered| == |items|
  {
    SortPermutes(items, NoLaterPosition);
    ordered := Sort(items, NoLaterPosition);
  }

  lemma PageOfOrdered(p: Playlist, start: Uint32, count: Uint32)
    ensures var ordered, total := Sort(p.items, NoLaterPosition), Wrap(|p.items|);
            var from := Min(start, total);
            var n := if count == 0 then total - from else Min(count, total - from);
            from + n <= |ordered| && ItemsAt(Ordered(p), start, count) == ordered[from..from + n]
  {
    hide Sort;
    SortPermutes(p.items, NoLaterPosition);
  }

  lemma {:induction false} LiveSnoc(c: Tables, items: seq<PlaylistItem>, i: nat, parent: string)
    requires i < |items|
    ensures LiveNodes(c, items[..i + 1], parent) == LiveNodes(c, items[..i], parent) +
            if IsLive(c, items[i]) then [TrackNode(c, c.tracks[items[i].trackId], parent)] else []
  {
    assert items[..i + 1][..i] == items[..i];
  }

  method BrowsePlaylistChildren(repo: InMemoryRepository, id: string, start: Uint32, count: Uint32)
    returns (r: Response)
    requires repo.Valid() && id in repo.playlists
    ensures r == PlaylistItems(repo.View(), repo.playlists[id], start, count)
  {
    hide Sort, LiveNodes, ItemsAt, Ordered, Wrap, TrackNode;
    var p := repo.playlists[id];
    var ordered := SortByPosition(p.items);
    var total := Wrap(|ordered|);
    var from := Min(start, total);
    var n := if count == 0 then total - from else Min(count, total - from);
    ghost var items := ItemsAt(Ordered(p), start, count);
    PageOfOrdered(p, start, count);
    var nodes := [];
    NoLiveNodes(repo.View(), "playlist:" + id);
    for i := from to from + n
      invariant nodes == LiveNodes(repo.View(), items[..i - from], "playlist:" + id)
    {
      LiveSnoc(repo.View(), items, i - from, "playlist:" + id);
      var t := Lookup(repo.tracks, ordered[i].trackId);
      if t.Some? {
        var node := BuildTrackItem(repo, t.value, "playlist:" + id);
        nodes := nodes + [node];
      }
    }
    assert items[..n] == items;
    Returned(repo.View(), p, start, count);
    r := Response(nodes, Wrap(|nodes|), total, repo.systemUpdateId);
  }

  lemma NoLiveNodes(c: Tables, parent: string)
    ensures LiveNodes(c, [], parent) == []
  {}

  lemma Returned(c: Tables, p: Playlist, start: Uint32, count: Uint32)
    ensures var r := PlaylistItems(c, p, start, count); r.returned == Wrap(|r.nodes|) && r.total == Wrap(|p.items|)
  {
    hide Sort, LiveNodes;
    SortPermutes(p.items, NoLaterPosition);
  }

  method BrowseDirectChildren(repo: InMemoryRepository, oid: ObjectId, start: Uint32, count: Uint32)
    returns (r: Result<Response, UpnpError>)
    requires repo.Valid()
    ensures r == Children(repo.View(), oid, start, count)
  {
    hide Paged, PlaylistItems, Wrap;
    match oid.kind
    case Root =>
      r := Ok(Whole([MusicNode(), PlaylistsNode(Kind.Root, None)], repo.systemUpdateId));
    case Music =>
      var artists := ArtistsContainer(repo);
      var tracks := TracksContainer(repo);
      r := Ok(Whole([artists, tracks], repo.systemUpdateId));
    case Artists =>
      var page := BrowseArtistsChildren(repo, start, count);
      r := Ok(page);
    case Artist =>
      if oid.entity !in repo.artists {
        return Err(NoSuchObject);
      }
      var n := ArtistAlbumCount(repo, oid.entity);
      var node := Container(IdOf(Kind.ArtistAlbums, oid.entity), IdOf(Kind.Artist, oid.entity), "Albums", Some(n));
      r := Ok(Whole([node], repo.systemUpdateId));
    case ArtistAlbums =>
      if oid.entity !in repo.artists {
        return Err(NoSuchObject);
      }
      var page := BrowseArtistAlbumsChildren(repo, oid.entity, start, count);
      r := Ok(page);
    case Album =>
      if oid.entity !in repo.albums {
        return Err(NoSuchObject);
      }
      var page := BrowseAlbumChildren(repo, oid.entity, start, count);
      r := Ok(page);
    case Tracks =>
      var page := BrowseAllTracksChildren(repo, start, count);
      r := Ok(page);
    case Playlists =>
      var page := BrowsePlaylistsChildren(repo, start, count);
      r := Ok(page);
    case Playlist =>
      if oid.entity !in repo.playlists {
        return Err(NoSuchObject);
      }
      var page := BrowsePlaylistChildren(repo, oid.entity, start, count);
      r := Ok(page);
    case Track =>
      r := Ok(Response([], 0, 0, 0));
  }

  /** The entry for an object, or none when the catalog does not have it. */
  method Describe(repo: InMemoryRepository, oid: ObjectId) returns (nodes: seq<Node>)
    requires repo.Valid()
    ensures nodes == if Exists(repo.View(), oid) then [Description(repo.View(), oid)] else []
  {
    hide Wrap;
    match oid.kind
    case Root => nodes := [Container("0", "-1", "root", Some(1))];
    case Music => nodes := [MusicNode()];
    case Artists =>
      var node := ArtistsContainer(repo);
      nodes := [node];
    case Artist =>
      var a := Lookup(repo.artists, oid.entity);
      if a.None? {
        return [];
      }
      var n := ArtistAlbumCount(repo, oid.entity);
      nodes := [Container(IdOf(Kind.Artist, oid.entity), "artists", a.value.name, Some(n))];
    case ArtistAlbums =>
      var a := Lookup(repo.artists, oid.entity);
      if a.None? {
        return [];
      }
      var n := ArtistAlbumCount(repo, oid.entity);
      nodes := [Container(IdOf(Kind.ArtistAlbums, oid.entity), IdOf(Kind.Artist, oid.entity),
        a.value.name + DASH_ALBUMS, Some(n))];
    case Album =>
      var a := Lookup(repo.albums, oid.entity);
      if a.None? {
        return [];
      }
      var n := AlbumTrackCount(repo, oid.entity);
      nodes := [Container(IdOf(Kind.Album, oid.entity), AlbumHome(a.value), a.value.title, Some(n))];
    case Tracks =>
      var node := TracksContainer(repo);
      nodes := [node];
    case Playlists =>
      var page := repo.ListPlaylists(0, 0);
      nodes := [PlaylistsNode(Kind.Music, Some(page.total))];
    case Playlist =>
      var p := Lookup(repo.playlists, oid.entity);
      if p.None? {
        return [];
      }
      nodes := [Container(IdOf(Kind.Playlist, oid.entity), "playlists", p.value.title, Some(Wrap(|p.value.items|)))];
    case Track =>
      var t := Lookup(repo.tracks, oid.entity);
      if t.None? {
        return [];
      }
      var node := BuildTrackItem(repo, t.value, TrackHome(t.value));
      nodes := [node];
  }

  /** The handler; it may run without a catalog or a device profile. */
  method HandleBrowse(req: Request, repo: InMemoryRepository?, hasProfile: bool)
    returns (r: Result<Response, UpnpError>)
    requires repo != null ==> repo.Valid()
    ensures repo == null || !hasProfile ==> r == Err(ActionFailed)
    ensures repo != null && hasProfile ==> r == Answer(repo.View(), req)
  {
    hide Wrap, Children, Description, Exists, ParseObjectId;
    if repo == null || !hasProfile {
      return Err(ActionFailed);
    }
    if req.action != "Browse" {
      return Err(InvalidAction);
    }
    var id := ArgOf(req.args, "ObjectID");
    if id.None? {
      return Err(InvalidArgs);
    }
    var parsed := ParseObjectId(id.value);
    if parsed.Err? {
      return Err(NoSuchObject);
    }
    var flag := ArgOr(req.args, "BrowseFlag", "BrowseDirectChildren");
    var start := NumberOf(ArgOr(req.args, "StartingIndex", "0"));
    var count := NumberOf(ArgOr(req.args, "RequestedCount", "0"));
    if flag == "BrowseMetadata" {
      var nodes := Describe(repo, parsed.value);
      return Ok(Whole(nodes, repo.systemUpdateId));
    }
    if flag == "BrowseDirectChildren" {
      r := BrowseDirectChildren(repo, parsed.value, start, count);
      return;
    }
    return Err(ArgumentInvalid);
  }
}
