/**
 ContentDirectory Browse over a catalog. `Children` and `Metadata` say what an object's answers are; the
 methods compute them from a repository, page by page.
 */
module Browse {
  import opened Wrappers
  import opened Text
  import opened Listings
  import opened Sorting
  import opened ObjectIds
  import opened Catalog
  import opened SoapParser

  /** An entry of a result; `art` names the album whose cover an item shows. */
  datatype Node =
    | Container(id: string, parent: string, title: string, childCount: Option<Uint32>)
    | Item(id: string, parent: string, title: string, number: Option<nat>, art: Option<string>)

  datatype Response = Response(nodes: seq<Node>, returned: Uint32, total: Uint32, updateId: Uint32)

  datatype UpnpError = InvalidAction | InvalidArgs | ActionFailed | ArgumentInvalid | NoSuchObject

  function IdOf(kind: Kind, entity: string): string {
    Make(ObjectId(kind, entity))
  }

  function Map<T, N>(f: T -> N, xs: seq<T>): seq<N> {
    seq(|xs|, i requires 0 <= i < |xs| => f(xs[i]))
  }

  // ---------- entries ----------

  ghost function AlbumCount(c: Db, artist: string): Uint32 {
    Wrap(|c.AlbumsOf(artist)|)
  }

  ghost function TrackCount(c: Db, album: string): Uint32 {
    Wrap(|c.TracksOf(album)|)
  }

  function ArtOf(c: Tables, t: Track): Option<string> {
    var album := Lookup(c.albums, t.albumId);
    if t.albumId != "" && album.Some? && album.value.cover.Some? && album.value.cover.value != ""
    then Some(t.albumId) else None
  }

  function TrackNode(c: Tables, t: Track, parent: string): Node {
    Item(IdOf(Kind.Track, t.id), parent, t.title, t.number, ArtOf(c, t))
  }

  /** The container that a track names as its parent outside album and playlist listings. */
  function TrackHome(t: Track): string {
    if t.albumId == "" then IdOf(Kind.Tracks, "") else IdOf(Kind.Album, t.albumId)
  }

  ghost function ArtistNode(c: Db): Artist -> Node {
    (a: Artist) => Container(IdOf(Kind.Artist, a.id), IdOf(Kind.Artists, ""), a.name, Some(AlbumCount(c, a.id)))
  }

  ghost function AlbumNode(c: Db, artist: string): Album -> Node {
    (a: Album) => Container(IdOf(Kind.Album, a.id), IdOf(Kind.ArtistAlbums, artist), a.title, Some(TrackCount(c, a.id)))
  }

  function AlbumTrackNode(c: Tables, album: string): Track -> Node {
    (t: Track) => TrackNode(c, t, IdOf(Kind.Album, album))
  }

  function AnyTrackNode(c: Tables): Track -> Node {
    (t: Track) => TrackNode(c, t, TrackHome(t))
  }

  const PlaylistNode: Playlist -> Node :=
    (p: Playlist) => Container(IdOf(Kind.Playlist, p.id), IdOf(Kind.Playlists, ""), p.title, Some(Wrap(|p.items|)))

  function MusicNode(): Node {
    Container(IdOf(Kind.Music, ""), IdOf(Kind.Root, ""), "Music", None)
  }

  function PlaylistsNode(parent: Kind, count: Option<Uint32>): Node {
    Container(IdOf(Kind.Playlists, ""), IdOf(parent, ""), "Playlists", count)
  }

  ghost function ArtistsNode(c: Db): Node {
    Container(IdOf(Kind.Artists, ""), IdOf(Kind.Music, ""), "Artists", Some(Wrap(|c.Artists()|)))
  }

  ghost function TracksNode(c: Db): Node {
    Container(IdOf(Kind.Tracks, ""), IdOf(Kind.Music, ""), "All Tracks", Some(Wrap(|c.Tracks()|)))
  }

  ghost function AlbumsNode(c: Db, artist: string, title: string): Node {
    Container(IdOf(Kind.ArtistAlbums, artist), IdOf(Kind.Artist, artist), title, Some(AlbumCount(c, artist)))
  }

  // ---------- the answers ----------

  /** A listing that is always given whole. */
  function Whole(nodes: seq<Node>, updateId: Uint32): Response {
    Response(nodes, Wrap(|nodes|), Wrap(|nodes|), updateId)
  }

  ghost function Paged<T(!new)>(f: T -> Node, xs: seq<T>, start: Uint32, count: Uint32, updateId: Uint32): Response {
    var page := PageOf(xs, start, count);
    Response(Map(f, page.rows), Wrap(|page.rows|), page.total, updateId)
  }

  const NoLaterPosition: (PlaylistItem, PlaylistItem) -> bool :=
    (x: PlaylistItem, y: PlaylistItem) => x.position <= y.position

  /** A playlist's items in order of position, as far as uint32 counts them. */
  function Ordered(p: Playlist): (r: seq<PlaylistItem>)
    ensures |r| < TWO_32
  {
    SortPermutes(p.items, NoLaterPosition);
    Sort(p.items, NoLaterPosition)[..Wrap(|p.items|)]
  }

  predicate IsLive(c: Tables, item: PlaylistItem) {
    item.trackId in c.tracks
  }

  /** The entries for those items whose track still exists. */
  function LiveNodes(c: Tables, items: seq<PlaylistItem>, parent: string): (nodes: seq<Node>)
    ensures |nodes| <= |items|
  {
    if items == [] then []
    else
      var item := items[|items| - 1];
      LiveNodes(c, items[..|items| - 1], parent) +
        if IsLive(c, item) then [TrackNode(c, c.tracks[item.trackId], parent)] else []
  }

  /** A playlist page: a count of 0 asks for all the rest, however long. */
  function ItemsAt(items: seq<PlaylistItem>, start: Uint32, count: Uint32): (r: seq<PlaylistItem>)
    requires |items| < TWO_32
    ensures |r| <= |items|
  {
    var from := Min(start, |items|);
    items[from..from + if count == 0 then |items| - from else Min(count, |items| - from)]
  }

  function PlaylistItems(c: Tables, p: Playlist, start: Uint32, count: Uint32): Response {
    var items := Ordered(p);
    var nodes := LiveNodes(c, ItemsAt(items, start, count), IdOf(Kind.Playlist, p.id));
    Response(nodes, |nodes|, |items|, c.updateId)
  }

  /** Whether the catalog has the object; the fixed containers always exist. */
  predicate Exists(c: Tables, oid: ObjectId) {
    match oid.kind
    case Artist => oid.entity in c.artists
    case ArtistAlbums => oid.entity in c.artists
    case Album => oid.entity in c.albums
    case Playlist => oid.entity in c.playlists
    case Track => oid.entity in c.tracks
    case _ => true
  }

  ghost function Children(c: Db, oid: ObjectId, start: Uint32, count: Uint32): Result<Response, UpnpError> {
    if !Exists(c, oid) && !oid.kind.Track? then Err(NoSuchObject)
    else Ok(
      match oid.kind
      case Root => Whole([MusicNode(), PlaylistsNode(Kind.Root, None)], c.updateId)
      case Music => Whole([ArtistsNode(c), TracksNode(c)], c.updateId)
      case Artists => Paged(ArtistNode(c), c.Artists(), start, count, c.updateId)
      case Artist => Whole([AlbumsNode(c, oid.entity, "Albums")], c.updateId)
      case ArtistAlbums => Paged(AlbumNode(c, oid.entity), c.AlbumsOf(oid.entity), start, count, c.updateId)
      case Album => Paged(AlbumTrackNode(c, oid.entity), c.TracksOf(oid.entity), start, count, c.updateId)
      case Tracks => Paged(AnyTrackNode(c), c.Tracks(), start, count, c.updateId)
      case Playlists => Paged(PlaylistNode, c.Playlists(), start, count, c.updateId)
      case Playlist => PlaylistItems(c, c.playlists[oid.entity], start, count)
      case Track => Response([], 0, 0, 0))
  }

  const DASH_ALBUMS := " \U{E2}\U{80}\U{94} Albums"

  function AlbumHome(a: Album): string {
    if a.artistId == "" then IdOf(Kind.Root, "") else IdOf(Kind.ArtistAlbums, a.artistId)
  }

  /** The entry that describes an object. */
  ghost function Description(c: Db, oid: ObjectId): Node
    requires Exists(c, oid)
  {
    match oid.kind
    case Root => Container("0", "-1", "root", Some(1))
    case Music => MusicNode()
    case Artists => ArtistsNode(c)
    case Artist => ArtistNode(c)(c.artists[oid.entity])
    case ArtistAlbums => AlbumsNode(c, oid.entity, c.artists[oid.entity].name + DASH_ALBUMS)
    case Album =>
      var a := c.albums[oid.entity];
      Container(IdOf(Kind.Album, a.id), AlbumHome(a), a.title, Some(TrackCount(c, a.id)))
    case Tracks => TracksNode(c)
    case Playlists => PlaylistsNode(Kind.Music, Some(Wrap(|c.Playlists()|)))
    case Playlist => PlaylistNode(c.playlists[oid.entity])
    case Track => AnyTrackNode(c)(c.tracks[oid.entity])
  }

  /** An object that does not exist is described by an empty result, not by a fault. */
  ghost function Metadata(c: Db, oid: ObjectId): Response {
    Whole(if Exists(c, oid) then [Description(c, oid)] else [], c.updateId)
  }

  // ---------- the request ----------

  /** The value of the first argument of that name. */
  function ArgOf(args: seq<Arg>, name: string): Option<string> {
    if args == [] then None else if args[0].name == name then Some(args[0].value) else ArgOf(args[1..], name)
  }

  function ArgOr(args: seq<Arg>, name: string, fallback: string): string {
    var v := ArgOf(args, name);
    if v.Some? then v.value else fallback
  }

  /** A number that cannot be read counts as 0. */
  function NumberOf(s: string): Uint32 {
    var n := ParseUint32(s);
    if n.Some? then n.value else 0
  }

  ghost function Answer(c: Db, req: Request): Result<Response, UpnpError> {
    if req.action != "Browse" then Err(InvalidAction)
    else match ArgOf(req.args, "ObjectID")
      case None => Err(InvalidArgs)
      case Some(id) =>
        match ParseObjectId(id)
        case Err(_) => Err(NoSuchObject)
        case Ok(oid) =>
          var flag := ArgOr(req.args, "BrowseFlag", "BrowseDirectChildren");
          if flag == "BrowseMetadata" then Ok(Metadata(c, oid))
          else if flag == "BrowseDirectChildren" then
            Children(c, oid, NumberOf(ArgOr(req.args, "StartingIndex", "0")), NumberOf(ArgOr(req.args,
              "RequestedCount", "0")))
          else Err(ArgumentInvalid)
  }
}
