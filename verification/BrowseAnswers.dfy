/** What a Browse request is answered, from the outside: by its arguments, its flag, and what entries show. */
module BrowseAnswers {
  import opened Wrappers
  import opened Text
  import opened Listings
  import opened ObjectIds
  import opened Catalog
  import opened SoapParser
  import opened Browse
  import opened BrowseTree

  // ---------- arguments ----------

  /** The first argument of that name has this value. */
  ghost predicate Given(args: seq<Arg>, name: string, value: string) {
    exists i :: 0 <= i < |args| && args[i] == Arg(name, value) && forall j :: 0 <= j < i ==> args[j].name != name
  }

  predicate Absent(args: seq<Arg>, name: string) {
    forall i :: 0 <= i < |args| ==> args[i].name != name
  }

  lemma {:induction false} ArgExactly(args: seq<Arg>, name: string, value: string)
    ensures ArgOf(args, name) == Some(value) <==> Given(args, name, value)
    ensures ArgOf(args, name) == None <==> Absent(args, name)
  {
    if args != [] {
      ArgExactly(args[1..], name, value);
      if args[0].name == name {
        assert args[0] == Arg(name, args[0].value);
      } else {
        if Given(args[1..], name, value) {
          var i :| 0 <= i < |args[1..]| && args[1..][i] == Arg(name, value)
                   && forall j :: 0 <= j < i ==> args[1..][j].name != name;
          assert args[i + 1] == Arg(name, value);
          forall j | 0 <= j < i + 1 ensures args[j].name != name {
            assert j > 0 ==> args[j] == args[1..][j - 1];
          }
        }
        if Given(args, name, value) {
          var i :| 0 <= i < |args| && args[i] == Arg(name, value) && forall j :: 0 <= j < i ==> args[j].name != name;
          assert i > 0;
          assert args[1..][i - 1] == Arg(name, value);
          forall j | 0 <= j < i - 1 ensures args[1..][j].name != name {
            assert args[1..][j] == args[j + 1];
          }
        }
        assert args == [args[0]] + args[1..];
      }
    }
  }

  /** The argument is a 32-bit number in decimal digits. */
  ghost predicate Numbered(args: seq<Arg>, name: string, n: Uint32) {
    exists v :: Given(args, name, v) && v != "" && AllDigits(v) && DigitsValue(v) == n
  }

  /** The number that an argument stands for; an absent or unreadable one stands for 0. */
  ghost predicate StandsFor(args: seq<Arg>, name: string, n: Uint32) {
    Numbered(args, name, n) || (n == 0 && forall m: Uint32 :: !Numbered(args, name, m))
  }

  lemma NumberExactly(args: seq<Arg>, name: string)
    ensures StandsFor(args, name, NumberOf(ArgOr(args, name, "0")))
  {
    hide DigitsValue, Given, ArgOf;
    var a := ArgOf(args, name);
    var text := ArgOr(args, name, "0");
    forall v ensures a == Some(v) <==> Given(args, name, v) {
      ArgExactly(args, name, v);
    }
    if a.None? {
      ZeroIsZero();
    } else if ParseUint32(text).Some? {
      assert Given(args, name, text);
      assert Numbered(args, name, NumberOf(text));
    }
  }

  lemma ZeroIsZero()
    ensures NumberOf("0") == 0
  {
    assert "0"[..0] == "";
    assert DigitsValue("0") == 0;
  }

  // ---------- the answer by flag ----------

  const METADATA := "BrowseMetadata"
  const CHILDREN := "BrowseDirectChildren"

  ghost predicate NamesObject(id: string) {
    exists oid :: Legible(oid) && Make(oid) == id
  }

  /** What is refused, and why, before any object is looked at. */
  lemma RefusedExactly(c: Db, req: Request)
    ensures req.action != "Browse" ==> Answer(c, req) == Err(InvalidAction)
    ensures req.action == "Browse" && Absent(req.args, "ObjectID") ==> Answer(c, req) == Err(InvalidArgs)
    ensures forall id ::
              req.action == "Browse" && Given(req.args, "ObjectID", id) && !NamesObject(id) ==>
                Answer(c, req) == Err(NoSuchObject)
  {
    hide Children, Metadata, ParseObjectId, Legible, Make, ArgOf, Given;
    ArgExactly(req.args, "ObjectID", "");
    forall id | req.action == "Browse" && Given(req.args, "ObjectID", id) && !NamesObject(id)
      ensures Answer(c, req) == Err(NoSuchObject)
    {
      ArgExactly(req.args, "ObjectID", id);
      AcceptsExactly(id);
    }
  }

  /** A request that names an object: its flag decides, and an absent one asks for the direct children. */
  lemma FlagDecides(c: Db, req: Request, oid: ObjectId, start: Uint32, count: Uint32)
    requires req.action == "Browse" && Legible(oid) && Given(req.args, "ObjectID", Make(oid))
    requires StandsFor(req.args, "StartingIndex", start) && StandsFor(req.args, "RequestedCount", count)
    ensures Given(req.args, "BrowseFlag", CHILDREN) || Absent(req.args, "BrowseFlag") ==>
              Answer(c, req) == Children(c, oid, start, count)
    ensures Given(req.args, "BrowseFlag", METADATA) ==> Answer(c, req) == Ok(Metadata(c, oid))
    ensures forall flag :: Given(req.args, "BrowseFlag", flag) && flag != CHILDREN && flag != METADATA ==>
              Answer(c, req) == Err(ArgumentInvalid)
  {
    hide Children, Metadata, ParseObjectId, Legible, Make, ArgOf, Given, NumberOf, ArgOr, StandsFor;
    ArgExactly(req.args, "ObjectID", Make(oid));
    ParseOfMake(oid);
    NumberExactly(req.args, "StartingIndex");
    NumberExactly(req.args, "RequestedCount");
    OneNumber(req.args, "StartingIndex", start, NumberOf(ArgOr(req.args, "StartingIndex", "0")));
    OneNumber(req.args, "RequestedCount", count, NumberOf(ArgOr(req.args, "RequestedCount", "0")));
    forall flag ensures Given(req.args, "BrowseFlag", flag) <==> ArgOf(req.args, "BrowseFlag") == Some(flag) {
      ArgExactly(req.args, "BrowseFlag", flag);
    }
    ArgExactly(req.args, "BrowseFlag", "");
    FlagOf(c, req, oid);
  }

  lemma OneNumber(args: seq<Arg>, name: string, n: Uint32, m: Uint32)
    requires StandsFor(args, name, n) && StandsFor(args, name, m)
    ensures n == m
  {
    hide DigitsValue, Given;
    if Numbered(args, name, n) && Numbered(args, name, m) {
      var v :| Given(args, name, v) && v != "" && AllDigits(v) && DigitsValue(v) == n;
      var w :| Given(args, name, w) && w != "" && AllDigits(w) && DigitsValue(w) == m;
      ArgExactly(args, name, v);
      ArgExactly(args, name, w);
    }
  }

  lemma FlagOf(c: Db, req: Request, oid: ObjectId)
    requires req.action == "Browse" && ArgOf(req.args, "ObjectID").Some?
    requires ParseObjectId(ArgOf(req.args, "ObjectID").value) == Ok(oid)
    ensures var flag := ArgOf(req.args, "BrowseFlag");
            var start, count :=
              NumberOf(ArgOr(req.args, "StartingIndex", "0")), NumberOf(ArgOr(req.args, "RequestedCount", "0"));
            Answer(c, req) ==
            if flag.None? || flag.value == CHILDREN then Children(c, oid, start, count)
            else if flag.value == METADATA then Ok(Metadata(c, oid)) else Err(ArgumentInvalid)
  {
    hide Children, Metadata, ParseObjectId, ArgOf, NumberOf;
  }

  // ---------- metadata ----------

  /** Asked for metadata, an object that exists is answered with its own entry alone, one that does not with none. */
  lemma MetadataExactly(c: Db, oid: ObjectId)
    requires Legible(oid)
    ensures var r := Metadata(c, oid);
            && r.updateId == c.updateId && r.returned == r.total == |r.nodes|
            && if Exists(c, oid) then |r.nodes| == 1 && r.nodes[0].id == Make(oid) else r.nodes == []
  {
    hide Wrap, IsListing, Enumerates;
    SmallLengths();
    NoLength();
  }

  lemma NoLength()
    ensures Wrap(0) == 0
  {}

  /** The parents that an object's own entry names and under which the object is not listed. */
  predicate IsOrphan(c: Tables, oid: ObjectId)
    requires Exists(c, oid)
  {
    match oid.kind
    case Root => true
    case Playlists => true
    case Album => c.albums[oid.entity].artistId == "" || c.albums[oid.entity].artistId !in c.artists
    case Track => c.tracks[oid.entity].albumId != "" && c.tracks[oid.entity].albumId !in c.albums
    case _ => false
  }

  /** An object's own entry names a parent that lists it, except for the root, the playlists and orphaned rows. */
  lemma ParentListsExactly(c: Db, oid: ObjectId)
    requires Exists(c, oid) && Legible(oid)
    ensures (exists p :: Make(p) == Description(c, oid).parent && Below(c, p, oid)) <==> !IsOrphan(c, oid)
  {
    hide IsListing, Enumerates, EndsWith, Wrap;
    var parent := Description(c, oid).parent;
    if !IsOrphan(c, oid) {
      var p := oid;
      match oid.kind {
      case Music => p := ObjectId(Kind.Root, "");
      case Artists => p := ObjectId(Kind.Music, "");
      case Artist => p := ObjectId(Kind.Artists, "");
      case ArtistAlbums => p := ObjectId(Kind.Artist, oid.entity);
      case Album => p := ObjectId(Kind.ArtistAlbums, c.albums[oid.entity].artistId);
      case Tracks => p := ObjectId(Kind.Music, "");
      case Playlist => p := ObjectId(Kind.Playlists, "");
      case Track =>
        var album := c.tracks[oid.entity].albumId;
        p := if album == "" then ObjectId(Kind.Tracks, "") else ObjectId(Kind.Album, album);
      case _ =>
      }
      assert Make(p) == parent && Below(c, p, oid);
    } else {
      forall p | Make(p) == parent ensures !Below(c, p, oid) {
        OrphanIsNotBelow(c, oid, p);
      }
    }
  }

  lemma OrphanIsNotBelow(c: Db, oid: ObjectId, p: ObjectId)
    requires Exists(c, oid) && Legible(oid) && IsOrphan(c, oid) && Make(p) == Description(c, oid).parent
    ensures !Below(c, p, oid)
  {
    hide IsListing, Enumerates, EndsWith, Wrap;
    if Below(c, p, oid) {
      match oid.kind
      case Playlists => RootMakes(p);
      case Album => ListMakes(c, p, c.albums[oid.entity].artistId);
      case Track => AlbumMakes(p, c.tracks[oid.entity].albumId);
      case _ =>
    }
  }

  lemma RootMakes(p: ObjectId)
    requires p.kind.Root?
    ensures Make(p) != "1"
  {}

  lemma ListMakes(c: Db, p: ObjectId, artist: string)
    requires p.kind.ArtistAlbums?
    requires Make(p) == if artist == "" then "0" else "artist:" + artist + ALBUMS_SUFFIX
    ensures p.entity == artist && artist != ""
  {
    var id := Make(p);
    assert |id| == 14 + |p.entity| && id[7..7 + |p.entity|] == p.entity;
    if artist != "" {
      assert |id| == 14 + |artist| && id[7..7 + |artist|] == artist;
    }
  }

  lemma Initials(p: ObjectId)
    ensures p.kind.Artist? || p.kind.ArtistAlbums? || p.kind.Artists? ==> |Make(p)| > 1 && Make(p)[1] == 'r'
    ensures p.kind.Track? || p.kind.Tracks? ==> |Make(p)| > 1 && Make(p)[0] == 't'
    ensures p.kind.Playlist? || p.kind.Playlists? ==> |Make(p)| > 1 && Make(p)[0] == 'p'
  {}

  lemma AlbumMakes(p: ObjectId, album: string)
    requires album != "" && Make(p) == "album:" + album
    ensures p.kind.Album? && p.entity == album
  {
    var id := Make(p);
    Initials(p);
    assert id[0] == 'a' && id[1] == 'l' && id[6..] == album;
    assert p.kind.Album? ==> id[6..] == p.entity;
  }

  // ---------- what entries show ----------

  /** The display name that the catalog has for an object. */
  function NameOf(c: Tables, oid: ObjectId): string
    requires Exists(c, oid)
  {
    match oid.kind
    case Root => "root"
    case Music => "Music"
    case Artists => "Artists"
    case Artist => c.artists[oid.entity].name
    case ArtistAlbums => "Albums"
    case Album => c.albums[oid.entity].title
    case Tracks => "All Tracks"
    case Playlists => "Playlists"
    case Playlist => c.playlists[oid.entity].title
    case Track => c.tracks[oid.entity].title
  }

  /** An item's number is its track's, and its cover is its album's if that has one. */
  predicate ShowsTrack(c: Tables, node: Node, track: string)
    requires track in c.tracks
  {
    && node.Item? && node.number == c.tracks[track].number
    && (node.art.Some? ==> node.art.value == c.tracks[track].albumId)
    && (node.art.Some? <==>
          var album := c.tracks[track].albumId;
          album != "" && album in c.albums && c.albums[album].cover.Some? && c.albums[album].cover.value != "")
  }

  predicate Shows(c: Tables, node: Node, oid: ObjectId)
    requires Exists(c, oid)
  {
    && node.id == Make(oid) && node.title == NameOf(c, oid)
    && if oid.kind.Track? then ShowsTrack(c, node, oid.entity) else node.Container?
  }

  /** An object's own entry shows it; a list of albums is told apart by its artist's name. */
  lemma DescriptionShows(c: Db, oid: ObjectId)
    requires Exists(c, oid) && Legible(oid)
    ensures !oid.kind.ArtistAlbums? ==> Shows(c, Description(c, oid), oid)
    ensures oid.kind.ArtistAlbums? ==>
              var d := Description(c, oid);
              d.id == Make(oid) && d.Container? && d.title == c.artists[oid.entity].name + DASH_ALBUMS
  {
    hide IsListing, Enumerates, EndsWith, Wrap, Shows;
    if IsFixed(oid.kind) {
      FixedShows(c, oid);
    } else if !oid.kind.ArtistAlbums? {
      RowShows(c, oid);
    }
  }

  lemma FixedShows(c: Db, oid: ObjectId)
    requires Legible(oid) && IsFixed(oid.kind)
    ensures Shows(c, Description(c, oid), oid)
  {
    hide IsListing, Enumerates, EndsWith, Wrap;
  }

  lemma RowShows(c: Db, oid: ObjectId)
    requires Exists(c, oid) && !IsFixed(oid.kind) && !oid.kind.ArtistAlbums?
    ensures Shows(c, Description(c, oid), oid)
  {
    hide IsListing, Enumerates, Wrap;
  }

  /** The parent that an entry names: the object browsed, or for the list of all tracks the track's album. */
  function ParentShown(c: Tables, oid: ObjectId, child: ObjectId): string {
    if oid.kind.Tracks? && child.entity in c.tracks && c.tracks[child.entity].albumId != "" then
      Make(ObjectId(Kind.Album, c.tracks[child.entity].albumId))
    else Make(oid)
  }

  lemma FixedEntryShows(c: Db, oid: ObjectId, start: Uint32, count: Uint32, node: Node) returns (child: ObjectId)
    requires (oid.kind.Root? || oid.kind.Music? || oid.kind.Artist?) && IsEntry(c, oid, start, count, node)
    ensures Below(c, oid, child) && Exists(c, child) && Shows(c, node, child)
    ensures node.parent == ParentShown(c, oid, child)
  {
    hide Paged, Wrap, PlaylistItems;
    match oid.kind
    case Root => child := ObjectId(if node.id == "1" then Kind.Music else Kind.Playlists, "");
    case Music => child := ObjectId(if node.id == "artists" then Kind.Artists else Kind.Tracks, "");
    case _ => child := ObjectId(Kind.ArtistAlbums, oid.entity);
  }

  lemma RowEntryShows(c: Db, oid: ObjectId, start: Uint32, count: Uint32, node: Node) returns (child: ObjectId)
    requires (oid.kind.Artists? || oid.kind.ArtistAlbums? || oid.kind.Playlists?) && IsEntry(c, oid, start, count, node)
    ensures Below(c, oid, child) && Exists(c, child) && Shows(c, node, child)
    ensures node.parent == ParentShown(c, oid, child)
  {
    hide Paged, Wrap, PlaylistItems;
    if oid.kind.Artists? {
      var a := PagedRow(ArtistNode(c), c.Artists(), start, count, c.updateId, node);
      child := ObjectId(Kind.Artist, a.id);
    } else if oid.kind.ArtistAlbums? {
      var a := PagedRow(AlbumNode(c, oid.entity), c.AlbumsOf(oid.entity), start, count, c.updateId, node);
      child := ObjectId(Kind.Album, a.id);
    } else {
      var p := PagedRow(PlaylistNode, c.Playlists(), start, count, c.updateId, node);
      child := ObjectId(Kind.Playlist, p.id);
    }
  }

  lemma TrackEntryShows(c: Db, oid: ObjectId, start: Uint32, count: Uint32, node: Node) returns (child: ObjectId)
    requires (oid.kind.Album? || oid.kind.Tracks?) && IsEntry(c, oid, start, count, node)
    ensures Below(c, oid, child) && Exists(c, child) && Shows(c, node, child)
    ensures node.parent == ParentShown(c, oid, child)
  {
    hide Paged, Wrap, PlaylistItems;
    var t;
    if oid.kind.Album? {
      t := PagedRow(AlbumTrackNode(c, oid.entity), c.TracksOf(oid.entity), start, count, c.updateId, node);
    } else {
      t := PagedRow(AnyTrackNode(c), c.Tracks(), start, count, c.updateId, node);
    }
    child := ObjectId(Kind.Track, t.id);
  }

  lemma NoTrackEntry(c: Db, oid: ObjectId, start: Uint32, count: Uint32, node: Node)
    requires oid.kind.Track?
    ensures !IsEntry(c, oid, start, count, node)
  {}

  /** Every entry of a listing shows an object below it. */
  lemma EntryShows(c: Db, oid: ObjectId, start: Uint32, count: Uint32, node: Node) returns (child: ObjectId)
    requires IsEntry(c, oid, start, count, node)
    ensures Below(c, oid, child) && Exists(c, child) && Shows(c, node, child)
    ensures node.parent == ParentShown(c, oid, child)
  {
    hide IsEntry, Below, Exists, Shows, ParentShown;
    match oid.kind
    case Root => child := FixedEntryShows(c, oid, start, count, node);
    case Music => child := FixedEntryShows(c, oid, start, count, node);
    case Artist => child := FixedEntryShows(c, oid, start, count, node);
    case Artists => child := RowEntryShows(c, oid, start, count, node);
    case ArtistAlbums => child := RowEntryShows(c, oid, start, count, node);
    case Playlists => child := RowEntryShows(c, oid, start, count, node);
    case Album => child := TrackEntryShows(c, oid, start, count, node);
    case Tracks => child := TrackEntryShows(c, oid, start, count, node);
    case Playlist => child := PlaylistEntryShows(c, oid, start, count, node);
    case Track => NoTrackEntry(c, oid, start, count, node);
  }

  lemma PlaylistEntryShows(c: Db, oid: ObjectId, start: Uint32, count: Uint32, node: Node) returns (child: ObjectId)
    requires oid.kind.Playlist? && IsEntry(c, oid, start, count, node)
    ensures Below(c, oid, child) && Exists(c, child) && Shows(c, node, child)
    ensures node.parent == ParentShown(c, oid, child)
  {
    hide Ordered;
    var p := c.playlists[oid.entity];
    var item := LiveNodeFrom(c, ItemsAt(Ordered(p), start, count), IdOf(Kind.Playlist, p.id), node);
    OrderedFrom(p, item);
    child := ObjectId(Kind.Track, item.trackId);
    assert item in p.items;
  }

  /** Every answer carries the catalog's update id, but for a track's, which has no children. */
  lemma AnswersCarryUpdateId(c: Db, oid: ObjectId, start: Uint32, count: Uint32)
    requires Children(c, oid, start, count).Ok?
    ensures Children(c, oid, start, count).value.updateId == if oid.kind.Track? then 0 else c.updateId
  {
    hide Wrap, IsListing, Enumerates;
  }

  /** The listings that have no pages: what they show, in order. */
  lemma WholeListings(c: Db, oid: ObjectId, start: Uint32, count: Uint32)
    requires oid.kind.Root? || oid.kind.Music? || (oid.kind.Artist? && oid.entity in c.artists)
    ensures var nodes := Children(c, oid, start, count).value.nodes;
            && (oid.kind.Root? ==> |nodes| == 2 && nodes[0].id == "1" && nodes[1].id == "playlists")
            && (oid.kind.Music? ==> |nodes| == 2 && nodes[0].id == "artists" && nodes[1].id == "tracks")
            && (oid.kind.Artist? ==> |nodes| == 1 && nodes[0].id == "artist:" + oid.entity + ":albums")
  {
    hide Wrap, IsListing, Enumerates;
  }
}
