/** ContentDirectory object ids: how they are printed and parsed. */
module ObjectIds {
  import opened Wrappers

  datatype Kind = Root | Music | Artists | Artist | ArtistAlbums | Album | Tracks | Playlists | Playlist | Track

  /** `entity` is the catalog's id of the object; it is empty for the fixed containers. */
  datatype ObjectId = ObjectId(kind: Kind, entity: string)

  datatype ObjectIdError = EmptyId | InvalidFormat | UnknownKind

  const ALBUMS_SUFFIX := ":albums"

  predicate EndsWith(s: string, tail: string) {
    |s| >= |tail| && s[|s| - |tail|..] == tail
  }

  function Make(oid: ObjectId): string {
    match oid.kind
    case Root => "0"
    case Music => "1"
    case Artists => "artists"
    case Artist => "artist:" + oid.entity
    case ArtistAlbums => "artist:" + oid.entity + ALBUMS_SUFFIX
    case Album => "album:" + oid.entity
    case Tracks => "tracks"
    case Playlists => "playlists"
    case Playlist => "playlist:" + oid.entity
    case Track => "track:" + oid.entity
  }

  function WithEntity(kind: Kind, entity: string): Result<ObjectId, ObjectIdError> {
    if entity == "" then Err(InvalidFormat) else Ok(ObjectId(kind, entity))
  }

  function ParseObjectId(id: string): Result<ObjectId, ObjectIdError> {
    if id == "" then Err(EmptyId)
    else if id == "0" then Ok(ObjectId(Root, ""))
    else if id == "1" then Ok(ObjectId(Music, ""))
    else if id == "artists" then Ok(ObjectId(Artists, ""))
    else if id == "tracks" then Ok(ObjectId(Tracks, ""))
    else if id == "playlists" then Ok(ObjectId(Playlists, ""))
    else if "artist:" <= id then
      var rest := id[7..];
      if EndsWith(rest, ALBUMS_SUFFIX) then WithEntity(ArtistAlbums, rest[..|rest| - 7]) else WithEntity(Artist, rest)
    else if "album:" <= id then WithEntity(Album, id[6..])
    else if "track:" <= id then WithEntity(Track, id[6..])
    else if "playlist:" <= id then WithEntity(Playlist, id[9..])
    else Err(UnknownKind)
  }

  predicate IsFixed(kind: Kind) {
    kind.Root? || kind.Music? || kind.Artists? || kind.Tracks? || kind.Playlists?
  }

  /** The ids that mean themselves: an artist id that ends like an album list would be read as one. */
  predicate Legible(oid: ObjectId) {
    if IsFixed(oid.kind) then oid.entity == ""
    else oid.entity != "" && (oid.kind.Artist? ==> !EndsWith(oid.entity, ALBUMS_SUFFIX))
  }

  lemma Prefixed(prefix: string, id: string)
    requires prefix <= id
    ensures id == prefix + id[|prefix|..]
  {}

  lemma Suffixed(rest: string)
    requires EndsWith(rest, ALBUMS_SUFFIX)
    ensures "artist:" + rest == "artist:" + rest[..|rest| - 7] + ALBUMS_SUFFIX
  {
    assert rest == rest[..|rest| - 7] + ALBUMS_SUFFIX;
  }

  /** Every id that is accepted prints back to the same text, and is one that means itself. */
  lemma MakeOfParse(id: string)
    requires ParseObjectId(id).Ok?
    ensures Make(ParseObjectId(id).value) == id && Legible(ParseObjectId(id).value)
  {
    hide EndsWith;
    if "artist:" <= id {
      Prefixed("artist:", id);
      if EndsWith(id[7..], ALBUMS_SUFFIX) {
        Suffixed(id[7..]);
      }
    } else if "album:" <= id {
      Prefixed("album:", id);
    } else if "track:" <= id {
      Prefixed("track:", id);
    } else if "playlist:" <= id {
      Prefixed("playlist:", id);
    }
  }

  /** A printed id parses back exactly when it means itself. */
  lemma ParseOfMake(oid: ObjectId)
    ensures ParseObjectId(Make(oid)) == Ok(oid) <==> Legible(oid)
  {
    var id := Make(oid);
    if ParseObjectId(id) == Ok(oid) {
      MakeOfParse(id);
    }
    match oid.kind
    case Artist => assert id[7..] == oid.entity && id[6] == ':';
    case ArtistAlbums =>
      assert id[7..] == oid.entity + ALBUMS_SUFFIX && id[6] == ':';
      assert id[7..][|oid.entity|..] == ALBUMS_SUFFIX && id[7..][..|oid.entity|] == oid.entity;
    case Album => assert id[6..] == oid.entity && id[0] == 'a' && id[1] == 'l' && id[5] == ':';
    case Track => assert id[6..] == oid.entity && id[5] == ':' && id[0] == 't';
    case Playlist => assert id[9..] == oid.entity && id[8] == ':' && id[0] == 'p';
    case _ =>
  }

  /** No two objects share an id. */
  lemma MakeInjective(a: ObjectId, b: ObjectId)
    requires Legible(a) && Legible(b) && Make(a) == Make(b)
    ensures a == b
  {
    ParseOfMake(a);
    ParseOfMake(b);
  }

  /** The texts that are accepted: exactly the printed ids that mean themselves. */
  lemma AcceptsExactly(id: string)
    ensures ParseObjectId(id).Ok? <==> exists oid :: Legible(oid) && Make(oid) == id
  {
    if ParseObjectId(id).Ok? {
      MakeOfParse(id);
    }
    if oid :| Legible(oid) && Make(oid) == id {
      ParseOfMake(oid);
    }
  }

  /** The texts of ids. */
  lemma IdTexts(e: string)
    ensures Make(ObjectId(Root, "")) == "0" && Make(ObjectId(Music, "")) == "1"
    ensures Make(ObjectId(Artists, "")) == "artists" && Make(ObjectId(Tracks, "")) == "tracks"
    ensures Make(ObjectId(Playlists, "")) == "playlists"
    ensures Make(ObjectId(Artist, e)) == "artist:" + e && Make(ObjectId(ArtistAlbums, e)) == "artist:" + e + ":albums"
    ensures Make(ObjectId(Album, e)) == "album:" + e && Make(ObjectId(Track, e)) == "track:" + e
    ensures Make(ObjectId(Playlist, e)) == "playlist:" + e
  {}
}
