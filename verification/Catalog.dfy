/** The catalog: its rows, and the in-memory repository that keeps and lists them. */
module Catalog {
  import opened Wrappers
  import opened Listings

  datatype Artist = Artist(id: string, name: string, sortName: string)

  datatype Album = Album(id: string, artistId: string, title: string, sortTitle: string, cover: Option<string>)

  datatype Track = Track(id: string, albumId: string, artistId: string, title: string, sortTitle: string,
                         number: Option<nat>, durationMs: nat)

  datatype Rendition = Rendition(id: string, trackId: string, sizeBytes: nat, path: string)

  datatype PlaylistItem = PlaylistItem(trackId: string, position: Uint32)

  datatype Playlist = Playlist(id: string, title: string, items: seq<PlaylistItem>)

  datatype Asset = Asset(id: string, path: string, mime: string)

  /** The state of a repository. */
  datatype Tables = Tables(
    artists: map<string, Artist>, albums: map<string, Album>, tracks: map<string, Track>,
    renditions: map<string, seq<Rendition>>, playlists: map<string, Playlist>, assets: map<string, Asset>,
    updateId: Uint32)
  {
    ghost predicate Valid() {
      && Keyed(artists, ArtistId) && Keyed(albums, AlbumId) && Keyed(tracks, TrackId)
      && Keyed(playlists, PlaylistId) && Keyed(assets, AssetId)
      && forall t :: t in renditions ==> forall r :: r in renditions[t] ==> r.trackId == t
    }

    ghost function Artists(): seq<Artist>
      requires Valid()
    {
      Listing(artists, EveryArtist, ArtistId)
    }

    ghost function AlbumsOf(artist: string): seq<Album>
      requires Valid()
    {
      Listing(albums, ByArtist(artist), AlbumId)
    }

    ghost function TracksOf(album: string): seq<Track>
      requires Valid()
    {
      Listing(tracks, ByAlbum(album), TrackId)
    }

    ghost function Tracks(): seq<Track>
      requires Valid()
    {
      Listing(tracks, EveryTrack, TrackId)
    }

    ghost function Playlists(): seq<Playlist>
      requires Valid()
    {
      Listing(playlists, EveryPlaylist, PlaylistId)
    }

    function RenditionsOf(track: string): seq<Rendition> {
      if track in renditions then renditions[track] else []
    }
  }

  /** A catalog whose rows are stored under their own ids. */
  type Db = c: Tables | c.Valid() ghost witness Tables(map[], map[], map[], map[], map[], map[], 0)

  const ArtistId: Artist -> string := (a: Artist) => a.id
  const AlbumId: Album -> string := (a: Album) => a.id
  const TrackId: Track -> string := (t: Track) => t.id
  const PlaylistId: Playlist -> string := (p: Playlist) => p.id
  const AssetId: Asset -> string := (a: Asset) => a.id

  const EveryArtist: Artist -> bool := (a: Artist) => true
  const EveryTrack: Track -> bool := (t: Track) => true
  const EveryPlaylist: Playlist -> bool := (p: Playlist) => true

  function ByArtist(artist: string): Album -> bool {
    (a: Album) => a.artistId == artist
  }

  function ByAlbum(album: string): Track -> bool {
    (t: Track) => t.albumId == album
  }

  function Lookup<T>(table: map<string, T>, id: string): Option<T> {
    if id in table then Some(table[id]) else None
  }

  class InMemoryRepository {
    var artists: map<string, Artist>
    var albums: map<string, Album>
    var tracks: map<string, Track>
    var renditions: map<string, seq<Rendition>>
    var playlists: map<string, Playlist>
    var assets: map<string, Asset>
    var systemUpdateId: Uint32

    ghost predicate Valid()
      reads this
    {
      Contents().Valid()
    }

    ghost function Contents(): Tables
      reads this
    {
      Tables(artists, albums, tracks, renditions, playlists, assets, systemUpdateId)
    }

    ghost function View(): Db
      requires Valid()
      reads this
    {
      Contents()
    }

    constructor ()
      ensures Valid() && View() == Tables(map[], map[], map[], map[], map[], map[], 0)
    {
      artists, albums, tracks, renditions, playlists, assets := map[], map[], map[], map[], map[], map[];
      systemUpdateId := 0;
    }

    method AddArtist(a: Artist)
      requires Valid()
      modifies this
      ensures Valid() && View() == old(View()).(artists := old(artists)[a.id := a])
    {
      artists := artists[a.id := a];
    }

    method AddAlbum(a: Album)
      requires Valid()
      modifies this
      ensures Valid() && View() == old(View()).(albums := old(albums)[a.id := a])
    {
      albums := albums[a.id := a];
    }

    method AddTrack(t: Track)
      requires Valid()
      modifies this
      ensures Valid() && View() == old(View()).(tracks := old(tracks)[t.id := t])
    {
      tracks := tracks[t.id := t];
    }

    /** Renditions pile up: adding one again gives it twice. */
    method AddRendition(r: Rendition)
      requires Valid()
      modifies this
      ensures Valid()
      ensures View() == old(View()).(
                          renditions := old(renditions)[r.trackId := old(View()).RenditionsOf(r.trackId) + [r]])
    {
      var known := if r.trackId in renditions then renditions[r.trackId] else [];
      renditions := renditions[r.trackId := known + [r]];
    }

    method AddPlaylist(p: Playlist)
      requires Valid()
      modifies this
      ensures Valid() && View() == old(View()).(playlists := old(playlists)[p.id := p])
    {
      playlists := playlists[p.id := p];
    }

    method AddAsset(a: Asset)
      requires Valid()
      modifies this
      ensures Valid() && View() == old(View()).(assets := old(assets)[a.id := a])
    {
      assets := assets[a.id := a];
    }

    method BumpSystemUpdateId()
      requires Valid()
      modifies this`systemUpdateId
      ensures Valid() && View() == old(View()).(updateId := Wrap(old(systemUpdateId) + 1))
    {
      systemUpdateId := Wrap(systemUpdateId + 1);
    }

    method ListArtists(start: Uint32, count: Uint32) returns (page: Page<Artist>)
      requires Valid()
      ensures page == PageOf(View().Artists(), start, count)
    {
      page := Paginate(artists, start, count, EveryArtist, ArtistId);
    }

    method ListAlbumsForArtist(artist: string, start: Uint32, count: Uint32) returns (page: Page<Album>)
      requires Valid()
      ensures page == PageOf(View().AlbumsOf(artist), start, count)
    {
      page := Paginate(albums, start, count, ByArtist(artist), AlbumId);
    }

    method ListTracksForAlbum(album: string, start: Uint32, count: Uint32) returns (page: Page<Track>)
      requires Valid()
      ensures page == PageOf(View().TracksOf(album), start, count)
    {
      page := Paginate(tracks, start, count, ByAlbum(album), TrackId);
    }

    method ListAllTracks(start: Uint32, count: Uint32) returns (page: Page<Track>)
      requires Valid()
      ensures page == PageOf(View().Tracks(), start, count)
    {
      page := Paginate(tracks, start, count, EveryTrack, TrackId);
    }

    method ListPlaylists(start: Uint32, count: Uint32) returns (page: Page<Playlist>)
      requires Valid()
      ensures page == PageOf(View().Playlists(), start, count)
    {
      page := Paginate(playlists, start, count, EveryPlaylist, PlaylistId);
    }

    /** The search over all tracks' renditions, in any order of the tracks. */
    method GetRendition(id: string) returns (r: Option<Rendition>)
      ensures r.Some? ==> r.value.id == id
      ensures r.Some? ==> exists t :: t in renditions && r.value in renditions[t]
      ensures r.None? ==> forall t, x :: t in renditions && x in renditions[t] ==> x.id != id
    {
      var left := renditions.Keys;
      while left != {}
        invariant left <= renditions.Keys
        invariant forall t, x :: t in renditions && t !in left && x in renditions[t] ==> x.id != id
        decreases left
      {
        var t :| t in left;
        left := left - {t};
        var list := renditions[t];
        for i := 0 to |list|
          invariant forall k :: 0 <= k < i ==> list[k].id != id
        {
          if list[i].id == id {
            return Some(list[i]);
          }
        }
      }
      return None;
    }
  }

  // ---------- what listings hold ----------

  /** Every artist is listed once, and nothing else is. */
  lemma ArtistsListed(c: Db, a: Artist)
    ensures a in c.Artists() <==> a.id in c.artists && c.artists[a.id] == a
  {}

  lemma AlbumsListed(c: Db, artist: string, a: Album)
    ensures a in c.AlbumsOf(artist) <==> a.id in c.albums && c.albums[a.id] == a && a.artistId == artist
  {}

  lemma TracksOfListed(c: Db, album: string, t: Track)
    ensures t in c.TracksOf(album) <==> t.id in c.tracks && c.tracks[t.id] == t && t.albumId == album
  {}

  lemma TracksListed(c: Db, t: Track)
    ensures t in c.Tracks() <==> t.id in c.tracks && c.tracks[t.id] == t
  {}

  lemma PlaylistsListed(c: Db, p: Playlist)
    ensures p in c.Playlists() <==> p.id in c.playlists && c.playlists[p.id] == p
  {}
}
