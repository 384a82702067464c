/**
 The library scan. `ScanFile` says what one file adds to a scan in progress; the methods do it against a
 writer that may refuse any of its calls.
 */
module MediaScanner {
  import opened Wrappers
  import opened PathLayout
  import opened ScannerIds
  import opened Catalog

  // ---------- what the scanner sees and does ----------

  datatype Cover = Cover(path: string, mime: Option<string>)

  /** Tags that ffprobe may have read. */
  datatype Tags = Tags(artist: Option<string>, album: Option<string>, title: Option<string>, durationMs: nat)

  /** A regular file: its path below the root when that can be told, and what stands beside and in it. */
  datatype MediaFile = MediaFile(relative: Option<seq<string>>, path: string, cover: Option<Cover>, tags: Tags,
    size: nat)

  datatype Entry = NotRegular | Regular(file: MediaFile)

  datatype Row =
    | ArtistRow(artist: Artist)
    | AlbumRow(album: Album)
    | TrackRow(track: Track)
    | RenditionRow(rendition: Rendition)
    | AssetRow(asset: Asset)
    | UpdateIdBump

  datatype Call = Call(row: Row, ok: bool)

  datatype ScanError = NoRoot | CannotOpen | Refused(row: Row)

  datatype Report = Report(artists: nat, albums: nat, tracks: nat, renditions: nat, covers: nat, skipped: nat,
                           errors: seq<ScanError>)

  /** A scan in progress: the writer's calls so far, the dedupe sets and the report. */
  datatype Scan = Scan(log: seq<Call>, artists: set<string>, albums: set<string>, covers: set<string>, report: Report)

  const NOTHING := Report(0, 0, 0, 0, 0, 0, [])

  /** Which of its calls, by their number, the writer refuses. */
  type Refusals = nat -> bool

  // ---------- one file ----------

  /** The file's place in the library: its path and the slugs of it that ids are made of. */
  datatype Placed = Placed(path: TrackPath, albumSlug: string, trackSlug: string, keys: Keys)

  function PlaceOf(f: MediaFile): Option<Placed> {
    if f.relative.None? then None
    else match ParsedPath(f.relative.value)
      case None => None
      case Some(p) =>
        if p.extension !in AUDIO_EXTENSIONS || Slug(p.artist) == "" || Slug(p.album) == "" || Slug(p.title) ==
          "" then None
        else Some(Placed(p, Slug(p.album), Slug(p.title),
                         KeysFrom(Slug(p.artist), Slug(p.album), Slug(p.title), p.number, p.extension)))
  }

  function Or(tag: Option<string>, name: string): string {
    if tag.Some? then tag.value else name
  }

  function AssetOf(k: Keys, c: Cover): Asset {
    Asset(k.cover, c.path, Or(c.mime, "image/jpeg"))
  }

  function ArtistOf(p: Placed, f: MediaFile): Artist {
    Artist(p.keys.artist, Or(f.tags.artist, p.path.artist), p.keys.artist)
  }

  function AlbumOf(p: Placed, f: MediaFile, cover: Option<string>): Album {
    Album(p.keys.album, p.keys.artist, Or(f.tags.album, p.path.album), p.albumSlug, cover)
  }

  function TrackOf(p: Placed, f: MediaFile): Track {
    Track(p.keys.track, p.keys.album, p.keys.artist, Or(f.tags.title, p.path.title), p.trackSlug, p.path.number,
          f.tags.durationMs)
  }

  function RenditionOf(p: Placed, f: MediaFile): Rendition {
    Rendition(p.keys.rendition, p.keys.track, f.size, f.path)
  }

  /** A call: it is recorded, and reported when it is refused. */
  function Put(s: Scan, row: Row, refuses: Refusals): Scan {
    var ok := !refuses(|s.log|);
    s.(log := s.log + [Call(row, ok)],
       report := if ok then s.report else s.report.(errors := s.report.errors + [Refused(row)]))
  }

  predicate LastOk(s: Scan) {
    s.log != [] && s.log[|s.log| - 1].ok
  }

  /** The cover is looked for until the album's row is written, and written once. */
  function WithCover(s: Scan, k: Keys, cover: Option<Cover>, refuses: Refusals): Scan {
    if k.album in s.albums || cover.None? || k.cover in s.covers then s
    else
      var s := Put(s, AssetRow(AssetOf(k, cover.value)), refuses);
      if LastOk(s) then s.(covers := s.covers + {k.cover}, report := s.report.(covers := s.report.covers + 1)) else s
  }

  /** The cover that an album row would name. */
  function CoverId(s: Scan, k: Keys, cover: Option<Cover>): Option<string> {
    if k.album !in s.albums && cover.Some? && k.cover in s.covers then Some(k.cover) else None
  }

  function WithArtist(s: Scan, a: Artist, refuses: Refusals): Scan {
    if a.id in s.artists then s
    else
      var s := Put(s, ArtistRow(a), refuses);
      if LastOk(s) then s.(artists := s.artists + {a.id}, report := s.report.(artists := s.report.artists + 1)) else s
  }

  function WithAlbum(s: Scan, a: Album, refuses: Refusals): Scan {
    if a.id in s.albums then s
    else
      var s := Put(s, AlbumRow(a), refuses);
      if LastOk(s) then s.(albums := s.albums + {a.id}, report := s.report.(albums := s.report.albums + 1)) else s
  }

  function WithTrack(s: Scan, t: Track, r: Rendition, refuses: Refusals): Scan {
    var s := Put(s, TrackRow(t), refuses);
    if !LastOk(s) then s
    else
      var s := Put(s.(report := s.report.(tracks := s.report.tracks + 1)), RenditionRow(r), refuses);
      if LastOk(s) then s.(report := s.report.(renditions := s.report.renditions + 1)) else s
  }

  function ScanPlaced(s: Scan, p: Placed, f: MediaFile, refuses: Refusals): Scan {
    var s1 := WithCover(s, p.keys, f.cover, refuses);
    var s2 := WithArtist(s1, ArtistOf(p, f), refuses);
    if p.keys.artist !in s2.artists then s2
    else
      var s3 := WithAlbum(s2, AlbumOf(p, f, CoverId(s1, p.keys, f.cover)), refuses);
      if p.keys.album !in s3.albums then s3 else WithTrack(s3, TrackOf(p, f), RenditionOf(p, f), refuses)
  }

  function Skip(s: Scan): Scan {
    s.(report := s.report.(skipped := s.report.skipped + 1))
  }

  function ScanFile(s: Scan, f: MediaFile, refuses: Refusals): Scan {
    match PlaceOf(f)
    case None => Skip(s)
    case Some(p) => ScanPlaced(s, p, f, refuses)
  }

  function ScanEntry(s: Scan, e: Entry, refuses: Refusals): Scan {
    match e
    case NotRegular => s
    case Regular(f) => ScanFile(s, f, refuses)
  }

  function ScanAll(log: seq<Call>, entries: seq<Entry>, refuses: Refusals): Scan {
    if entries == [] then Scan(log, {}, {}, {}, NOTHING)
    else ScanEntry(ScanAll(log, entries[..|entries| - 1], refuses), entries[|entries| - 1], refuses)
  }

  /** After the last file the update id is bumped. */
  function Finish(s: Scan, refuses: Refusals): Scan {
    Put(s, UpdateIdBump, refuses)
  }

  /**
   The entries that a walk comes to. `breaks` is the entry behind which a step fails; a failed step leaves
   the iterator equal to the end, as the C++ standard has it.
   */
  function Reached(entries: seq<Entry>, breaks: Option<nat>): seq<Entry> {
    if breaks.Some? && breaks.value < |entries| then entries[..breaks.value + 1] else entries
  }

  // ---------- the program ----------

  /** A recursive directory iterator. */
  class Walk {
    const entries: seq<Entry>
    const breaks: Option<nat>
    var at: nat

    constructor (entries: seq<Entry>, breaks: Option<nat>)
      ensures this.entries == entries && this.breaks == breaks && at == 0
    {
      this.entries, this.breaks := entries, breaks;
      at := 0;
    }

    predicate AtEnd()
      reads this
    {
      at >= |entries|
    }

    method Increment() returns (failed: bool)
      requires !AtEnd()
      modifies this
      ensures failed == (breaks == Some(old(at)))
      ensures at == if failed then |entries| else old(at) + 1
    {
      failed := breaks == Some(at);
      at := if failed then |entries| else at + 1;
    }
  }

  /** A catalog writer: it may refuse any call. */
  class Writer {
    var log: seq<Call>
    const refuses: Refusals

    constructor (refuses: Refusals)
      ensures log == [] && this.refuses == refuses
    {
      log := [];
      this.refuses := refuses;
    }

    method Upsert(row: Row) returns (ok: bool)
      modifies this
      ensures ok == !refuses(old(|log|)) && log == old(log) + [Call(row, ok)]
    {
      ok := !refuses(|log|);
      log := log + [Call(row, ok)];
    }
  }

  /** The local variables of a scan. */
  class Scanner {
    const writer: Writer
    var seenArtists: set<string>
    var seenAlbums: set<string>
    var seenCovers: set<string>
    var report: Report

    ghost function State(): Scan
      reads this, writer
    {
      Scan(writer.log, seenArtists, seenAlbums, seenCovers, report)
    }

    constructor (writer: Writer)
      ensures this.writer == writer && State() == Scan(writer.log, {}, {}, {}, NOTHING)
    {
      this.writer := writer;
      seenArtists, seenAlbums, seenCovers, report := {}, {}, {}, NOTHING;
    }

    method Upsert(row: Row) returns (ok: bool)
      modifies this, writer
      ensures State() == Put(old(State()), row, writer.refuses) && ok == LastOk(State())
    {
      ok := writer.Upsert(row);
      if !ok {
        report := report.(errors := report.errors + [Refused(row)]);
      }
    }

    method UpsertCover(k: Keys, cover: Option<Cover>) returns (id: Option<string>)
      modifies this, writer
      ensures State() == WithCover(old(State()), k, cover, writer.refuses)
      ensures id == CoverId(State(), k, cover)
    {
      id := None;
      if k.album !in seenAlbums && cover.Some? {
        if k.cover !in seenCovers {
          var ok := Upsert(AssetRow(AssetOf(k, cover.value)));
          if ok {
            report := report.(covers := report.covers + 1);
            seenCovers := seenCovers + {k.cover};
            id := Some(k.cover);
          }
        } else {
          id := Some(k.cover);
        }
      }
    }

    method UpsertArtist(a: Artist) returns (known: bool)
      modifies this, writer
      ensures State() == WithArtist(old(State()), a, writer.refuses) && known == (a.id in seenArtists)
    {
      known := a.id in seenArtists;
      if !known {
        known := Upsert(ArtistRow(a));
        if known {
          report := report.(artists := report.artists + 1);
          seenArtists := seenArtists + {a.id};
        }
      }
    }

    method UpsertAlbum(a: Album) returns (known: bool)
      modifies this, writer
      ensures State() == WithAlbum(old(State()), a, writer.refuses) && known == (a.id in seenAlbums)
    {
      known := a.id in seenAlbums;
      if !known {
        known := Upsert(AlbumRow(a));
        if known {
          report := report.(albums := report.albums + 1);
          seenAlbums := seenAlbums + {a.id};
        }
      }
    }

    method UpsertTrack(t: Track, r: Rendition)
      modifies this, writer
      ensures State() == WithTrack(old(State()), t, r, writer.refuses)
    {
      var ok := Upsert(TrackRow(t));
      if ok {
        report := report.(tracks := report.tracks + 1);
        ok := Upsert(RenditionRow(r));
        if ok {
          report := report.(renditions := report.renditions + 1);
        }
      }
    }

    method ScanOne(f: MediaFile)
      modifies this, writer
      ensures State() == ScanFile(old(State()), f, writer.refuses)
    {
      hide Put, WithCover, WithArtist, WithAlbum, WithTrack, PlaceOf;
      var place := PlaceOf(f);
      if place.None? {
        report := report.(skipped := report.skipped + 1);
        return;
      }
      var p := place.value;
      var coverId := UpsertCover(p.keys, f.cover);
      var known := UpsertArtist(ArtistOf(p, f));
      if !known {
        return;
      }
      known := UpsertAlbum(AlbumOf(p, f, coverId));
      if known {
        UpsertTrack(TrackOf(p, f), RenditionOf(p, f));
      }
    }

    /** The loop's report of a failed step is not here: whoever sees a failure is at the end already. */
    method ScanWalk(walk: Walk)
      requires walk.at == 0 && State() == Scan(writer.log, {}, {}, {}, NOTHING)
      modifies this, writer, walk
      ensures State() == ScanAll(old(writer.log), Reached(walk.entries, walk.breaks), writer.refuses)
    {
      hide ScanFile;
      ghost var log, reached := writer.log, Reached(walk.entries, walk.breaks);
      var failed := false;
      while !walk.AtEnd()
        invariant walk.at <= |walk.entries| && (failed ==> walk.AtEnd())
        invariant !walk.AtEnd() ==> walk.at < |reached|
        invariant State() == ScanAll(log, if walk.AtEnd() then reached else reached[..walk.at], writer.refuses)
        decreases |walk.entries| - walk.at
      {
        assert !failed;
        ghost var i := walk.at;
        assert reached[..i + 1][..i] == reached[..i];
        if walk.entries[walk.at].Regular? {
          ScanOne(walk.entries[walk.at].file);
        }
        failed := walk.Increment();
        assert walk.AtEnd() ==> reached[..i + 1] == reached;
      }
    }
  }

  datatype Root = Missing | Closed | Open(entries: seq<Entry>, breaks: Option<nat>)

  method ScanLibrary(root: Root, writer: Writer) returns (report: Report)
    modifies writer
    ensures root.Missing? ==> report == NOTHING.(errors := [NoRoot]) && writer.log == old(writer.log)
    ensures root.Closed? ==> report == NOTHING.(errors := [CannotOpen]) && writer.log == old(writer.log)
    ensures root.Open? ==>
              var s :=
                Finish(ScanAll(old(writer.log), Reached(root.entries, root.breaks), writer.refuses), writer.refuses);
              report == s.report && writer.log == s.log
  {
    match root
    case Missing => return NOTHING.(errors := [NoRoot]);
    case Closed => return NOTHING.(errors := [CannotOpen]);
    case Open(entries, breaks) =>
      var scanner := new Scanner(writer);
      var walk := new Walk(entries, breaks);
      scanner.ScanWalk(walk);
      var _ := scanner.Upsert(UpdateIdBump);
      report := scanner.report;
  }
}
