/** What a control point collects that pages through an object's children, and its requests on the wire. */
module BrowsePaging {
  import opened Wrappers
  import opened Text
  import opened XmlText
  import opened Listings
  import opened Sorting
  import opened ObjectIds
  import opened Catalog
  import opened SoapParser
  import opened SoapDocument
  import opened SoapMessages
  import opened DlnaClient
  import opened RequestIds
  import opened ClientServer
  import opened Browse
  import opened BrowseTree

  /** The entries given for each StartingIndex, when `counts` are the RequestedCounts. */
  ghost function AnswerAt(c: Db, oid: ObjectId, counts: Uint32 -> Uint32): Uint32 -> seq<Node> {
    (s: Uint32) =>
      var r := Children(c, oid, s, counts(s));
      if r.Ok? then r.value.nodes else []
  }

  /** NumberReturned, by which the walk moves on, is the number of entries. */
  lemma ReturnedCounts(c: Db, oid: ObjectId, start: Uint32, count: Uint32)
    requires Children(c, oid, start, count).Ok?
    ensures Children(c, oid, start, count).value.returned == |Children(c, oid, start, count).value.nodes|
  {
    hide Paged, Whole, PlaylistItems;
    PagedReturned(ArtistNode(c), c.Artists(), start, count, c.updateId);
    PagedReturned(AlbumNode(c, oid.entity), c.AlbumsOf(oid.entity), start, count, c.updateId);
    PagedReturned(AlbumTrackNode(c, oid.entity), c.TracksOf(oid.entity), start, count, c.updateId);
    PagedReturned(AnyTrackNode(c), c.Tracks(), start, count, c.updateId);
    PagedReturned(PlaylistNode, c.Playlists(), start, count, c.updateId);
    OthersReturned(c, oid, start, count);
  }

  lemma PagedReturned<T(!new)>(f: T -> Node, xs: seq<T>, start: Uint32, count: Uint32, id: Uint32)
    ensures Paged(f, xs, start, count, id).returned == |Paged(f, xs, start, count, id).nodes|
  {}

  lemma OthersReturned(c: Db, oid: ObjectId, start: Uint32, count: Uint32)
    ensures forall nodes, id: Uint32 :: |nodes| < 3 ==> Whole(nodes, id).returned == |Whole(nodes, id).nodes|
    ensures forall p :: PlaylistItems(c, p, start, count).returned == |PlaylistItems(c, p, start, count).nodes|
  {
    hide Ordered, ItemsAt, LiveNodes;
  }

  // ---------- listings ----------

  /** All entries of an object whose children are a listing of the catalog. */
  ghost function AllEntries(c: Db, oid: ObjectId): (nodes: seq<Node>)
    requires IsListed(oid.kind)
    ensures |nodes| == RowCount(c, oid)
  {
    match oid.kind
    case Artists => Map(ArtistNode(c), c.Artists())
    case ArtistAlbums => Map(AlbumNode(c, oid.entity), c.AlbumsOf(oid.entity))
    case Album => Map(AlbumTrackNode(c, oid.entity), c.TracksOf(oid.entity))
    case Tracks => Map(AnyTrackNode(c), c.Tracks())
    case Playlists => Map(PlaylistNode, c.Playlists())
  }

  lemma MapPage<T(!new)>(f: T -> Node, xs: seq<T>, start: Uint32, count: Uint32, id: Uint32)
    ensures Paged(f, xs, start, count, id).nodes == PageOf(Map(f, xs), start, count).rows
  {
    var rows, nodes := PageOf(xs, start, count).rows, PageOf(Map(f, xs), start, count).rows;
    assert |nodes| == |rows|;
    forall i | 0 <= i < |rows| ensures f(rows[i]) == nodes[i] {
      RowInside(|xs|, start, i);
      assert rows[i] == xs[Wrap(start + i)] && nodes[i] == Map(f, xs)[Wrap(start + i)];
    }
  }

  lemma EntriesArePages(c: Db, oid: ObjectId, start: Uint32, count: Uint32)
    requires Exists(c, oid) && IsListed(oid.kind)
    ensures Children(c, oid, start, count).Ok?
    ensures Children(c, oid, start, count).value.nodes == PageOf(AllEntries(c, oid), start, count).rows
  {
    hide Paged, Map, PageOf, IsListing, Enumerates;
    match oid.kind
    case Artists => MapPage(ArtistNode(c), c.Artists(), start, count, c.updateId);
    case ArtistAlbums => MapPage(AlbumNode(c, oid.entity), c.AlbumsOf(oid.entity), start, count, c.updateId);
    case Album => MapPage(AlbumTrackNode(c, oid.entity), c.TracksOf(oid.entity), start, count, c.updateId);
    case Tracks => MapPage(AnyTrackNode(c), c.Tracks(), start, count, c.updateId);
    case Playlists => MapPage(PlaylistNode, c.Playlists(), start, count, c.updateId);
  }

  /**
   Paging through artists, an artist's albums, an album's tracks, all tracks or the playlists ends and
   gives every entry once, in order, whatever counts are asked for; exactly while uint32 can count them.
   */
  lemma PagingYieldsAll(c: Db, oid: ObjectId, counts: Uint32 -> Uint32)
    requires Exists(c, oid) && IsListed(oid.kind)
    ensures Walk(AnswerAt(c, oid, counts), 0) == AllEntries(c, oid) <==> RowCount(c, oid) < TWO_32
  {
    hide Walk, Children, AllEntries, PageOf, Exists;
    var answer := AnswerAt(c, oid, counts);
    forall s: Uint32 ensures answer(s) == PageOf(AllEntries(c, oid), s, counts(s)).rows {
      EntriesArePages(c, oid, s, counts(s));
    }
    WalkYieldsListing(answer, AllEntries(c, oid), counts);
  }

  // ---------- playlists ----------

  /** No item whose track is gone stands in front of one whose track is there. */
  ghost predicate NoGap(c: Tables, items: seq<PlaylistItem>) {
    forall i, j :: 0 <= i < j < |items| && IsLive(c, items[j]) ==> IsLive(c, items[i])
  }

  lemma {:induction false} LiveConcat(c: Tables, a: seq<PlaylistItem>, b: seq<PlaylistItem>, parent: string)
    ensures LiveNodes(c, a + b, parent) == LiveNodes(c, a, parent) + LiveNodes(c, b, parent)
  {
    if b == [] {
      assert a + b == a;
    } else {
      var n := |b| - 1;
      assert (a + b)[..|a + b| - 1] == a + b[..n];
      LiveConcat(c, a, b[..n], parent);
    }
  }

  lemma {:induction false} LiveCount(c: Tables, items: seq<PlaylistItem>, parent: string)
    ensures |LiveNodes(c, items, parent)| == |items| <==> forall i :: 0 <= i < |items| ==> IsLive(c, items[i])
    ensures LiveNodes(c, items, parent) == [] <==> forall i :: 0 <= i < |items| ==> !IsLive(c, items[i])
  {
    if items != [] {
      var n := |items| - 1;
      LiveCount(c, items[..n], parent);
      assert forall i :: 0 <= i < n ==> items[..n][i] == items[i];
    }
  }

  lemma {:induction false} SplitPoint(c: Tables, items: seq<PlaylistItem>) returns (n: nat)
    requires NoGap(c, items)
    ensures n <= |items|
    ensures forall i :: 0 <= i < |items| ==> (IsLive(c, items[i]) <==> i < n)
  {
    n := |items|;
    if items != [] && !IsLive(c, items[|items| - 1]) {
      n := SplitPoint(c, items[..|items| - 1]);
      assert forall i :: 0 <= i < |items| - 1 ==> items[..|items| - 1][i] == items[i];
    }
  }

  lemma PlaylistPage(c: Db, oid: ObjectId, counts: Uint32 -> Uint32, start: Uint32)
    requires oid.kind.Playlist? && Exists(c, oid)
    ensures AnswerAt(c, oid, counts)(start) ==
            LiveNodes(c, ItemsAt(Ordered(c.playlists[oid.entity]), start, counts(start)), Make(oid))
  {
    hide LiveNodes, ItemsAt, Ordered, Make;
    assert oid == ObjectId(Kind.Playlist, oid.entity);
    var count := counts(start);
    assert Children(c, oid, start, count) == Ok(PlaylistItems(c, c.playlists[oid.entity], start, count));
  }

  /** One page from a place in front of which all is live: the next live items, if any are left. */
  lemma PlaylistStep(c: Tables, items: seq<PlaylistItem>, start: Uint32, count: Uint32, n: nat, parent: string)
    returns (k: nat)
    requires start <= n <= |items| < TWO_32
    requires forall i :: 0 <= i < |items| ==> (IsLive(c, items[i]) <==> i < n)
    ensures |LiveNodes(c, ItemsAt(items, start, count), parent)| == k <= n - start && (k == 0 <==> start == n)
    ensures LiveNodes(c, items[start..], parent) ==
            LiveNodes(c, ItemsAt(items, start, count), parent) + LiveNodes(c, items[start + k..], parent)
  {
    hide LiveNodes, IsLive;
    var page := ItemsAt(items, start, count);
    assert start < n ==> page != [];
    forall i | 0 <= i < |page| ensures IsLive(c, page[i]) <==> i < n - start {
      assert page[i] == items[start + i];
    }
    k := if |page| < n - start then |page| else n - start;
    assert page == page[..k] + page[k..] && items[start..] == page[..k] + items[start + k..];
    LiveConcat(c, page[..k], page[k..], parent);
    LiveConcat(c, page[..k], items[start + k..], parent);
    LiveCount(c, page[..k], parent);
    LiveCount(c, page[k..], parent);
  }

  /** So the walk gives the live items that are left. */
  lemma {:induction false} PlaylistWalkFrom(c: Db, oid: ObjectId, counts: Uint32 -> Uint32, start: Uint32, n: nat)
    requires oid.kind.Playlist? && Exists(c, oid)
    requires var items := Ordered(c.playlists[oid.entity]);
             start <= n <= |items| && forall i :: 0 <= i < |items| ==> (IsLive(c, items[i]) <==> i < n)
    ensures Walk(AnswerAt(c, oid, counts), start) == LiveNodes(c, Ordered(c.playlists[oid.entity])[start..], Make(oid))
    decreases TWO_32 - start
  {
    hide AnswerAt, ItemsAt, LiveNodes, Ordered, Make, IsLive;
    var items := Ordered(c.playlists[oid.entity]);
    PlaylistPage(c, oid, counts, start);
    var k := PlaylistStep(c, items, start, counts(start), n, Make(oid));
    if start == n {
      LiveCount(c, items[start..], Make(oid));
    } else {
      PlaylistWalkFrom(c, oid, counts, start + k, n);
    }
  }

  /** With a gap, a client that asks for everything is given some items again. */
  lemma GapRepeats(c: Db, oid: ObjectId)
    requires oid.kind.Playlist? && Exists(c, oid) && !NoGap(c, Ordered(c.playlists[oid.entity]))
    ensures |Walk(AnswerAt(c, oid, (_: Uint32) => 0), 0)| > |LiveNodes(c, Ordered(c.playlists[oid.entity]), Make(oid))|
  {
    hide Children, LiveNodes, Ordered, Make;
    var items := Ordered(c.playlists[oid.entity]);
    var counts := (_: Uint32) => 0 as Uint32;
    var answer := AnswerAt(c, oid, counts);
    var n := |LiveNodes(c, items, Make(oid))|;
    PlaylistPage(c, oid, counts, 0);
    assert ItemsAt(items, 0, 0) == items;
    PlaylistPage(c, oid, counts, n);
    assert ItemsAt(items, n, 0) == items[n..];
    assert items == items[..n] + items[n..];
    LiveConcat(c, items[..n], items[n..], Make(oid));
    LiveCount(c, items[..n], Make(oid));
    LiveCount(c, items[n..], Make(oid));
    LiveCount(c, items, Make(oid));
    GapCounts(c, items, n);
  }

  lemma GapCounts(c: Tables, items: seq<PlaylistItem>, n: nat)
    requires !NoGap(c, items) && n <= |items|
    ensures exists i :: 0 <= i < |items| && IsLive(c, items[i])
    ensures (exists i :: 0 <= i < n && !IsLive(c, items[i])) || (exists i :: n <= i < |items| && IsLive(c, items[i]))
  {}

  /** A client pages through a playlist faithfully, whatever its counts, exactly when the playlist has no gap. */
  lemma PlaylistPagingExactly(c: Db, oid: ObjectId)
    requires oid.kind.Playlist? && Exists(c, oid)
    ensures (forall counts ::
               Walk(AnswerAt(c, oid, counts), 0) == LiveNodes(c, Ordered(c.playlists[oid.entity]), Make(oid)))
            <==> NoGap(c, Ordered(c.playlists[oid.entity]))
  {
    hide Walk, LiveNodes, AnswerAt, Ordered;
    var items := Ordered(c.playlists[oid.entity]);
    if NoGap(c, items) {
      var n := SplitPoint(c, items);
      forall counts ensures Walk(AnswerAt(c, oid, counts), 0) == LiveNodes(c, items, Make(oid)) {
        PlaylistWalkFrom(c, oid, counts, 0, n);
        assert items[0..] == items;
      }
    } else {
      GapRepeats(c, oid);
    }
  }

  /** Items at the same position keep the order in which the playlist has them. */
  lemma PlaylistOrder(p: Playlist, position: Uint32)
    requires |p.items| < TWO_32
    ensures multiset(Ordered(p)) == multiset(p.items)
    ensures forall i, j :: 0 <= i < j < |Ordered(p)| ==> Ordered(p)[i].position <= Ordered(p)[j].position
    ensures var here := (item: PlaylistItem) => item.position == position;
            Select(Ordered(p), here) == Select(p.items, here)
  {
    hide Sort;
    SortPermutes(p.items, NoLaterPosition);
    SortSorts(p.items, NoLaterPosition);
    var here := (item: PlaylistItem) => item.position == position;
    SortStable(p.items, NoLaterPosition, here);
    var ordered := Sort(p.items, NoLaterPosition);
    assert ordered[..|ordered|] == ordered && Wrap(|p.items|) == |ordered|;
    forall i, j | 0 <= i < j < |ordered| ensures ordered[i].position <= ordered[j].position {
      assert NoLaterPosition(ordered[i], ordered[j]);
    }
  }

  // ---------- on the wire ----------

  /** The server answers the client's request for an enclosed id, read up to outer white space and entities. */
  lemma ServerAnswersClient(c: Db, id: string, start: Uint32, count: Uint32)
    requires EnclosedInAll(id)
    ensures Parse(BrowseRequestDocument(id, start, count).Render()).result.Ok?
    ensures var read := ParseObjectId(Unescape(Trim(id)));
            Answer(c, Parse(BrowseRequestDocument(id, start, count).Render()).result.value) ==
            if read.Ok? then Children(c, read.value, start, count) else Err(NoSuchObject)
  {
    hide Parse, Children, Metadata, ParseObjectId, Decimal, Unescape, Trim, ParseUint32, EnclosedInAll;
    RequestRoundTrip(id, start, count);
    ArgsFound(Unescape(Trim(id)), start, count);
    Uint32RoundTrip(start);
    Uint32RoundTrip(count);
  }

  lemma ArgsFound(id: string, start: Uint32, count: Uint32)
    ensures var args := BrowseArgs(id, start, count);
            && ArgOf(args, "ObjectID") == Some(id) && ArgOf(args, "BrowseFlag") == Some("BrowseDirectChildren")
            && ArgOf(args, "StartingIndex") == Some(Decimal(start))
                 && ArgOf(args, "RequestedCount") == Some(Decimal(count))
  {
    hide Decimal;
    var args := BrowseArgs(id, start, count);
    forall name | name == "BrowseFlag" || name == "StartingIndex" || name == "RequestedCount"
      ensures ArgOf(args, name) == ArgOf(args[1..], name)
    {}
    assert ArgOf(args, "StartingIndex") == ArgOf(args[2..], "StartingIndex") == ArgOf(args[3..], "StartingIndex");
    assert ArgOf(args, "RequestedCount") == ArgOf(args[2..], "RequestedCount") == ArgOf(args[3..], "RequestedCount")
        == ArgOf(args[4..], "RequestedCount");
  }

  /** The counts that the client reads from the server's response are those of the answer. */
  lemma ClientReadsAnswer(c: Db, oid: ObjectId, start: Uint32, count: Uint32, didl: string)
    requires Children(c, oid, start, count).Ok?
    ensures var r := Children(c, oid, start, count).value;
            var outputs := BrowseOutputs(didl, r.returned, r.total, r.updateId);
            Summary(ResponseDocument(CONTENT_DIRECTORY, "Browse", outputs).Render())
              == Ok(BrowseSummary(|r.nodes|, r.total, r.updateId))
  {
    hide Summary, Children, BrowseOutputs, Document.Render;
    var r := Children(c, oid, start, count).value;
    ClientReadsCounts(CONTENT_DIRECTORY, didl, r.returned, r.total, r.updateId);
    ReturnedCounts(c, oid, start, count);
  }
}
