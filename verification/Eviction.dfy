/** One eviction sweep of the HLS cache over the snapshot that it took of the cache directory. */
module Eviction {
  import opened Wrappers
  import opened Sorting

  datatype CacheEntry = CacheEntry(id: string, bytes: nat, lastUsed: int)

  /** What the sweep did with an entry that it came to. */
  datatype Fate = Kept | Locked | Stuck | Removed

  function Bytes(entries: seq<CacheEntry>): nat {
    if entries == [] then 0 else Bytes(entries[..|entries| - 1]) + entries[|entries| - 1].bytes
  }

  /** Bytes of the entries behind the visited ones and of the visited ones that were not removed. */
  function Remaining(entries: seq<CacheEntry>, fates: seq<Fate>): nat
    requires |fates| <= |entries|
  {
    Bytes(entries) - Freed(entries, fates)
  }

  function Freed(entries: seq<CacheEntry>, fates: seq<Fate>): (f: nat)
    requires |fates| <= |entries|
    ensures f <= Bytes(entries[..|fates|])
    ensures f <= Bytes(entries)
  {
    BytesMonotone(entries, |fates|);
    if fates == [] then 0
    else
      var k := |fates| - 1;
      assert entries[..k + 1][..k] == entries[..k];
      Freed(entries, fates[..k]) + if fates[k] == Removed then entries[k].bytes else 0
  }

  lemma {:induction false} BytesMonotone(entries: seq<CacheEntry>, k: nat)
    requires k <= |entries|
    ensures Bytes(entries[..k]) <= Bytes(entries)
    decreases |entries|
  {
    if k == |entries| {
      assert entries[..k] == entries;
    } else {
      var n := |entries| - 1;
      assert entries[..n][..k] == entries[..k];
      BytesMonotone(entries[..n], k);
    }
  }

  predicate NoLater(x: CacheEntry, y: CacheEntry) {
    x.lastUsed <= y.lastUsed
  }

  /** A sweep in progress: the entries in eviction order, the fates so far, and the running total. */
  datatype Sweep = Sweep(keep: string, cap: nat, entries: seq<CacheEntry>, fates: seq<Fate>, total: nat) {

    predicate Finished() {
      total <= cap || |fates| == |entries|
    }

    function Current(): CacheEntry
      requires |fates| < |entries|
    {
      entries[|fates|]
    }

    /** The entry stays; the loop goes on to the next. */
    function Spare(fate: Fate): Sweep {
      this.(fates := fates + [fate])
    }

    /** The entry is gone and its bytes are taken off the total. */
    function Evict(): Sweep
      requires |fates| < |entries| && Current().bytes <= total
    {
      this.(fates := fates + [Removed], total := total - Current().bytes)
    }

    ghost predicate Distinct() {
      forall i, j :: 0 <= i < j < |entries| ==> entries[i].id != entries[j].id
    }

    /** What every sweep keeps, whatever the locks and the file system answer. */
    ghost predicate Valid() {
      && |fates| <= |entries| && Sorted(entries, NoLater)
      && total == Remaining(entries, fates)
      && (forall i :: 0 <= i < |fates| ==> (fates[i] == Kept <==> entries[i].id == keep))
      && (forall i :: 0 <= i < |fates| ==> Remaining(entries, fates[..i]) > cap)
    }
  }

  /** The sweep that starts over a snapshot in eviction order. */
  function Begin(keep: string, cap: nat, entries: seq<CacheEntry>): Sweep {
    Sweep(keep, cap, entries, [], Bytes(entries))
  }

  lemma BeginValid(keep: string, cap: nat, entries: seq<CacheEntry>)
    requires Sorted(entries, NoLater)
    ensures Begin(keep, cap, entries).Valid()
  {}

  /** The running total covers the entry at hand, so taking its bytes off never underflows. */
  lemma CurrentCovered(s: Sweep)
    requires s.Valid() && |s.fates| < |s.entries|
    ensures s.Current().bytes <= s.total
  {
    var k := |s.fates|;
    assert s.entries[..k + 1][..k] == s.entries[..k];
    BytesMonotone(s.entries, k + 1);
  }

  lemma {:induction false} FreedStep(entries: seq<CacheEntry>, fates: seq<Fate>, fate: Fate)
    requires |fates| < |entries|
    ensures Freed(entries, fates + [fate]) ==
            Freed(entries, fates) + if fate == Removed then entries[|fates|].bytes else 0
  {
    hide Bytes;
    assert (fates + [fate])[..|fates|] == fates;
  }

  lemma StepValid(s: Sweep, fate: Fate)
    requires s.Valid() && !s.Finished()
    requires fate == Kept <==> s.Current().id == s.keep
    ensures s.Current().bytes <= s.total
    ensures fate != Removed ==> s.Spare(fate).Valid()
    ensures fate == Removed ==> s.Evict().Valid()
  {
    hide Bytes, Freed;
    CurrentCovered(s);
    var more := s.fates + [fate];
    assert more[..|s.fates|] == s.fates;
    FreedStep(s.entries, s.fates, fate);
    forall i | 0 <= i < |more| ensures Remaining(s.entries, more[..i]) > s.cap {
      assert i < |s.fates| ==> more[..i] == s.fates[..i];
    }
  }

  // ---------- what a sweep promises ----------

  predicate Survives(s: Sweep, i: nat)
    requires i < |s.entries|
  {
    i >= |s.fates| || s.fates[i] != Removed
  }

  /** A finished sweep is within the cap, or everything that survives was kept, locked or stuck. */
  lemma EndsWithinCap(s: Sweep)
    requires s.Valid() && s.Finished()
    ensures s.total == Remaining(s.entries, s.fates)
    ensures s.total <= s.cap ||
            forall i: nat :: i < |s.entries| && Survives(s, i) ==>
              s.entries[i].id == s.keep || s.fates[i] == Locked || s.fates[i] == Stuck
  {}

  /** No evicted entry was used more recently than a survivor that the sweep never came to. */
  lemma OldestFirst(s: Sweep, gone: nat, left: nat)
    requires s.Valid()
    requires gone < |s.fates| <= left < |s.entries| && s.fates[gone] == Removed
    ensures Survives(s, left) && s.entries[gone].lastUsed <= s.entries[left].lastUsed
  {
    assert NoLater(s.entries[gone], s.entries[left]);
  }

  /** No needless eviction: without the last one the cache would still be over its cap. */
  lemma LastEvictionNeeded(s: Sweep, last: nat)
    requires s.Valid() && last < |s.fates| && s.fates[last] == Removed
    requires forall i :: last < i < |s.fates| ==> s.fates[i] != Removed
    ensures s.total + s.entries[last].bytes > s.cap
  {
    assert s.fates[..|s.fates|] == s.fates;
    FreedBehind(s.entries, s.fates, last + 1);
    assert s.fates[..last + 1][..last] == s.fates[..last];
  }

  lemma {:induction false} FreedBehind(entries: seq<CacheEntry>, fates: seq<Fate>, k: nat)
    requires k <= |fates| <= |entries|
    requires forall i :: k <= i < |fates| ==> fates[i] != Removed
    ensures Freed(entries, fates) == Freed(entries, fates[..k])
    decreases |fates|
  {
    if k == |fates| {
      assert fates[..k] == fates;
    } else {
      var n := |fates| - 1;
      assert fates[..n][..k] == fates[..k];
      FreedBehind(entries, fates[..n], k);
    }
  }

  lemma KeepSurvives(s: Sweep, i: nat)
    requires s.Valid() && i < |s.entries| && s.entries[i].id == s.keep
    ensures Survives(s, i)
  {}

  // ---------- the program's sweep ----------

  /** A directory entry as the listing reports it; a time is `None` when it cannot be read. */
  datatype Listed =
    | NotADirectory
    | Directory(name: string, bytes: nat, playlistTime: Option<int>, dirTime: Option<int>)

  predicate IsPart(name: string) {
    |name| >= 5 && name[|name| - 5..] == ".part"
  }

  /** An entry's age is its playlist's, or its directory's when the playlist's cannot be read. */
  function EntryOf(d: Listed): CacheEntry
    requires d.Directory?
  {
    CacheEntry(d.name, d.bytes,
      if d.playlistTime.Some? then d.playlistTime.value else if d.dirTime.Some? then d.dirTime.value else EARLIEST)
  }

  predicate IsEntry(d: Listed) {
    d.Directory? && !IsPart(d.name)
  }

  function EntriesOf(listing: seq<Listed>): seq<CacheEntry> {
    if listing == [] then []
    else
      var d := listing[|listing| - 1];
      EntriesOf(listing[..|listing| - 1]) + if IsEntry(d) then [EntryOf(d)] else []
  }

  predicate IsStalePart(d: Listed, cutoff: int) {
    d.Directory? && IsPart(d.name) && d.dirTime.Some? && d.dirTime.value < cutoff
  }

  /** The work directories that a listing shows to be abandoned. */
  function StaleParts(listing: seq<Listed>, cutoff: int): seq<string> {
    if listing == [] then []
    else
      var d := listing[|listing| - 1];
      StaleParts(listing[..|listing| - 1], cutoff) + if IsStalePart(d, cutoff) then [d.name] else []
  }

  /** A directory is taken for abandoned exactly when it is listed as one; fresh ones are spared. */
  lemma {:induction false} StalePartsExactly(listing: seq<Listed>, cutoff: int, name: string)
    ensures name in StaleParts(listing, cutoff) <==>
            exists i :: 0 <= i < |listing| && IsStalePart(listing[i], cutoff) && listing[i].name == name
  {
    if listing != [] {
      var n := |listing| - 1;
      StalePartsExactly(listing[..n], cutoff, name);
      assert forall i :: 0 <= i < n ==> listing[..n][i] == listing[i];
    }
  }

  method SortByAge(entries: seq<CacheEntry>) returns (order: seq<CacheEntry>)
    ensures Sorted(order, NoLater) && multiset(order) == multiset(entries)
  {
    SortSorts(entries, NoLater);
    SortPermutes(entries, NoLater);
    order := Sort(entries, NoLater);
  }

  lemma WithoutOne(ys: seq<CacheEntry>, i: nat)
    requires i < |ys|
    ensures multiset(ys[..i] + ys[i + 1..]) == multiset(ys) - multiset{ys[i]}
  {
    assert ys == ys[..i] + [ys[i]] + ys[i + 1..];
  }

  lemma {:induction false} BytesOfPermutation(xs: seq<CacheEntry>, ys: seq<CacheEntry>)
    requires multiset(xs) == multiset(ys)
    ensures Bytes(xs) == Bytes(ys)
    decreases |xs|
  {
    hide Bytes;
    if xs == [] {
      assert |multiset(ys)| == 0;
    } else {
      var n := |xs| - 1;
      assert xs[n] in multiset(ys);
      var i :| 0 <= i < |ys| && ys[i] == xs[n];
      WithoutOne(ys, i);
      WithoutOne(xs, n);
      assert xs[..n] + xs[n + 1..] == xs[..n];
      BytesOfPermutation(xs[..n], ys[..i] + ys[i + 1..]);
      BytesWithout(ys, i);
      BytesWithout(xs, n);
    }
  }

  lemma {:induction false} BytesWithout(ys: seq<CacheEntry>, i: nat)
    requires i < |ys|
    ensures Bytes(ys) == Bytes(ys[..i] + ys[i + 1..]) + ys[i].bytes
    decreases |ys|
  {
    var n := |ys| - 1;
    if i == n {
      assert ys[..i] + ys[i + 1..] == ys[..n];
    } else {
      BytesWithout(ys[..n], i);
      var fewer := ys[..i] + ys[i + 1..];
      assert fewer[..n - 1] == ys[..n][..i] + ys[..n][i + 1..];
      assert fewer[n - 1] == ys[n];
    }
  }

  function FateOf(id: string, keep: string, locked: set<string>, stubborn: set<string>): Fate {
    if id == keep then Kept else if id in locked then Locked else if id in stubborn then Stuck else Removed
  }

  /** `std::filesystem` reports the earliest time when a time cannot be read. */
  const EARLIEST: int := -0x8000_0000_0000_0000

  /** The pass over the listing: stale work directories go, the other directories are sized. */
  method ListCache(listing: seq<Listed>, cutoff: int)
    returns (stale: seq<string>, entries: seq<CacheEntry>, total: nat)
    ensures stale == StaleParts(listing, cutoff)
    ensures entries == EntriesOf(listing) && total == Bytes(entries)
  {
    stale, entries, total := [], [], 0;
    for i := 0 to |listing|
      invariant entries == EntriesOf(listing[..i]) && total == Bytes(entries)
      invariant stale == StaleParts(listing[..i], cutoff)
    {
      var d := listing[i];
      assert listing[..i + 1][..i] == listing[..i] && listing[..i + 1] == listing[..i] + [d];
      if IsEntry(d) {
        var entry := EntryOf(d);
        total := total + entry.bytes;
        assert (entries + [entry])[..|entries|] == entries;
        entries := entries + [entry];
      } else if IsStalePart(d, cutoff) {
        stale := stale + [d.name];
      }
    }
    assert listing[..|listing|] == listing;
  }

  /** The eviction loop over entries in order of age. */
  method EvictOldest(order: seq<CacheEntry>, total: nat, keep: string, cap: nat, locked: set<string>,
                     stubborn: set<string>)
    returns (s: Sweep)
    requires Sorted(order, NoLater) && total == Bytes(order)
    ensures s.Valid() && s.Finished() && s.keep == keep && s.cap == cap && s.entries == order
    ensures forall i :: 0 <= i < |s.fates| ==> s.fates[i] == FateOf(order[i].id, keep, locked, stubborn)
  {
    hide Remaining;
    s := Sweep(keep, cap, order, [], total);
    BeginValid(keep, cap, order);
    while !s.Finished()
      invariant s.Valid() && s.keep == keep && s.cap == cap && s.entries == order
      invariant forall i :: 0 <= i < |s.fates| ==> s.fates[i] == FateOf(order[i].id, keep, locked, stubborn)
      decreases |s.entries| - |s.fates|
    {
      var fate := FateOf(s.Current().id, keep, locked, stubborn);
      StepValid(s, fate);
      s := if fate == Removed then s.Evict() else s.Spare(fate);
    }
  }
}
