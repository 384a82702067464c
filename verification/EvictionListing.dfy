/** What a sweep does to the cache directory, in terms of its listing alone. */
module EvictionListing {
  import opened Wrappers
  import opened Sorting
  import opened Eviction

  predicate EndsIn(name: string, mark: string) {
    exists n: nat :: n + |mark| == |name| && name[n..] == mark
  }

  /** A listed directory that a sweep may evict: any that is not a work directory. */
  predicate IsCached(d: Listed): (r: bool)
    ensures r ==> d.Directory?
  {
    d.Directory? && !EndsIn(d.name, ".part")
  }

  /** When a directory was last used: when its playlist was, and only if that cannot be read when it was itself. */
  predicate UsedAt(d: Listed, time: int)
    requires d.Directory?
  {
    || d.playlistTime == Some(time)
    || (d.playlistTime.None? && d.dirTime == Some(time))
    || (d.playlistTime.None? && d.dirTime.None? && time == EARLIEST)
  }

  /** The listed bytes of the cached directories that are not named in `gone`. */
  function BytesLeft(listing: seq<Listed>, gone: set<string>): nat {
    if listing == [] then 0
    else
      var d := listing[|listing| - 1];
      BytesLeft(listing[..|listing| - 1], gone) + if IsCached(d) && d.name !in gone then d.bytes else 0
  }

  /** No directory is listed twice. */
  ghost predicate ListedOnce(listing: seq<Listed>) {
    forall i, j :: 0 <= i < j < |listing| && listing[i].Directory? && listing[j].Directory? ==>
      listing[i].name != listing[j].name
  }

  predicate Protected(name: string, keep: string, locked: set<string>, stubborn: set<string>) {
    name == keep || name in locked || name in stubborn
  }

  /** What the deletion of the directories named in `gone` owes to a listing that is over the cap. */
  ghost predicate Fair(listing: seq<Listed>, keep: string, cap: nat, locked: set<string>, stubborn: set<string>,
                       gone: set<string>) {
    // nothing goes but cached directories that nothing protects
    && (forall name :: name in gone ==>
          !Protected(name, keep, locked, stubborn) && exists d :: d in listing && IsCached(d) && d.name == name)
    // what goes was used no later than what could have gone and stays
    && (forall d, e, used, later ::
          && d in listing && e in listing && IsCached(d) && IsCached(e)
          && d.name in gone && e.name !in gone && !Protected(e.name, keep, locked, stubborn)
          && UsedAt(d, used) && UsedAt(e, later)
          ==> used <= later)
    // enough goes
    && (BytesLeft(listing, gone) <= cap
        || forall d :: d in listing && IsCached(d) && d.name !in gone ==> Protected(d.name, keep, locked, stubborn))
    // and no more
    && (gone != {} ==>
          exists d :: d in listing && IsCached(d) && d.name in gone && BytesLeft(listing, gone) + d.bytes > cap)
  }

  const HOUR := 3600

  /** A work directory that was last touched more than an hour ago. */
  predicate IsAbandoned(d: Listed, now: int): (r: bool)
    ensures r ==> d.Directory?
  {
    d.Directory? && EndsIn(d.name, ".part") && d.dirTime.Some? && d.dirTime.value + 60 * 60 < now
  }

  lemma AbandonedExactly(listing: seq<Listed>, now: int, name: string)
    ensures name in StaleParts(listing, now - HOUR) <==>
            exists d :: d in listing && IsAbandoned(d, now) && d.name == name
  {
    hide EndsIn, IsPart, StaleParts;
    forall d: Listed ensures IsStalePart(d, now - HOUR) <==> IsAbandoned(d, now) {
      if d.Directory? { PartExactly(d.name); }
    }
    StalePartsExactly(listing, now - HOUR, name);
    if name in StaleParts(listing, now - HOUR) {
      var i :| 0 <= i < |listing| && IsStalePart(listing[i], now - HOUR) && listing[i].name == name;
      assert listing[i] in listing;
    }
    if d :| d in listing && IsAbandoned(d, now) && d.name == name {
      var i :| 0 <= i < |listing| && listing[i] == d;
    }
  }

  /** The names that a sweep has removed. */
  function Gone(s: Sweep): set<string> {
    set i | 0 <= i < |s.fates| && i < |s.entries| && s.fates[i] == Removed :: s.entries[i].id
  }

  // ---------- entries and the listing ----------

  lemma PartExactly(name: string)
    ensures IsPart(name) <==> EndsIn(name, ".part")
  {
    if IsPart(name) {
      var n: nat := |name| - 5;
      assert n + |".part"| == |name| && name[n..] == ".part";
    }
  }

  lemma CachedExactly(d: Listed)
    ensures IsEntry(d) <==> IsCached(d)
  {
    if d.Directory? {
      PartExactly(d.name);
    }
  }

  lemma EntryIsUsed(d: Listed, time: int)
    requires d.Directory?
    ensures EntryOf(d).id == d.name && EntryOf(d).bytes == d.bytes
    ensures UsedAt(d, time) <==> EntryOf(d).lastUsed == time
  {}

  lemma {:induction false} EntriesExactly(listing: seq<Listed>, e: CacheEntry)
    ensures e in EntriesOf(listing) <==> exists d :: d in listing && IsEntry(d) && EntryOf(d) == e
  {
    hide EntryOf, IsEntry;
    if listing != [] {
      var n := |listing| - 1;
      assert listing == listing[..n] + [listing[n]];
      EntriesExactly(listing[..n], e);
    }
  }

  ghost predicate EachOnce(entries: seq<CacheEntry>) {
    forall i, j :: 0 <= i < j < |entries| ==> entries[i].id != entries[j].id
  }

  lemma {:induction false} EntriesOnce(listing: seq<Listed>)
    requires ListedOnce(listing)
    ensures EachOnce(EntriesOf(listing))
  {
    if listing != [] {
      var n := |listing| - 1;
      EntriesOnce(listing[..n]);
      var before := EntriesOf(listing[..n]);
      forall i | 0 <= i < |before| && IsEntry(listing[n]) ensures before[i].id != listing[n].name {
        EntriesExactly(listing[..n], before[i]);
        var d :| d in listing[..n] && IsEntry(d) && EntryOf(d) == before[i];
        var k :| 0 <= k < n && listing[..n][k] == d;
        assert listing[k] == d;
      }
    }
  }

  lemma SameMembers(xs: seq<CacheEntry>, ys: seq<CacheEntry>)
    requires multiset(xs) == multiset(ys)
    ensures forall e :: e in xs <==> e in ys
  {
    assert forall e :: e in xs <==> e in multiset(xs);
    assert forall e :: e in ys <==> e in multiset(ys);
  }

  lemma TwiceCounts(xs: seq<CacheEntry>, i: nat, j: nat)
    requires i < j < |xs| && xs[i] == xs[j]
    ensures multiset(xs)[xs[i]] >= 2
  {
    assert xs == xs[..j] + xs[j..];
    assert xs[..j][i] == xs[i] && xs[j..][0] == xs[j];
  }

  lemma {:induction false} OnceCounts(xs: seq<CacheEntry>, e: CacheEntry)
    requires EachOnce(xs)
    ensures multiset(xs)[e] <= 1
  {
    if xs != [] {
      var n := |xs| - 1;
      assert xs == xs[..n] + [xs[n]];
      OnceCounts(xs[..n], e);
      assert forall k :: 0 <= k < n ==> xs[..n][k] != xs[n];
      assert xs[n] !in xs[..n];
      assert multiset(xs[..n])[xs[n]] == 0;
    }
  }

  lemma OnceInAnyOrder(xs: seq<CacheEntry>, ys: seq<CacheEntry>)
    requires EachOnce(xs) && multiset(xs) == multiset(ys)
    ensures EachOnce(ys)
  {
    SameMembers(xs, ys);
    forall i, j | 0 <= i < j < |ys| ensures ys[i].id != ys[j].id {
      if ys[i].id == ys[j].id {
        assert ys[i] in xs && ys[j] in xs;
        var k :| 0 <= k < |xs| && xs[k] == ys[i];
        var m :| 0 <= m < |xs| && xs[m] == ys[j];
        assert k == m;
        TwiceCounts(ys, i, j);
        OnceCounts(xs, ys[i]);
      }
    }
  }

  // ---------- bytes ----------

  function EntryBytes(entries: seq<CacheEntry>, gone: set<string>): nat {
    if entries == [] then 0
    else
      var e := entries[|entries| - 1];
      EntryBytes(entries[..|entries| - 1], gone) + if e.id in gone then 0 else e.bytes
  }

  lemma {:induction false} ListingBytes(listing: seq<Listed>, gone: set<string>)
    ensures EntryBytes(EntriesOf(listing), gone) == BytesLeft(listing, gone)
  {
    hide IsCached;
    if listing != [] {
      var n := |listing| - 1;
      ListingBytes(listing[..n], gone);
      CachedExactly(listing[n]);
      var before := EntriesOf(listing[..n]);
      if IsEntry(listing[n]) {
        EntryIsUsed(listing[n], 0);
        assert (before + [EntryOf(listing[n])])[..|before|] == before;
      } else {
        assert before + [] == before;
      }
    }
  }

  lemma {:induction false} BytesWithoutOne(ys: seq<CacheEntry>, gone: set<string>, i: nat)
    requires i < |ys|
    ensures EntryBytes(ys, gone) ==
            EntryBytes(ys[..i] + ys[i + 1..], gone) + if ys[i].id in gone then 0 else ys[i].bytes
    decreases |ys|
  {
    var n := |ys| - 1;
    if i == n {
      assert ys[..i] + ys[i + 1..] == ys[..n];
    } else {
      BytesWithoutOne(ys[..n], gone, i);
      var fewer := ys[..i] + ys[i + 1..];
      assert fewer == (ys[..i] + ys[i + 1..n]) + [ys[n]];
      assert fewer[..n - 1] == ys[..i] + ys[i + 1..n] == ys[..n][..i] + ys[..n][i + 1..];
    }
  }

  lemma {:induction false} BytesInAnyOrder(xs: seq<CacheEntry>, ys: seq<CacheEntry>, gone: set<string>)
    requires multiset(xs) == multiset(ys)
    ensures EntryBytes(xs, gone) == EntryBytes(ys, gone)
    decreases |xs|
  {
    hide EntryBytes;
    if xs == [] {
      assert |multiset(ys)| == 0;
    } else {
      var n := |xs| - 1;
      assert xs[n] in multiset(ys);
      var i :| 0 <= i < |ys| && ys[i] == xs[n];
      WithoutOne(ys, i);
      WithoutOne(xs, n);
      assert xs[..n] + xs[n + 1..] == xs[..n];
      BytesInAnyOrder(xs[..n], ys[..i] + ys[i + 1..], gone);
      BytesWithoutOne(ys, gone, i);
      BytesWithoutOne(xs, gone, n);
    }
  }

  /** What a sweep counts as remaining is what it has not removed. */
  lemma {:induction false} RemainingIsLeft(entries: seq<CacheEntry>, fates: seq<Fate>, n: nat, gone: set<string>)
    requires |fates| <= |entries| && n <= |entries| && EachOnce(entries)
    requires forall i :: 0 <= i < n ==> (entries[i].id in gone <==> i < |fates| && fates[i] == Removed)
    ensures EntryBytes(entries[..n], gone) ==
            Bytes(entries[..n]) - Freed(entries, if n < |fates| then fates[..n] else fates)
  {
    if n > 0 {
      assert entries[..n][..n - 1] == entries[..n - 1];
      RemainingIsLeft(entries, fates, n - 1, gone);
      if n <= |fates| {
        assert fates[..n][..n - 1] == fates[..n - 1];
        assert n == |fates| ==> fates[..n] == fates;
      }
    } else {
      assert entries[..0] == [];
      assert fates[..0] == [];
    }
  }

  // ---------- the sweep ----------

  lemma GoneExactly(s: Sweep, i: nat)
    requires |s.fates| <= |s.entries| && EachOnce(s.entries) && i < |s.entries|
    ensures s.entries[i].id in Gone(s) <==> i < |s.fates| && s.fates[i] == Removed
  {}

  lemma GoneBytes(s: Sweep)
    requires s.Valid() && EachOnce(s.entries)
    ensures EntryBytes(s.entries, Gone(s)) == s.total
  {
    hide Bytes, Freed, Gone, EachOnce, EntryBytes, Sorted;
    forall i | 0 <= i < |s.entries| ensures s.entries[i].id in Gone(s) <==> i < |s.fates| && s.fates[i] == Removed {
      GoneExactly(s, i);
    }
    var n := |s.entries|;
    RemainingIsLeft(s.entries, s.fates, n, Gone(s));
    assert s.entries[..n] == s.entries;
    assert n == |s.fates| ==> s.fates[..n] == s.fates;
  }

  /** The sweep, and the listing that it is about. */
  ghost predicate SweepsListing(listing: seq<Listed>, s: Sweep, locked: set<string>, stubborn: set<string>) {
    && s.Valid() && s.Finished() && multiset(s.entries) == multiset(EntriesOf(listing)) && EachOnce(s.entries)
    && forall i :: 0 <= i < |s.fates| ==> s.fates[i] == FateOf(s.entries[i].id, s.keep, locked, stubborn)
  }

  /** A cached directory's place in the sweep. */
  lemma PlaceOf(listing: seq<Listed>, s: Sweep, locked: set<string>, stubborn: set<string>, d: Listed) returns (i: nat)
    requires SweepsListing(listing, s, locked, stubborn) && d in listing && IsCached(d)
    ensures i < |s.entries| && s.entries[i] == EntryOf(d)
    ensures d.name in Gone(s) <==> i < |s.fates| && s.fates[i] == Removed
    ensures s.entries[i].id == d.name && s.entries[i].bytes == d.bytes
  {
    hide IsCached, Bytes, Freed, Gone, Sorted;
    CachedExactly(d);
    EntriesExactly(listing, EntryOf(d));
    SameMembers(s.entries, EntriesOf(listing));
    i :| 0 <= i < |s.entries| && s.entries[i] == EntryOf(d);
    GoneExactly(s, i);
    EntryIsUsed(d, 0);
  }

  lemma EntryFrom(listing: seq<Listed>, s: Sweep, locked: set<string>, stubborn: set<string>, i: nat)
    returns (d: Listed)
    requires SweepsListing(listing, s, locked, stubborn) && i < |s.entries|
    ensures d in listing && IsCached(d) && d.name == s.entries[i].id && d.bytes == s.entries[i].bytes
  {
    hide IsCached, Bytes, Freed, Gone, Sorted;
    SameMembers(s.entries, EntriesOf(listing));
    EntriesExactly(listing, s.entries[i]);
    d :| d in listing && IsEntry(d) && EntryOf(d) == s.entries[i];
    CachedExactly(d);
    EntryIsUsed(d, 0);
  }

  lemma NothingElseGoes(listing: seq<Listed>, s: Sweep, locked: set<string>, stubborn: set<string>, name: string)
    requires SweepsListing(listing, s, locked, stubborn) && name in Gone(s)
    ensures !Protected(name, s.keep, locked, stubborn) && exists d :: d in listing && IsCached(d) && d.name == name
  {
    hide IsCached, Bytes, Freed, Sorted;
    var i :| 0 <= i < |s.fates| && s.fates[i] == Removed && s.entries[i].id == name;
    var d := EntryFrom(listing, s, locked, stubborn, i);
  }

  /** An unprotected survivor is one that the sweep never reached. */
  lemma StaysUnreached(listing: seq<Listed>, s: Sweep, locked: set<string>, stubborn: set<string>, e: Listed)
    returns (j: nat)
    requires SweepsListing(listing, s, locked, stubborn) && e in listing && IsCached(e)
    requires e.name !in Gone(s) && !Protected(e.name, s.keep, locked, stubborn)
    ensures |s.fates| <= j < |s.entries| && s.entries[j] == EntryOf(e)
  {
    hide IsCached, Bytes, Freed, Gone, Sorted;
    j := PlaceOf(listing, s, locked, stubborn, e);
  }

  lemma OldestGoFirst(listing: seq<Listed>, s: Sweep, locked: set<string>, stubborn: set<string>, d: Listed, e: Listed,
                      used: int, later: int)
    requires SweepsListing(listing, s, locked, stubborn) && d in listing && e in listing && IsCached(d) && IsCached(e)
    requires d.name in Gone(s) && e.name !in Gone(s) && !Protected(e.name, s.keep, locked, stubborn)
    requires UsedAt(d, used) && UsedAt(e, later)
    ensures used <= later
  {
    hide IsCached, Gone, UsedAt, EntryOf, Sweep.Valid;
    var i := PlaceOf(listing, s, locked, stubborn, d);
    var j := StaysUnreached(listing, s, locked, stubborn, e);
    OldestFirst(s, i, j);
    EntryIsUsed(d, used);
    EntryIsUsed(e, later);
  }

  lemma EnoughGoes(listing: seq<Listed>, s: Sweep, locked: set<string>, stubborn: set<string>)
    requires SweepsListing(listing, s, locked, stubborn) && BytesLeft(listing, Gone(s)) > s.cap
    ensures forall d :: d in listing && IsCached(d) && d.name !in Gone(s) ==>
            Protected(d.name, s.keep, locked, stubborn)
  {
    hide IsCached, Gone, Sweep.Valid, EntryBytes;
    LeftIsTotal(listing, s, locked, stubborn);
    forall d | d in listing && IsCached(d) && d.name !in Gone(s) ensures Protected(d.name, s.keep, locked, stubborn) {
      var i := PlaceOf(listing, s, locked, stubborn, d);
    }
  }

  lemma LeftIsTotal(listing: seq<Listed>, s: Sweep, locked: set<string>, stubborn: set<string>)
    requires SweepsListing(listing, s, locked, stubborn)
    ensures BytesLeft(listing, Gone(s)) == s.total
  {
    hide IsCached, Gone, Sweep.Valid, EntryBytes;
    GoneBytes(s);
    BytesInAnyOrder(s.entries, EntriesOf(listing), Gone(s));
    ListingBytes(listing, Gone(s));
  }

  lemma {:induction false} LastRemoved(s: Sweep, n: nat) returns (i: nat)
    requires n <= |s.fates| && exists k :: 0 <= k < n && s.fates[k] == Removed
    requires forall k :: n <= k < |s.fates| ==> s.fates[k] != Removed
    ensures i < |s.fates| && s.fates[i] == Removed && forall k :: i < k < |s.fates| ==> s.fates[k] != Removed
  {
    if s.fates[n - 1] == Removed {
      i := n - 1;
    } else {
      i := LastRemoved(s, n - 1);
    }
  }

  lemma NoMoreGoes(listing: seq<Listed>, s: Sweep, locked: set<string>, stubborn: set<string>)
    requires SweepsListing(listing, s, locked, stubborn) && Gone(s) != {}
    ensures exists d :: && d in listing && IsCached(d) && d.name in Gone(s)
                        && BytesLeft(listing, Gone(s)) + d.bytes > s.cap
  {
    hide IsCached, Bytes, Freed, Sorted;
    LeftIsTotal(listing, s, locked, stubborn);
    var name :| name in Gone(s);
    var i := LastRemoved(s, |s.fates|);
    LastEvictionNeeded(s, i);
    var d := EntryFrom(listing, s, locked, stubborn, i);
    assert d.name in Gone(s);
  }

  lemma SweepIsFair(listing: seq<Listed>, s: Sweep, locked: set<string>, stubborn: set<string>)
    requires SweepsListing(listing, s, locked, stubborn)
    ensures Fair(listing, s.keep, s.cap, locked, stubborn, Gone(s))
  {
    hide IsCached, Gone, UsedAt, Protected, SweepsListing, BytesLeft;
    forall name | name in Gone(s)
      ensures !Protected(name, s.keep, locked, stubborn) && exists d :: d in listing && IsCached(d) && d.name == name
    {
      NothingElseGoes(listing, s, locked, stubborn, name);
    }
    forall d, e, used, later | d in listing && e in listing && IsCached(d) && IsCached(e) && d.name in Gone(s)
                               && e.name !in Gone(s) && !Protected(e.name, s.keep, locked, stubborn)
                               && UsedAt(d, used) && UsedAt(e, later)
      ensures used <= later
    {
      OldestGoFirst(listing, s, locked, stubborn, d, e, used, later);
    }
    if BytesLeft(listing, Gone(s)) > s.cap {
      EnoughGoes(listing, s, locked, stubborn);
    }
    if Gone(s) != {} {
      NoMoreGoes(listing, s, locked, stubborn);
    }
  }

  lemma NothingToDo(listing: seq<Listed>, keep: string, cap: nat, locked: set<string>, stubborn: set<string>)
    requires Bytes(EntriesOf(listing)) <= cap
    ensures BytesLeft(listing, {}) <= cap && Fair(listing, keep, cap, locked, stubborn, {})
  {
    ListingBytes(listing, {});
    AllBytes(EntriesOf(listing));
  }

  lemma {:induction false} AllBytes(entries: seq<CacheEntry>)
    ensures EntryBytes(entries, {}) == Bytes(entries)
  {
    if entries != [] {
      AllBytes(entries[..|entries| - 1]);
    }
  }

  /**
   The sweep over one listing. `locked` names the renditions whose mutex another thread holds, `stubborn`
   those whose directory cannot be removed. `None` is the sweep that had nothing to do.
   */
  method EvictOverCap(listing: seq<Listed>, keep: string, cap: nat, now: int, locked: set<string>,
                      stubborn: set<string>)
    returns (stale: seq<string>, sweep: Option<Sweep>)
    ensures cap == 0 ==> stale == [] && sweep == None
    ensures forall name :: name in stale <==>
            cap > 0 && exists d :: d in listing && IsAbandoned(d, now) && d.name == name
    ensures sweep.None? <==> cap == 0 || BytesLeft(listing, {}) <= cap
    ensures ListedOnce(listing) && cap > 0 ==>
              Fair(listing, keep, cap, locked, stubborn, if sweep.Some? then Gone(sweep.value) else {})
    ensures sweep.Some? ==> var s := sweep.value;
              && s.Valid() && s.Finished() && s.keep == keep && s.cap == cap
              && multiset(s.entries) == multiset(EntriesOf(listing))
              && forall i :: 0 <= i < |s.fates| ==> s.fates[i] == FateOf(s.entries[i].id, keep, locked, stubborn)
  {
    hide Fair, ListedOnce, EachOnce, IsCached, Remaining, Sorted;
    stale, sweep := [], None;
    if cap == 0 {
      return;
    }
    var entries, total;
    var cutoff := now - HOUR;
    stale, entries, total := ListCache(listing, cutoff);
    forall name
      ensures name in stale <==> exists d :: d in listing && IsAbandoned(d, now) && d.name == name
    {
      AbandonedExactly(listing, now, name);
    }
    ListingBytes(listing, {});
    AllBytes(entries);
    if total <= cap {
      NothingToDo(listing, keep, cap, locked, stubborn);
      return;
    }
    var order := SortByAge(entries);
    BytesOfPermutation(order, entries);
    var s := EvictOldest(order, total, keep, cap, locked, stubborn);
    sweep := Some(s);
    if ListedOnce(listing) {
      EntriesOnce(listing);
      OnceInAnyOrder(EntriesOf(listing), s.entries);
      SweepIsFair(listing, s, locked, stubborn);
    }
  }
}
