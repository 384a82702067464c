/**
 When the segmenter keeps its promises, exactly: by configuration, and by what callers ask for. The runs
 that break them are given step by step.
 */
module SegmenterRace {
  import opened Wrappers
  import opened Sorting
  import opened Eviction
  import opened Segmenter
  import opened SegmenterSafety
  import opened SegmenterExclusion
  import opened SegmenterQuiet

  // ---------- with one slot, one work directory at a time ----------

  ghost predicate AllChecked(s: State) {
    forall t :: t in s.pc ==> Checked(s.sh, s.pc[t])
  }

  predicate NoNewParts(before: Shared, after: Shared) {
    forall id :: id in after.parts ==> id in before.parts && after.parts[id] == before.parts[id]
  }

  lemma BuildWrites(c: Config, sh: Shared, stage: Stage, id: Id, h: Handle, yes: bool)
    requires Checked(sh, Building(stage, id, h))
    ensures var m := Build(c, sh, stage, id, h, yes);
            Checked(m.sh, m.pc) && (HoldsSlot(Building(stage, id, h)) || NoNewParts(sh, m.sh))
  {}

  /** Only a thread with a slot writes to a work directory, and one that has checked it leaves it alone. */
  lemma OnlyHoldersWrite(c: Config, sh: Shared, t: Tid, pc: Pc, step: Step)
    requires Local(c, sh, t, pc, step).Some? && Checked(sh, pc)
    ensures var m := Local(c, sh, t, pc, step).value; Checked(m.sh, m.pc) && (HoldsSlot(pc) || NoNewParts(sh, m.sh))
  {
    hide Sweep.Valid, Sweep.Finished, Sweep.Spare, Sweep.Evict, Begin, Sorted, Sweep.Distinct, IsSafeRenditionId,
      Sweep.Current, Build;
    if pc.Building? && step.Go? {
      BuildWrites(c, sh, pc.stage, pc.id, pc.h, step.yes);
    }
  }

  lemma OneHolder(c: Config, s: State, t: Tid, u: Tid)
    requires SlotsConserved(c, s) && c.configuredSlots <= 1
    requires t in s.pc && u in s.pc && HoldsSlot(s.pc[t]) && HoldsSlot(s.pc[u])
    ensures t == u
  {
    hide HoldsSlot;
    if t != u {
      assert {t, u} <= SlotHolders(s.pc);
      SubsetCount({t, u}, SlotHolders(s.pc));
    }
  }

  lemma SubsetCount<T>(few: set<T>, many: set<T>)
    requires few <= many
    ensures |few| <= |many|
  {
    assert many == few + (many - few);
  }

  lemma AllCheckedStep(c: Config, s: State, t: Tid, step: Step)
    requires Inv(c, s) && AllChecked(s) && c.configuredSlots <= 1 && Next(c, s, t, step).Some?
    ensures AllChecked(Next(c, s, t, step).value) && AddsNoTruncated(s.sh, Next(c, s, t, step).value.sh)
  {
    hide Local, Named, LocksAgree, RegistryAgrees, SlotsConserved, AddsNoTruncated;
    var s' := Next(c, s, t, step).value;
    OnlyHoldersWrite(c, s.sh, t, s.pc[t], step);
    CheckedAddsNoTruncated(c, s.sh, t, s.pc[t], step);
    forall u | u in s'.pc && u != t ensures Checked(s'.sh, s'.pc[u]) {
      if HoldsSlot(s.pc[t]) && HoldsSlot(s.pc[u]) {
        OneHolder(c, s, t, u);
      }
    }
  }

  lemma {:induction false} OneSlotChecks(c: Config, start: State, run: seq<Act>)
    requires Init(c, start) && Exec(c, start, run).Some? && c.configuredSlots <= 1
    ensures AllChecked(Exec(c, start, run).value)
  {
    hide Inv, Next, AllChecked;
    if run == [] {
      assert AllChecked(start) by { AtRestIsChecked(start); }
    } else {
      var n := |run| - 1;
      OneSlotChecks(c, start, run[..n]);
      InvAlways(c, start, run[..n]);
      AllCheckedStep(c, Exec(c, start, run[..n]).value, run[n].t, run[n].step);
    }
  }

  lemma AtRestIsChecked(s: State)
    requires forall t :: t in s.pc ==> s.pc[t] == Idle
    ensures AllChecked(s)
  {}

  lemma OneSlotPublishesComplete(c: Config, u: Usage)
    requires c.configuredSlots <= 1
    ensures AlwaysPublishesComplete(c, u)
  {
    hide Init, Exec, Inv, Next, AllChecked, AddsNoTruncated, Within, Allowed;
    forall start, run, t, step | Init(c, start) && Within(u, run) && Allowed(u, step) && Exec(c, start, run).Some?
                                 && Next(c, Exec(c, start, run).value, t, step).Some?
      ensures AddsNoTruncated(Exec(c, start, run).value.sh, Next(c, Exec(c, start, run).value, t, step).value.sh)
    {
      OneSlotChecks(c, start, run);
      InvAlways(c, start, run);
      AllCheckedStep(c, Exec(c, start, run).value, t, step);
    }
  }

  // ---------- runs of two threads ----------

  /** Thread `t` of the threads 0 and 1 is at `mine`, the other at `other`. */
  function Two(t: Tid, mine: Pc, other: Pc, sh: Shared): State {
    State(if t == 0 then map[0 := mine, 1 := other] else map[0 := other, 1 := mine], sh)
  }

  ghost predicate Leads(c: Config, u: Usage, start: State, s: State) {
    exists run :: Exec(c, start, run) == Some(s) && Within(u, run)
  }

  lemma StartLeads(c: Config, u: Usage, start: State)
    ensures Leads(c, u, start, start)
  {
    assert Exec(c, start, []) == Some(start) && Within(u, []);
  }

  lemma LeadsOn(c: Config, u: Usage, start: State, s: State, t: Tid, step: Step)
    requires Leads(c, u, start, s) && Next(c, s, t, step).Some? && Allowed(u, step)
    ensures Leads(c, u, start, Next(c, s, t, step).value)
  {
    hide Next, Allowed;
    var run :| Exec(c, start, run) == Some(s) && Within(u, run);
    var longer := run + [Act(t, step)];
    assert longer[..|longer| - 1] == run;
    assert Exec(c, start, longer) == Next(c, s, t, step);
    assert Within(u, longer);
  }

  /** The next step of one of the two threads. */
  lemma Move(c: Config, u: Usage, start: State, t: Tid, mine: Pc, other: Pc, sh: Shared, step: Step) returns (m: Moved)
    requires t < 2 && Leads(c, u, start, Two(t, mine, other, sh)) && Local(c, sh, t, mine, step).Some?
             && Allowed(u, step)
    ensures m == Local(c, sh, t, mine, step).value && Leads(c, u, start, Two(t, m.pc, other, m.sh))
  {
    hide Local, Leads, Allowed;
    m := Local(c, sh, t, mine, step).value;
    LeadsOn(c, u, start, Two(t, mine, other, sh), t, step);
    assert Two(t, mine, other, sh).pc[t := m.pc] == Two(t, m.pc, other, m.sh).pc;
  }

  lemma Switch(t: Tid, mine: Pc, other: Pc, sh: Shared)
    requires t < 2
    ensures Two(t, mine, other, sh) == Two(1 - t, other, mine, sh)
  {}

  // ---------- the pieces of those runs ----------

  /** A thread asks for a rendition and fetches its mutex, but does not try it yet. */
  lemma Fetches(c: Config, u: Usage, start: State, t: Tid, other: Pc, mine: Pc, x: Id, sh0: Shared)
    returns (h: Handle, sh: Shared)
    requires t < 2 && AtRest(mine) && Leads(c, u, start, Two(t, mine, other, sh0))
    requires Usable(u, x) && !CompleteIn(sh0.dirs, x) && sh0.registryLock == None && x !in sh0.registry
    ensures h == Handle(x, sh0.nextSerial)
    ensures sh == sh0.(registry := sh0.registry[x := h], nextSerial := sh0.nextSerial + 1)
    ensures Leads(c, u, start, Two(t, Fetched(ForBuild(x), h), other, sh))
  {
    hide Leads, IsSafeRenditionId, Two;
    var m := Move(c, u, start, t, mine, other, sh0, Call(x));
    m := Move(c, u, start, t, m.pc, other, m.sh, Go(true));
    m := Move(c, u, start, t, m.pc, other, m.sh, Go(true));
    m := Move(c, u, start, t, m.pc, other, m.sh, Go(true));
    h, sh := m.pc.h, m.sh;
  }

  lemma Locks(c: Config, u: Usage, start: State, t: Tid, other: Pc, x: Id, h: Handle, sh0: Shared) returns (sh: Shared)
    requires t < 2 && Leads(c, u, start, Two(t, Fetched(ForBuild(x), h), other, sh0)) && h !in sh0.owner
    ensures sh == sh0.(owner := sh0.owner[h := t])
    ensures Leads(c, u, start, Two(t, Building(Recheck, x, h), other, sh))
  {
    hide Leads, Two;
    var m := Move(c, u, start, t, Fetched(ForBuild(x), h), other, sh0, Go(true));
    sh := m.sh;
  }

  /** A thread clears its work directory and has ffmpeg start in it. */
  lemma StartsOver(c: Config, u: Usage, start: State, t: Tid, other: Pc, x: Id, h: Handle, sh0: Shared)
    returns (sh: Shared)
    requires t < 2 && sh0.freeSlots > 0 && Leads(c, u, start, Two(t, Building(Source, x, h), other, sh0))
    ensures sh == sh0.(freeSlots := sh0.freeSlots - 1, parts := sh0.parts[x := Part(false, sh0.now)])
    ensures Leads(c, u, start, Two(t, Building(Transcoding, x, h), other, sh))
  {
    hide Leads, Two;
    var m := Move(c, u, start, t, Building(Source, x, h), other, sh0, Go(true));
    m := Move(c, u, start, t, m.pc, other, m.sh, Go(true));
    m := Move(c, u, start, t, m.pc, other, m.sh, Go(true));
    assert m.sh.parts == sh0.parts - {x};
    m := Move(c, u, start, t, m.pc, other, m.sh, Go(true));
    sh := m.sh;
    assert sh.parts == sh0.parts[x := Part(false, sh0.now)];
  }

  /** Its transcode succeeds with a complete playlist; it is about to clear the way for the rename. */
  lemma Transcodes(c: Config, u: Usage, start: State, t: Tid, other: Pc, x: Id, h: Handle, sh0: Shared)
    returns (sh: Shared)
    requires t < 2 && sh0.freeSlots > 0 && Leads(c, u, start, Two(t, Building(Source, x, h), other, sh0))
    ensures sh == sh0.(freeSlots := sh0.freeSlots - 1, parts := sh0.parts[x := Part(true, sh0.now)])
    ensures Leads(c, u, start, Two(t, Building(ClearDir, x, h), other, sh))
  {
    hide Leads, Two;
    sh := StartsOver(c, u, start, t, other, x, h, sh0);
    var m := Move(c, u, start, t, Building(Transcoding, x, h), other, sh, Write(true));
    m := Move(c, u, start, t, m.pc, other, m.sh, Go(true));
    m := Move(c, u, start, t, m.pc, other, m.sh, Go(true));
    sh := m.sh;
    assert sh.parts == sh0.parts[x := Part(true, sh0.now)];
  }

  /** It renames the work directory into place and goes on to its sweep. */
  lemma Publishes(c: Config, u: Usage, start: State, t: Tid, other: Pc, x: Id, h: Handle, sh0: Shared)
    returns (sh: Shared)
    requires t < 2 && sh0.freeSlots > 0 && Leads(c, u, start, Two(t, Building(Source, x, h), other, sh0)) && x != ROOT
    ensures sh == sh0.(freeSlots := sh0.freeSlots - 1, dirs := sh0.dirs[x := Cached(true, sh0.now)],
            parts := sh0.parts - {x})
    ensures Leads(c, u, start, Two(t, StartSweep(c, Builder(x, h)), other, sh))
  {
    hide Leads, Two, StartSweep;
    sh := Transcodes(c, u, start, t, other, x, h, sh0);
    var m := Move(c, u, start, t, Building(ClearDir, x, h), other, sh, Go(true));
    assert m.sh.dirs == sh0.dirs - {x};
    m := Move(c, u, start, t, m.pc, other, m.sh, Go(true));
    sh := m.sh;
    assert sh.dirs == sh0.dirs[x := Cached(true, sh0.now)] && sh.parts == sh0.parts - {x};
  }

  function BigEntry(c: Config, x: Id): CacheEntry {
    CacheEntry(x, c.cap + 1, 0)
  }

  lemma BigSweep(c: Config, keep: Id, x: Id)
    requires x != ROOT
    ensures var sweep := Begin(keep, c.cap, [BigEntry(c, x)]);
            && sweep.Distinct() && Sorted(sweep.entries, NoLater) && sweep.total == c.cap + 1
                 && WithoutRoot(sweep.entries)
  {
    var entries := [BigEntry(c, x)];
    assert entries[..|entries| - 1] == [] && entries[0].bytes == c.cap + 1;
    assert Bytes(entries) == Bytes([]) + c.cap + 1;
  }

  /** A sweep comes to a rendition of more bytes than the cap. */
  lemma SweepLocks(c: Config, u: Usage, start: State, t: Tid, other: Pc, home: Home, x: Id, h: Handle, sh0: Shared)
    returns (sweep: Sweep, sh: Shared)
    requires t < 2 && c.cap > 0 && x != ROOT && KeepOf(home) != x && sh0.registryLock == None
    requires x in sh0.registry && sh0.registry[x] == h && h !in sh0.owner
    requires Leads(c, u, start, Two(t, Listing(home), other, sh0))
    ensures sweep == Begin(KeepOf(home), c.cap, [BigEntry(c, x)]) && sweep.total == c.cap + 1
    ensures sh == sh0.(owner := sh0.owner[h := t])
    ensures Leads(c, u, start, Two(t, Evicting(home, sweep, h), other, sh))
  {
    hide Leads, Two, IsSafeRenditionId;
    BigSweep(c, KeepOf(home), x);
    var m := Move(c, u, start, t, Listing(home), other, sh0, List({}, [BigEntry(c, x)]));
    assert m.sh == sh0;
    m := Move(c, u, start, t, m.pc, other, m.sh, Go(true));
    m := Move(c, u, start, t, m.pc, other, m.sh, Go(true));
    m := Move(c, u, start, t, m.pc, other, m.sh, Go(true));
    assert m.sh.registry == sh0.registry;
    sweep := m.pc.purpose.sweep;
    m := Move(c, u, start, t, m.pc, other, m.sh, Go(true));
    sh := m.sh;
  }

  /** It evicts the rendition, erases its mutex and is over. */
  lemma SweepErases(c: Config, u: Usage, start: State, t: Tid, other: Pc, home: Home, x: Id, h: Handle, sh0: Shared)
    returns (sh: Shared)
    requires t < 2 && c.cap > 0 && x != ROOT && KeepOf(home) != x && sh0.registryLock == None
    requires x in sh0.registry && sh0.registry[x] == h && h !in sh0.owner && h.id == x
    requires Leads(c, u, start, Two(t, Listing(home), other, sh0))
    ensures sh == sh0.(registry := sh0.registry - {x}, dirs := sh0.dirs - {x})
    ensures Leads(c, u, start, Two(t, After(home), other, sh))
  {
    hide Leads, Two, IsSafeRenditionId;
    var sweep;
    sweep, sh := SweepLocks(c, u, start, t, other, home, x, h, sh0);
    var m := Move(c, u, start, t, Evicting(home, sweep, h), other, sh, Go(true));
    m := Move(c, u, start, t, m.pc, other, m.sh, Go(true));
    m := Move(c, u, start, t, m.pc, other, m.sh, Go(true));
    assert m.pc.Dropping?;
    m := Move(c, u, start, t, m.pc, other, m.sh, Go(true));
    assert m.sh.owner == sh0.owner;
    m := Move(c, u, start, t, m.pc, other, m.sh, Go(true));
    sh := m.sh;
  }

  // ---------- two builds of one rendition ----------

  function StartShared(c: Config, dirs: map<Id, Cached>): Shared {
    Shared(None, map[], 0, map[], ClampedSlots(c.configuredSlots), dirs, map[], 0)
  }

  /** Two idle threads and a cache directory. */
  function Start(c: Config, dirs: map<Id, Cached>): State {
    Two(0, Idle, Idle, StartShared(c, dirs))
  }

  /** The cache holds a truncated leftover of the rendition. */
  function Leftover(x: Id): map<Id, Cached> {
    map[x := Cached(false, 0)]
  }

  lemma StartInit(c: Config, dirs: map<Id, Cached>)
    ensures Init(c, Start(c, dirs))
  {}

  /** Thread 0 has fetched the rendition's mutex, which is not registered any more; nothing is taken. */
  ghost predicate Orphaned(c: Config, sh: Shared, x: Id, h: Handle) {
    && x !in sh.registry && sh.registryLock == None && sh.owner == map[] && x !in sh.dirs && x !in sh.parts
    && sh.freeSlots == ClampedSlots(c.configuredSlots) && h.id == x && h.serial < sh.nextSerial
  }

  /** Behind the back of a thread that has fetched the mutex, an operator's sweep erases it. */
  lemma OperatorErases(c: Config, u: Usage, x: Id) returns (h: Handle, sh: Shared)
    requires c.cap > 0 && u.sweeps && IsRendition(u, x)
    ensures Orphaned(c, sh, x, h)
    ensures Leads(c, u, Start(c, Leftover(x)), Two(0, Fetched(ForBuild(x), h), Idle, sh))
  {
    hide Leads, Two, IsSafeRenditionId, StartSweep;
    var start := Start(c, Leftover(x));
    StartLeads(c, u, start);
    h, sh := Fetches(c, u, start, 0, Idle, Idle, x, StartShared(c, Leftover(x)));
    var a := Fetched(ForBuild(x), h);
    Switch(0, a, Idle, sh);
    var m := Move(c, u, start, 1, Idle, a, sh, CallSweep(""));
    SweepStarts(c, Operator(""));
    SafeIsNotEmpty(x);
    sh := SweepErases(c, u, start, 1, a, Operator(""), x, h, sh);
    Switch(1, Idle, a, sh);
  }

  lemma SafeIsNotEmpty(x: Id)
    requires IsSafeRenditionId(x)
    ensures x != ""
  {}

  lemma SweepStarts(c: Config, home: Home)
    requires c.cap > 0
    ensures StartSweep(c, home) == Listing(home)
  {}

  /** So does the sweep behind the build of another rendition. */
  lemma BuilderErases(c: Config, u: Usage, x: Id, y: Id) returns (h: Handle, b: Outcome, sh: Shared)
    requires c.cap > 0 && x != y && IsRendition(u, x) && IsRendition(u, y)
    ensures Orphaned(c, sh, x, h)
    ensures Leads(c, u, Start(c, Leftover(x)), Two(0, Fetched(ForBuild(x), h), Done(b), sh))
  {
    hide Leads, Two, IsSafeRenditionId, StartSweep;
    var start := Start(c, Leftover(x));
    StartLeads(c, u, start);
    h, sh := Fetches(c, u, start, 0, Idle, Idle, x, StartShared(c, Leftover(x)));
    var a, k := Fetched(ForBuild(x), h), Handle(y, 1);
    Switch(0, a, Idle, sh);
    k, sh := Fetches(c, u, start, 1, a, Idle, y, sh);
    sh := Locks(c, u, start, 1, a, y, k, sh);
    var m := Move(c, u, start, 1, Building(Recheck, y, k), a, sh, Go(false));
    sh := Publishes(c, u, start, 1, a, y, k, m.sh);
    SweepStarts(c, Builder(y, k));
    sh := SweepErases(c, u, start, 1, a, Builder(y, k), x, h, sh);
    m := Move(c, u, start, 1, GiveBack(y, k, Served), a, sh, Go(true));
    m := Move(c, u, start, 1, m.pc, a, m.sh, Go(true));
    b, sh := Served, m.sh;
    assert sh.owner == map[] && sh.parts == map[];
    Switch(1, m.pc, a, sh);
  }

  lemma BothLock(c: Config, u: Usage, start: State, x: Id, h: Handle, b: Pc, sh0: Shared)
    returns (k: Handle, sh: Shared)
    requires Usable(u, x) && AtRest(b) && Orphaned(c, sh0, x, h)
    requires Leads(c, u, start, Two(0, Fetched(ForBuild(x), h), b, sh0))
    ensures k.id == x && k != h
    ensures sh.freeSlots == sh0.freeSlots && sh.dirs == sh0.dirs && sh.parts == sh0.parts && sh.registryLock == None
    ensures Leads(c, u, start, Two(0, Building(Recheck, x, h), Building(Recheck, x, k), sh))
  {
    hide Leads, Two, IsSafeRenditionId;
    sh := Locks(c, u, start, 0, b, x, h, sh0);
    var a := Building(Recheck, x, h);
    Switch(0, a, b, sh);
    k, sh := Fetches(c, u, start, 1, a, b, x, sh);
    sh := Locks(c, u, start, 1, a, x, k, sh);
    Switch(1, Building(Recheck, x, k), a, sh);
  }

  /** Where calls can race, a run ends with two threads building one rendition, each under a mutex of its own. */
  lemma RaceHappens(c: Config, u: Usage) returns (x: Id, h: Handle, k: Handle, sh: Shared)
    requires c.cap > 0 && Races(u)
    ensures x != ROOT && h.id == k.id == x && h != k && Init(c, Start(c, Leftover(x)))
    ensures sh.freeSlots == ClampedSlots(c.configuredSlots) && x !in sh.dirs && x !in sh.parts
    ensures Leads(c, u, Start(c, Leftover(x)), Two(0, Building(Recheck, x, h), Building(Recheck, x, k), sh))
  {
    hide Leads, Two, IsSafeRenditionId;
    if u.sweeps && exists x :: IsRendition(u, x) {
      x :| IsRendition(u, x);
      h, sh := OperatorErases(c, u, x);
      k, sh := BothLock(c, u, Start(c, Leftover(x)), x, h, Idle, sh);
    } else {
      var y: Id;
      x, y :| x != y && IsRendition(u, x) && IsRendition(u, y);
      var b;
      h, b, sh := BuilderErases(c, u, x, y);
      k, sh := BothLock(c, u, Start(c, Leftover(x)), x, h, Done(b), sh);
    }
    StartInit(c, Leftover(x));
  }

  lemma RaceBreaksExclusion(c: Config, u: Usage)
    requires c.cap > 0 && Races(u)
    ensures !AlwaysBuildsAlone(c, u) && !AlwaysExcludes(c)
  {
    hide Exec, Init, Within;
    var x, h, k, sh := RaceHappens(c, u);
    var s := Two(0, Building(Recheck, x, h), Building(Recheck, x, k), sh);
    var run :| Exec(c, Start(c, Leftover(x)), run) == Some(s) && Within(u, run);
    assert h in Guards(s.pc[0]) && k in Guards(s.pc[1]);
    assert Critical(s.pc[0], x) && Critical(s.pc[1], x);
    assert BuildOf(s.pc[0]) == Some(x);
    assert !BuildsAlone(s) && !MutualExclusion(s);
  }

  ghost const ANYONE := Usage(iset id: Id | true, true)

  lemma AnyoneRaces()
    ensures Races(ANYONE)
  {
    assert IsRendition(ANYONE, "x");
  }

  /** Whoever calls, at most one thread at a time guards a rendition in every run, exactly without a cache cap. */
  lemma ExcludesExactly(c: Config)
    ensures AlwaysExcludes(c) <==> c.cap == 0
  {
    hide AlwaysExcludes, Races;
    if c.cap == 0 {
      NoCapExcludes(c);
    } else {
      AnyoneRaces();
      RaceBreaksExclusion(c, ANYONE);
    }
  }

  /** A rendition under construction is left alone in every run exactly without a cap or without races. */
  lemma BuildsAloneExactly(c: Config, u: Usage)
    ensures AlwaysBuildsAlone(c, u) <==> c.cap == 0 || !Races(u)
  {
    hide AlwaysBuildsAlone, Races;
    if c.cap == 0 || !Races(u) {
      QuietBuildsAlone(c, u);
    } else {
      RaceBreaksExclusion(c, u);
    }
  }

  // ---------- what such a race publishes ----------

  lemma RacePublishesTruncated(c: Config, u: Usage)
    requires c.cap > 0 && c.configuredSlots > 1 && Races(u)
    ensures !AlwaysPublishesComplete(c, u)
  {
    hide Next, Leads, Two, Races, Init;
    var x, h, k, sh := RaceHappens(c, u);
    var start := Start(c, Leftover(x));
    var b := Building(Recheck, x, k);
    var m := Move(c, u, start, 0, Building(Recheck, x, h), b, sh, Go(false));
    sh := Transcodes(c, u, start, 0, b, x, h, m.sh);
    m := Move(c, u, start, 0, Building(ClearDir, x, h), b, sh, Go(false));
    var a := m.pc;
    Switch(0, a, b, m.sh);
    m := Move(c, u, start, 1, b, a, m.sh, Go(false));
    sh := StartsOver(c, u, start, 1, a, x, k, m.sh);
    Switch(1, Building(Transcoding, x, k), a, sh);
    EndsTruncated(c, u, start, x, h, Building(Transcoding, x, k), sh);
  }

  lemma EndsTruncated(c: Config, u: Usage, start: State, x: Id, h: Handle, b: Pc, sh: Shared)
    requires Init(c, start) && x != ROOT && Leads(c, u, start, Two(0, Building(Publish, x, h), b, sh))
    requires x !in sh.dirs && x in sh.parts && !sh.parts[x].complete
    ensures !AlwaysPublishesComplete(c, u)
  {
    hide Exec, Init, Within;
    var s := Two(0, Building(Publish, x, h), b, sh);
    var run :| Exec(c, start, run) == Some(s) && Within(u, run);
    var next := Next(c, s, 0, Go(true));
    assert next.Some? && x in next.value.sh.dirs && !next.value.sh.dirs[x].complete;
    assert !AddsNoTruncated(s.sh, next.value.sh);
    assert Allowed(u, Go(true));
  }

  /** Only complete directories are ever published exactly without a cap, with one slot, or without races. */
  lemma PublishesCompleteExactly(c: Config, u: Usage)
    ensures AlwaysPublishesComplete(c, u) <==> c.cap == 0 || c.configuredSlots <= 1 || !Races(u)
  {
    hide AlwaysPublishesComplete, Races;
    if c.cap == 0 || !Races(u) {
      QuietPublishesComplete(c, u);
    } else if c.configuredSlots <= 1 {
      OneSlotPublishesComplete(c, u);
    } else {
      RacePublishesTruncated(c, u);
    }
  }

  // ---------- directories that are lost ----------

  /** A thread is about to clear the way for its rename, and a complete directory stands in it. */
  lemma EndsDisorderly(c: Config, u: Usage, start: State, x: Id, h: Handle, b: Pc, sh: Shared, lost: Id)
    requires Init(c, start) && Leads(c, u, start, Two(0, Building(ClearDir, x, h), b, sh))
    requires CompleteIn(sh.dirs, lost) && (x == lost || x == ROOT)
    ensures !AlwaysOrderly(c, u)
  {
    hide Exec, Init, Within;
    var s := Two(0, Building(ClearDir, x, h), b, sh);
    var run :| Exec(c, start, run) == Some(s) && Within(u, run);
    var next := Next(c, s, 0, Go(true));
    assert next.Some? && lost !in next.value.sh.dirs;
    assert !Orderly(s.sh, next.value.sh, s.pc[0]);
    assert Allowed(u, Go(true));
  }

  /** With any number of slots, the second build of a race deletes what the first has published. */
  lemma RaceLosesDirectory(c: Config, u: Usage)
    requires c.cap > 0 && Races(u)
    ensures !AlwaysOrderly(c, u)
  {
    hide Leads, Two, Races, Init, StartSweep;
    var x, h, k, sh := RaceHappens(c, u);
    var start := Start(c, Leftover(x));
    var a, b := Building(Source, x, h), Building(Recheck, x, k);
    var m := Move(c, u, start, 0, Building(Recheck, x, h), b, sh, Go(false));
    Switch(0, a, b, m.sh);
    m := Move(c, u, start, 1, b, a, m.sh, Go(false));
    sh := Publishes(c, u, start, 1, a, x, k, m.sh);
    SweepStarts(c, Builder(x, k));
    NothingListed(c, x);
    m := Move(c, u, start, 1, Listing(Builder(x, k)), a, sh, List({}, []));
    m := Move(c, u, start, 1, m.pc, a, m.sh, Go(true));
    Switch(1, m.pc, a, m.sh);
    sh := Transcodes(c, u, start, 0, m.pc, x, h, m.sh);
    EndsDisorderly(c, u, start, x, h, m.pc, sh, x);
  }

  lemma NothingListed(c: Config, keep: Id)
    ensures var sweep := Begin(keep, c.cap, []); sweep.Distinct() && Sorted(sweep.entries, NoLater) && sweep.total == 0
    ensures WithoutRoot([])
  {}

  lemma RootIsSafe()
    ensures IsSafeRenditionId(ROOT)
  {}

  /**
   A call for the root, which passes the check of ids, deletes a complete directory that it does not guard,
   whatever the configuration and with no other thread about.
   */
  lemma RootClearsCache(c: Config, u: Usage, lost: Id)
    requires ROOT in u.ids && lost != ROOT
    ensures !AlwaysOrderly(c, u)
  {
    hide Leads, Two, Init, IsSafeRenditionId;
    var dirs := map[lost := Cached(true, 0)];
    var start := Start(c, dirs);
    StartInit(c, dirs);
    RootIsSafe();
    StartLeads(c, u, start);
    var h, sh := Fetches(c, u, start, 0, Idle, Idle, ROOT, StartShared(c, dirs));
    sh := Locks(c, u, start, 0, Idle, ROOT, h, sh);
    var m := Move(c, u, start, 0, Building(Recheck, ROOT, h), Idle, sh, Go(false));
    sh := Transcodes(c, u, start, 0, Idle, ROOT, h, m.sh);
    EndsDisorderly(c, u, start, ROOT, h, Idle, sh, lost);
  }

  /**
   Directories change only under their guard, and complete ones stay until evicted, in every run exactly
   when nobody asks for the root and there is no cap or no race.
   */
  lemma OrderlyExactly(c: Config, u: Usage)
    ensures AlwaysOrderly(c, u) <==> ROOT !in u.ids && (c.cap == 0 || !Races(u))
  {
    hide AlwaysOrderly, Races;
    if ROOT in u.ids {
      RootClearsCache(c, u, "x");
    } else if c.cap == 0 || !Races(u) {
      QuietOrderly(c, u);
    } else {
      RaceLosesDirectory(c, u);
    }
  }
}
