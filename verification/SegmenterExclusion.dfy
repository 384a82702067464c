/**
 Mutual exclusion and the life of a published directory.

 `evict_over_cap` erases a rendition's mutex from the registry. A thread that has fetched the handle but
 not yet tried it then locks an orphan, while a later thread locks a fresh mutex for the same rendition.
 So exclusion is proved for the runs in which no erasure falls into that window.
 */
module SegmenterExclusion {
  import opened Sorting
  import opened Eviction
  import opened Segmenter
  import opened SegmenterSafety
  import opened SegmenterUsage

  /** The mutexes under which a thread may change the directories of their renditions. */
  function Guards(pc: Pc): set<Handle> {
    match pc
    case Dropping(home, _, _) => HomeHandles(home)
    case _ => Holds(pc)
  }

  /** Those, and the one it has fetched and not tried yet. */
  function Claims(pc: Pc): set<Handle> {
    match pc
    case Fetched(p, h) => PurposeHandles(p) + {h}
    case _ => Guards(pc)
  }

  ghost predicate Critical(pc: Pc, id: Id) {
    exists h :: h in Guards(pc) && h.id == id
  }

  ghost predicate MutualExclusion(s: State) {
    forall t, u, id :: t in s.pc && u in s.pc && Critical(s.pc[t], id) && Critical(s.pc[u], id) ==> t == u
  }

  /** Every claim is on the mutex that the registry has for its rendition. */
  ghost predicate Registered(s: State) {
    forall t, h :: t in s.pc && h in Claims(s.pc[t]) ==> h.id in s.sh.registry && s.sh.registry[h.id] == h
  }

  /** The step does not erase a rendition's mutex while a thread is between fetching and trying it. */
  ghost predicate WindowSafe(s: State, t: Tid, step: Step) {
    t in s.pc && step.Go? && s.pc[t].Forgetting? && s.pc[t].inside ==>
      forall u :: u in s.pc && s.pc[u].Fetched? ==> s.pc[u].h.id != s.pc[t].h.id
  }

  ghost predicate WindowSafeRun(c: Config, start: State, run: seq<Act>) {
    forall k :: 0 <= k < |run| && Exec(c, start, run[..k]).Some? ==>
      WindowSafe(Exec(c, start, run[..k]).value, run[k].t, run[k].step)
  }

  lemma RegisteredExcludes(s: State)
    requires LocksAgree(s) && Registered(s)
    ensures MutualExclusion(s)
  {
    hide Holds, Claims, Guards;
    forall t, u, id | t in s.pc && u in s.pc && Critical(s.pc[t], id) && Critical(s.pc[u], id)
      ensures t == u
    {
      var h :| h in Guards(s.pc[t]) && h.id == id;
      var k :| k in Guards(s.pc[u]) && k.id == id;
      GuardsAreHeld(s.pc[t], h);
      GuardsAreHeld(s.pc[u], k);
      assert h == s.sh.registry[id] == k;
      assert s.sh.owner[h] == t;
      assert s.sh.owner[k] == u;
    }
  }

  lemma GuardsAreHeld(pc: Pc, h: Handle)
    requires h in Guards(pc)
    ensures h in Holds(pc) && h in Claims(pc)
  {}

  /** A step adds no claim but the one it looks up, and an erasure gives its own claim up. */
  lemma ClaimsStep(c: Config, sh: Shared, t: Tid, pc: Pc, step: Step)
    requires PcOk(c, pc, sh.nextSerial) && Local(c, sh, t, pc, step).Some?
    ensures var m := Local(c, sh, t, pc, step).value;
            if pc.Lookup? && pc.inside && step.Go? then
              Claims(m.pc) == Claims(pc) + {m.sh.registry[Wanted(pc.purpose)]} && Wanted(pc.purpose) in m.sh.registry
            else if pc.Forgetting? && pc.inside && step.Go? then Claims(m.pc) == Claims(pc) - {pc.h}
            else Claims(m.pc) <= Claims(pc)
  {
    hide Sweep.Valid, Sweep.Finished, Sweep.Spare, Sweep.Evict, Begin, Sorted, Sweep.Distinct, IsSafeRenditionId,
      Sweep.Current;
  }

  lemma RegisteredStep(c: Config, s: State, t: Tid, step: Step)
    requires Inv(c, s) && Registered(s) && WindowSafe(s, t, step) && Next(c, s, t, step).Some?
    ensures Registered(Next(c, s, t, step).value)
  {
    hide Local, Holds, Claims, PcOk, SlotsConserved, RegistryAgrees;
    var s' := Next(c, s, t, step).value;
    var pc := s.pc[t];
    ClaimsStep(c, s.sh, t, pc, step);
    RegistryStep(c, s.sh, t, pc, step);
    if pc.Forgetting? && pc.inside && step.Go? {
      ErasureIsAlone(c, s, t);
    } else if pc.Lookup? && pc.inside && step.Go? {
      LookedUp(c, s, t);
    }
  }

  /** When a mutex is erased outside every window, no other thread has a claim on its rendition. */
  lemma ErasureIsAlone(c: Config, s: State, t: Tid)
    requires Inv(c, s) && Registered(s) && WindowSafe(s, t, Go(true)) && t in s.pc
    requires s.pc[t].Forgetting? && s.pc[t].inside
    ensures forall u, k :: u in s.pc && k in Claims(s.pc[u]) && (u != t || k != s.pc[t].h) ==> k.id != s.pc[t].h.id
  {
    hide PcOk, SlotsConserved, RegistryAgrees, Claims, Holds;
    var h := s.pc[t].h;
    ForgettingClaims(s.pc[t]);
    assert s.sh.owner[h] == t;
    forall u, k | u in s.pc && k in Claims(s.pc[u]) && (u != t || k != h)
      ensures k.id != h.id
    {
      ClaimHeldOrFetched(s.pc[u], k);
      assert s.sh.registry[k.id] == k && s.sh.registry[h.id] == h;
      if u != t && k in Holds(s.pc[u]) {
        assert s.sh.owner[k] == u;
      }
    }
  }

  lemma ForgettingClaims(pc: Pc)
    requires pc.Forgetting?
    ensures pc.h in Claims(pc) && pc.h in Holds(pc)
  {}

  lemma ClaimHeldOrFetched(pc: Pc, k: Handle)
    requires k in Claims(pc)
    ensures k in Holds(pc) || (pc.Fetched? && pc.h == k)
  {}

  lemma LookedUp(c: Config, s: State, t: Tid)
    requires Inv(c, s) && Registered(s) && t in s.pc && s.pc[t].Lookup? && s.pc[t].inside
    ensures var m := LookUp(s.sh, s.pc[t].purpose);
            && m.sh.registry[Wanted(s.pc[t].purpose)].id == Wanted(s.pc[t].purpose)
            && forall id :: id in s.sh.registry ==> id in m.sh.registry && m.sh.registry[id] == s.sh.registry[id]
  {}

  // ---------- the directories ----------

  /** What a build knows of the directories of its rendition while it guards them. */
  predicate Knows(sh: Shared, pc: Pc) {
    pc.Building? ==>
      && (pc.stage != Recheck ==> !CompleteIn(sh.dirs, pc.id))
      && (pc.stage == ClearDir || pc.stage == Publish ==> pc.id in sh.parts ==> sh.parts[pc.id].complete)
  }

  /** No directory and no work directory of the rendition is made, and none is completed. */
  predicate NoMoreOn(before: Shared, after: Shared, id: Id) {
    && (CompleteIn(after.dirs, id) ==> CompleteIn(before.dirs, id)) && (id in after.dirs ==> id in before.dirs)
    && (id in after.parts ==> id in before.parts && after.parts[id].complete == before.parts[id].complete)
  }

  /** The rendition's directory and work directory, as far as completeness goes. */
  predicate SameOn(before: Shared, after: Shared, id: Id) {
    && (id in after.dirs <==> id in before.dirs)
    && (id in after.dirs && id in before.dirs ==> after.dirs[id].complete == before.dirs[id].complete)
    && (id in after.parts && id in before.parts ==> after.parts[id].complete == before.parts[id].complete)
    && (id in after.parts ==> id in before.parts)
  }

  /** The one build that reaches beyond its own rendition. */
  predicate BuildsRoot(pc: Pc) {
    pc.Building? && pc.id == ROOT
  }

  lemma BuildChangesOnly(c: Config, sh: Shared, stage: Stage, id: Id, h: Handle, yes: bool, other: Id)
    requires other != id
    ensures NoMoreOn(sh, Build(c, sh, stage, id, h, yes).sh, other)
    ensures id != ROOT ==> SameOn(sh, Build(c, sh, stage, id, h, yes).sh, other)
  {
    hide StartSweep;
  }

  lemma AdvanceChangesOnly(c: Config, sh: Shared, t: Tid, pc: Pc, yes: bool, id: Id)
    requires PcOk(c, pc, sh.nextSerial) && Advance(c, sh, t, pc, yes).Some? && !Critical(pc, id)
    ensures NoMoreOn(sh, Advance(c, sh, t, pc, yes).value.sh, id)
    ensures !BuildsRoot(pc) ==> SameOn(sh, Advance(c, sh, t, pc, yes).value.sh, id)
  {
    hide Sweep.Valid, Sweep.Finished, Sweep.Spare, Sweep.Evict, Sweep.Current, Build, SweepOn;
    GuardsOf(pc);
    if pc.Building? {
      BuildChangesOnly(c, sh, pc.stage, pc.id, pc.h, yes, id);
    }
  }

  /** A thread adds nothing to what it does not guard, not even in a build of the root. */
  lemma AddsOnlyGuarded(c: Config, sh: Shared, t: Tid, pc: Pc, step: Step, id: Id)
    requires PcOk(c, pc, sh.nextSerial) && Local(c, sh, t, pc, step).Some? && !Critical(pc, id)
    ensures NoMoreOn(sh, Local(c, sh, t, pc, step).value.sh, id)
  {
    hide Sweep.Valid, Begin, Sorted, Sweep.Distinct, IsSafeRenditionId, Advance;
    GuardsOf(pc);
    if step.Go? {
      AdvanceChangesOnly(c, sh, t, pc, step.yes, id);
    }
  }

  /** A thread changes only what it guards, apart from times, abandoned work directories and a build of the root. */
  lemma ChangesOnlyGuarded(c: Config, sh: Shared, t: Tid, pc: Pc, step: Step, id: Id)
    requires PcOk(c, pc, sh.nextSerial) && Local(c, sh, t, pc, step).Some? && !Critical(pc, id) && !BuildsRoot(pc)
    ensures SameOn(sh, Local(c, sh, t, pc, step).value.sh, id)
  {
    hide Sweep.Valid, Begin, Sorted, Sweep.Distinct, IsSafeRenditionId, Advance;
    GuardsOf(pc);
    if step.Go? {
      AdvanceChangesOnly(c, sh, t, pc, step.yes, id);
    }
  }

  /** A work directory that was touched within the last hour is deleted only under its guard, or with the cache. */
  lemma FreshPartsStay(c: Config, sh: Shared, t: Tid, pc: Pc, step: Step, id: Id)
    requires PcOk(c, pc, sh.nextSerial) && Local(c, sh, t, pc, step).Some? && !Critical(pc, id) && !BuildsRoot(pc)
    requires id in sh.parts && sh.now <= sh.parts[id].touched + 60 * 60
    ensures id in Local(c, sh, t, pc, step).value.sh.parts
  {
    hide Sweep.Valid, Sweep.Finished, Sweep.Spare, Sweep.Evict, Begin, Sorted, Sweep.Distinct, IsSafeRenditionId, Build,
      Sweep.Current, SweepOn;
    GuardsOf(pc);
    if pc.Building? && step.Go? {
      BuildLeavesParts(c, sh, pc.stage, pc.id, pc.h, step.yes, id);
    }
  }

  /** A sweep turns to forgetting a mutex only when it has removed the directory. */
  lemma ForgetsTheEvicted(c: Config, sh: Shared, t: Tid, pc: Pc, step: Step)
    requires PcOk(c, pc, sh.nextSerial) && Local(c, sh, t, pc, step).Some? && !pc.Forgetting?
    requires Local(c, sh, t, pc, step).value.pc.Forgetting?
    ensures var m := Local(c, sh, t, pc, step).value; pc.Evicting? && pc.h == m.pc.h && m.pc.h.id !in m.sh.dirs
  {
    hide Sweep.Valid, Sweep.Finished, Sweep.Spare, Begin, Sorted, Sweep.Distinct, IsSafeRenditionId, Sweep.Current;
  }

  lemma BuildLeavesParts(c: Config, sh: Shared, stage: Stage, id: Id, h: Handle, yes: bool, other: Id)
    requires other != id && id != ROOT && other in sh.parts
    ensures other in Build(c, sh, stage, id, h, yes).sh.parts
  {
    hide StartSweep;
  }

  lemma GuardsOf(pc: Pc)
    ensures pc.Building? || pc.Evicting? || pc.Forgetting? ==> pc.h in Guards(pc)
  {}

  lemma BuildKnows(c: Config, sh: Shared, stage: Stage, id: Id, h: Handle, yes: bool)
    requires Knows(sh, Building(stage, id, h))
    ensures var m := Build(c, sh, stage, id, h, yes); Knows(m.sh, m.pc)
  {}

  /** The moving thread keeps knowing what it knows. */
  lemma KnowsMoves(c: Config, sh: Shared, t: Tid, pc: Pc, step: Step)
    requires Knows(sh, pc) && Local(c, sh, t, pc, step).Some?
    ensures var m := Local(c, sh, t, pc, step).value; Knows(m.sh, m.pc)
  {
    hide Sweep.Valid, Sweep.Finished, Sweep.Spare, Sweep.Evict, Sweep.Current, Begin, Sorted, Sweep.Distinct,
      IsSafeRenditionId, Build;
    if step.Go? && pc.Building? {
      BuildKnows(c, sh, pc.stage, pc.id, pc.h, step.yes);
    }
  }

  ghost predicate AllKnow(s: State) {
    forall t :: t in s.pc ==> Knows(s.sh, s.pc[t])
  }

  lemma AllKnowStep(c: Config, s: State, t: Tid, step: Step)
    requires Inv(c, s) && AllKnow(s) && MutualExclusion(s) && Next(c, s, t, step).Some?
    ensures AllKnow(Next(c, s, t, step).value)
  {
    hide Local, Critical, PcOk, SlotsConserved, RegistryAgrees, LocksAgree;
    var s' := Next(c, s, t, step).value;
    KnowsMoves(c, s.sh, t, s.pc[t], step);
    forall u | u in s'.pc && u != t ensures Knows(s'.sh, s'.pc[u]) {
      if s.pc[u].Building? {
        BuilderGuards(c, s.pc[u], s.sh.nextSerial);
        AddsOnlyGuarded(c, s.sh, t, s.pc[t], step, s.pc[u].id);
      }
    }
  }

  lemma BuilderGuards(c: Config, pc: Pc, serials: nat)
    requires PcOk(c, pc, serials) && pc.Building?
    ensures Critical(pc, pc.id)
  {
    GuardsOf(pc);
  }

  // ---------- runs ----------

  ghost predicate Exclusive(c: Config, s: State) {
    Inv(c, s) && Registered(s) && AllKnow(s)
  }

  lemma WindowSafePrefix(c: Config, start: State, run: seq<Act>, n: nat)
    requires WindowSafeRun(c, start, run) && n <= |run|
    ensures WindowSafeRun(c, start, run[..n])
  {
    hide Exec, WindowSafe;
    assert forall k :: 0 <= k < n ==> run[..n][..k] == run[..k];
  }

  lemma {:induction false} ExclusiveAlways(c: Config, start: State, run: seq<Act>)
    requires Init(c, start) && Exec(c, start, run).Some? && WindowSafeRun(c, start, run)
    ensures Exclusive(c, Exec(c, start, run).value)
  {
    hide Inv, Next, Registered, AllKnow, WindowSafe;
    if run == [] {
      InitExclusive(c, start);
    } else {
      var n := |run| - 1;
      WindowSafePrefix(c, start, run, n);
      ExclusiveAlways(c, start, run[..n]);
      var s := Exec(c, start, run[..n]).value;
      InvStep(c, s, run[n].t, run[n].step);
      ExclusiveExcludes(c, s);
      RegisteredStep(c, s, run[n].t, run[n].step);
      AllKnowStep(c, s, run[n].t, run[n].step);
    }
  }

  lemma InitExclusive(c: Config, s: State)
    requires Init(c, s)
    ensures Exclusive(c, s)
  {
    InitInv(c, s);
  }

  lemma ExclusiveExcludes(c: Config, s: State)
    requires Exclusive(c, s)
    ensures MutualExclusion(s)
  {
    RegisteredExcludes(s);
  }

  /** In a window-safe run at most one thread at a time may change a rendition's directories. */
  lemma WindowSafeRunsExclude(c: Config, start: State, run: seq<Act>)
    requires Init(c, start) && Exec(c, start, run).Some? && WindowSafeRun(c, start, run)
    ensures MutualExclusion(Exec(c, start, run).value)
  {
    hide Exclusive, MutualExclusion, Init, Exec, WindowSafeRun;
    ExclusiveAlways(c, start, run);
    ExclusiveExcludes(c, Exec(c, start, run).value);
  }

  lemma BuildKeepsComplete(c: Config, sh: Shared, stage: Stage, id: Id, h: Handle, yes: bool, other: Id)
    requires Knows(sh, Building(stage, id, h)) && id != ROOT && CompleteIn(sh.dirs, other)
    ensures CompleteIn(Build(c, sh, stage, id, h, yes).sh.dirs, other)
  {
    hide StartSweep;
  }

  lemma StaysUntilEvicted(c: Config, sh: Shared, t: Tid, pc: Pc, step: Step, id: Id)
    requires Knows(sh, pc) && !BuildsRoot(pc) && Local(c, sh, t, pc, step).Some? && CompleteIn(sh.dirs, id)
    ensures CompleteIn(Local(c, sh, t, pc, step).value.sh.dirs, id) || (pc.Evicting? && pc.h.id == id)
  {
    hide Sweep.Valid, Sweep.Finished, Sweep.Spare, Sweep.Evict, Begin, Sorted, Sweep.Distinct, IsSafeRenditionId,
      Sweep.Current, Build, SweepOn;
    if pc.Building? && step.Go? {
      BuildKeepsComplete(c, sh, pc.stage, pc.id, pc.h, step.yes, id);
    }
  }

  /** In such runs a complete directory stays until an eviction removes it, whoever moves but a build of the root. */
  lemma CompleteUntilEvicted(c: Config, s: State, t: Tid, step: Step, id: Id)
    requires Exclusive(c, s) && Next(c, s, t, step).Some? && !BuildsRoot(s.pc[t]) && CompleteIn(s.sh.dirs, id)
    ensures CompleteIn(Next(c, s, t, step).value.sh.dirs, id) || (s.pc[t].Evicting? && s.pc[t].h.id == id)
  {
    hide Local, Knows, Inv, Registered;
    StaysUntilEvicted(c, s.sh, t, s.pc[t], step, id);
  }

  lemma BuildLeavesIncomplete(c: Config, sh: Shared, stage: Stage, id: Id, h: Handle, yes: bool, other: Id)
    requires stage == Publish && id != ROOT && id in sh.parts ==> sh.parts[id].complete
    ensures var dirs := Build(c, sh, stage, id, h, yes).sh.dirs;
            other in dirs && !dirs[other].complete ==> other in sh.dirs && !sh.dirs[other].complete
  {
    hide StartSweep;
  }

  /** What one step leaves incomplete was incomplete before it. */
  lemma LeavesIncomplete(c: Config, sh: Shared, t: Tid, pc: Pc, step: Step, id: Id)
    requires pc.Building? && pc.stage == Publish && pc.id != ROOT && pc.id in sh.parts ==> sh.parts[pc.id].complete
    requires Local(c, sh, t, pc, step).Some?
    ensures var dirs := Local(c, sh, t, pc, step).value.sh.dirs;
            id in dirs && !dirs[id].complete ==> id in sh.dirs && !sh.dirs[id].complete
  {
    hide Sweep.Valid, Sweep.Finished, Sweep.Spare, Sweep.Evict, Begin, Sorted, Sweep.Distinct, IsSafeRenditionId,
      Sweep.Current, Build, SweepOn;
    if pc.Building? && step.Go? {
      BuildLeavesIncomplete(c, sh, pc.stage, pc.id, pc.h, step.yes, id);
    }
  }

  /** So what a step newly publishes is complete. */
  lemma PublishesOnlyComplete(c: Config, s: State, t: Tid, step: Step, id: Id)
    requires Exclusive(c, s) && Next(c, s, t, step).Some?
    requires id in Next(c, s, t, step).value.sh.dirs && !Next(c, s, t, step).value.sh.dirs[id].complete
    ensures id in s.sh.dirs && !s.sh.dirs[id].complete
  {
    hide Local, Inv, Registered;
    assert Knows(s.sh, s.pc[t]);
    LeavesIncomplete(c, s.sh, t, s.pc[t], step, id);
  }

  /** After any window-safe run, a directory is complete unless it was a truncated leftover at the start. */
  lemma {:induction false} OnlyLeftoversIncomplete(c: Config, start: State, run: seq<Act>, id: Id)
    requires Init(c, start) && Exec(c, start, run).Some? && WindowSafeRun(c, start, run)
    requires var dirs := Exec(c, start, run).value.sh.dirs; id in dirs && !dirs[id].complete
    ensures id in start.sh.dirs && !start.sh.dirs[id].complete
  {
    hide Exclusive, Next, WindowSafe, Init;
    if run != [] {
      var n := |run| - 1;
      WindowSafePrefix(c, start, run, n);
      ExclusiveAlways(c, start, run[..n]);
      PublishesOnlyComplete(c, Exec(c, start, run[..n]).value, run[n].t, run[n].step, id);
      OnlyLeftoversIncomplete(c, start, run[..n], id);
    }
  }

  // ---------- what success leaves behind ----------

  predicate HomeServed(sh: Shared, home: Home) {
    home.Builder? ==> CompleteIn(sh.dirs, home.id)
  }

  /** A build that has published has its directory. */
  predicate Delivered(sh: Shared, pc: Pc) {
    match pc
    case Lookup(p, _) => p.ForSweep? ==> HomeServed(sh, p.home)
    case Fetched(p, _) => p.ForSweep? ==> HomeServed(sh, p.home)
    case Listing(home) => HomeServed(sh, home)
    case Sweeping(home, _) => HomeServed(sh, home)
    case Evicting(home, _, _) => HomeServed(sh, home)
    case Forgetting(home, _, _, _) => HomeServed(sh, home)
    case Dropping(home, _, _) => HomeServed(sh, home)
    case GiveBack(id, _, outcome) => outcome == Served ==> CompleteIn(sh.dirs, id)
    case Unlock(id, _, outcome) => outcome == Served ==> CompleteIn(sh.dirs, id)
    case _ => true
  }

  ghost predicate AllServed(s: State) {
    forall t :: t in s.pc ==> Delivered(s.sh, s.pc[t])
  }

  lemma BuildServed(c: Config, sh: Shared, stage: Stage, id: Id, h: Handle, yes: bool)
    requires Knows(sh, Building(stage, id, h))
    ensures var m := Build(c, sh, stage, id, h, yes); Delivered(m.sh, m.pc)
  {}

  lemma AdvanceServed(c: Config, sh: Shared, t: Tid, pc: Pc, yes: bool)
    requires PcOk(c, pc, sh.nextSerial) && Knows(sh, pc) && Delivered(sh, pc) && Advance(c, sh, t, pc, yes).Some?
    ensures var m := Advance(c, sh, t, pc, yes).value; Delivered(m.sh, m.pc)
  {
    hide Sweep.Valid, Sweep.Finished, Sweep.Spare, Sweep.Evict, Sweep.Current, Build;
    if pc.Building? {
      BuildServed(c, sh, pc.stage, pc.id, pc.h, yes);
    }
  }

  lemma ServedMoves(c: Config, sh: Shared, t: Tid, pc: Pc, step: Step)
    requires PcOk(c, pc, sh.nextSerial) && Knows(sh, pc) && Delivered(sh, pc) && Local(c, sh, t, pc, step).Some?
    ensures var m := Local(c, sh, t, pc, step).value; Delivered(m.sh, m.pc)
  {
    hide Sweep.Valid, Begin, Sorted, Sweep.Distinct, IsSafeRenditionId, Advance;
    if step.Go? {
      AdvanceServed(c, sh, t, pc, step.yes);
    }
  }

  lemma ServedStays(c: Config, before: Shared, after: Shared, pc: Pc, serials: nat)
    requires PcOk(c, pc, serials) && Delivered(before, pc)
    requires forall id :: Critical(pc, id) ==> SameOn(before, after, id)
    ensures Delivered(after, pc)
  {
    hide Sweep.Valid, Sweep.Finished, Sweep.Spare, Sweep.Evict;
    forall h | h in Guards(pc) ensures SameOn(before, after, h.id) {
      assert Critical(pc, h.id);
    }
  }

  lemma AllServedStep(c: Config, s: State, t: Tid, step: Step)
    requires Exclusive(c, s) && AllServed(s) && Next(c, s, t, step).Some? && !BuildsRoot(s.pc[t])
    ensures AllServed(Next(c, s, t, step).value)
  {
    hide Local, Knows, Delivered, Critical, PcOk, SlotsConserved, RegistryAgrees, LocksAgree, Registered,
      MutualExclusion;
    var s' := Next(c, s, t, step).value;
    ExclusiveExcludes(c, s);
    ServedMoves(c, s.sh, t, s.pc[t], step);
    forall u | u in s'.pc && u != t ensures Delivered(s'.sh, s'.pc[u]) {
      forall id | Critical(s.pc[u], id) ensures SameOn(s.sh, s'.sh, id) {
        NotBoth(s, t, u, id);
        ChangesOnlyGuarded(c, s.sh, t, s.pc[t], step, id);
      }
      ServedStays(c, s.sh, s'.sh, s.pc[u], s.sh.nextSerial);
    }
  }

  lemma NotBoth(s: State, t: Tid, u: Tid, id: Id)
    requires MutualExclusion(s) && t in s.pc && u in s.pc && t != u && Critical(s.pc[u], id)
    ensures !Critical(s.pc[t], id)
  {
    hide Critical;
  }

  lemma {:induction false} ServedAlways(c: Config, u: Usage, start: State, run: seq<Act>)
    requires Init(c, start) && Exec(c, start, run).Some? && WindowSafeRun(c, start, run)
    requires Within(u, run) && ROOT !in u.ids
    ensures AllServed(Exec(c, start, run).value)
  {
    hide Exclusive, Next, WindowSafe, AllInUse, Allowed;
    if run == [] {
      AtRestServed(start);
    } else {
      var n := |run| - 1;
      WindowSafePrefix(c, start, run, n);
      WithinPrefix(u, run, n);
      ServedAlways(c, u, start, run[..n]);
      ExclusiveAlways(c, start, run[..n]);
      InUseAlways(c, u, start, run[..n]);
      var s := Exec(c, start, run[..n]).value;
      NoRootBuild(c, u, s, run[n].t, run[n].step);
      AllServedStep(c, s, run[n].t, run[n].step);
    }
  }

  lemma AtRestServed(s: State)
    requires forall t :: t in s.pc ==> s.pc[t] == Idle
    ensures AllServed(s)
  {}

  lemma NoRootBuild(c: Config, u: Usage, s: State, t: Tid, step: Step)
    requires AllInUse(u, s) && ROOT !in u.ids && Next(c, s, t, step).Some?
    ensures t in s.pc && !BuildsRoot(s.pc[t])
  {
    hide Local;
    assert InUse(u, s.pc[t]);
  }

  /** A call that is about to report success leaves a complete directory behind it, if nobody asks for the root. */
  lemma SuccessIsComplete(c: Config, u: Usage, start: State, run: seq<Act>, t: Tid)
    requires Init(c, start) && Exec(c, start, run).Some? && WindowSafeRun(c, start, run)
    requires Within(u, run) && ROOT !in u.ids
    requires var s := Exec(c, start, run).value; t in s.pc && s.pc[t].Unlock? && s.pc[t].outcome == Served
    ensures var s := Exec(c, start, run).value; CompleteIn(s.sh.dirs, s.pc[t].id)
  {
    hide Init, Exec, WindowSafeRun, Within;
    ServedAlways(c, u, start, run);
    var s := Exec(c, start, run).value;
    assert Delivered(s.sh, s.pc[t]);
  }
}
