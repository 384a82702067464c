/** What every step of the segmenter keeps, in every interleaving and for every configuration. */
module SegmenterSafety {
  import opened Wrappers
  import opened Sorting
  import opened Eviction
  import opened Segmenter

  // ---------- what a thread holds ----------

  function HomeHandles(home: Home): set<Handle> {
    match home
    case Operator(_) => {}
    case Builder(_, h) => {h}
  }

  function PurposeHandles(p: Purpose): set<Handle> {
    match p
    case ForBuild(_) => {}
    case ForSweep(home, _) => HomeHandles(home)
  }

  /** The mutexes a thread has locked. */
  function Holds(pc: Pc): set<Handle> {
    match pc
    case Lookup(p, _) => PurposeHandles(p)
    case Fetched(p, _) => PurposeHandles(p)
    case Building(_, _, h) => {h}
    case Listing(home) => HomeHandles(home)
    case Sweeping(home, _) => HomeHandles(home)
    case Evicting(home, _, h) => HomeHandles(home) + {h}
    case Forgetting(home, _, h, _) => HomeHandles(home) + {h}
    case Dropping(home, _, h) => HomeHandles(home) + {h}
    case GiveBack(_, h, _) => {h}
    case Unlock(_, h, _) => {h}
    case _ => {}
  }

  predicate HoldsSlot(pc: Pc) {
    match pc
    case Lookup(p, _) => p.ForSweep? && p.home.Builder?
    case Fetched(p, _) => p.ForSweep? && p.home.Builder?
    case Building(stage, _, _) => stage != Recheck && stage != Source && stage != Slot
    case Listing(home) => home.Builder?
    case Sweeping(home, _) => home.Builder?
    case Evicting(home, _, _) => home.Builder?
    case Forgetting(home, _, _, _) => home.Builder?
    case Dropping(home, _, _) => home.Builder?
    case GiveBack(_, _, _) => true
    case _ => false
  }

  predicate InRegistry(pc: Pc) {
    (pc.Lookup? && pc.inside) || (pc.Forgetting? && pc.inside)
  }

  // ---------- the invariant ----------

  predicate MadeFor(h: Handle, id: Id, serials: nat) {
    h.id == id && h.serial < serials
  }

  predicate HomeOk(home: Home, serials: nat) {
    home.Builder? ==> MadeFor(home.h, home.id, serials)
  }

  ghost predicate SweepOk(c: Config, home: Home, sweep: Sweep, serials: nat) {
    HomeOk(home, serials) && sweep.Valid() && sweep.keep == KeepOf(home) && sweep.cap == c.cap > 0
  }

  /** The entry that a sweep is about to lock: not the last, and not the rendition it must keep. */
  ghost predicate AtEntry(sweep: Sweep, id: Id) {
    |sweep.fates| < |sweep.entries| && !sweep.Finished() && sweep.Current().id == id != sweep.keep
  }

  ghost predicate PurposeOk(c: Config, p: Purpose, serials: nat) {
    p.ForSweep? ==> SweepOk(c, p.home, p.sweep, serials) && AtEntry(p.sweep, Wanted(p))
  }

  ghost predicate PcOk(c: Config, pc: Pc, serials: nat) {
    match pc
    case Lookup(p, _) => PurposeOk(c, p, serials)
    case Fetched(p, h) => PurposeOk(c, p, serials) && MadeFor(h, Wanted(p), serials)
    case Building(_, id, h) => MadeFor(h, id, serials)
    case Listing(home) => HomeOk(home, serials) && c.cap > 0
    case Sweeping(home, sweep) => SweepOk(c, home, sweep, serials)
    case Evicting(home, sweep, h) =>
      SweepOk(c, home, sweep, serials) && AtEntry(sweep, h.id) && h.serial < serials
    case Forgetting(home, sweep, h, _) =>
      SweepOk(c, home, sweep, serials) && h.id != sweep.keep && h.serial < serials
    case Dropping(home, sweep, h) =>
      SweepOk(c, home, sweep, serials) && h.id != sweep.keep && h.serial < serials
    case GiveBack(id, h, _) => MadeFor(h, id, serials)
    case Unlock(id, h, _) => MadeFor(h, id, serials)
    case _ => true
  }

  ghost predicate Named(c: Config, s: State) {
    && (forall t :: t in s.pc ==> PcOk(c, s.pc[t], s.sh.nextSerial))
    && (forall id :: id in s.sh.registry ==> MadeFor(s.sh.registry[id], id, s.sh.nextSerial))
  }

  /** The owner map and the threads agree on who has locked what. */
  ghost predicate LocksAgree(s: State) {
    && (forall t, h :: t in s.pc && h in Holds(s.pc[t]) ==> h in s.sh.owner && s.sh.owner[h] == t)
    && (forall h :: h in s.sh.owner ==> s.sh.owner[h] in s.pc && h in Holds(s.pc[s.sh.owner[h]]))
  }

  ghost predicate RegistryAgrees(s: State) {
    && (forall t :: t in s.pc ==> (InRegistry(s.pc[t]) <==> s.sh.registryLock == Some(t)))
    && (s.sh.registryLock.Some? ==> s.sh.registryLock.value in s.pc)
  }

  ghost function SlotHolders(pc: map<Tid, Pc>): set<Tid> {
    set t | t in pc && HoldsSlot(pc[t])
  }

  ghost predicate SlotsConserved(c: Config, s: State) {
    s.sh.freeSlots + |SlotHolders(s.pc)| == ClampedSlots(c.configuredSlots)
  }

  ghost predicate Inv(c: Config, s: State) {
    Named(c, s) && LocksAgree(s) && RegistryAgrees(s) && SlotsConserved(c, s)
  }

  lemma InitInv(c: Config, s: State)
    requires Init(c, s)
    ensures Inv(c, s)
  {
    assert SlotHolders(s.pc) == {};
  }

  // ---------- names and sweeps ----------

  lemma PcOkGrows(c: Config, pc: Pc, few: nat, many: nat)
    requires PcOk(c, pc, few) && few <= many
    ensures PcOk(c, pc, many)
  {
    hide Sweep.Valid, Sweep.Finished;
  }

  lemma SpareOk(c: Config, home: Home, sweep: Sweep, fate: Fate, serials: nat)
    requires SweepOk(c, home, sweep, serials) && !sweep.Finished() && |sweep.fates| < |sweep.entries|
    requires fate == Kept <==> sweep.Current().id == sweep.keep
    ensures sweep.Current().bytes <= sweep.total
    ensures fate != Removed ==> SweepOk(c, home, sweep.Spare(fate), serials)
    ensures fate == Removed ==> SweepOk(c, home, sweep.Evict(), serials)
  {
    hide Sweep.Valid;
    StepValid(sweep, fate);
  }

  lemma AfterOk(c: Config, home: Home, serials: nat)
    requires HomeOk(home, serials)
    ensures PcOk(c, After(home), serials)
    ensures PcOk(c, StartSweep(c, home), serials)
  {}

  lemma SweepOnOk(c: Config, home: Home, sweep: Sweep, serials: nat)
    requires SweepOk(c, home, sweep, serials)
    ensures PcOk(c, SweepOn(home, sweep), serials)
  {
    hide Sweep.Valid, Sweep.Spare;
    AfterOk(c, home, serials);
    if !sweep.Finished() && |sweep.fates| < |sweep.entries| && sweep.Current().id == sweep.keep {
      SpareOk(c, home, sweep, Kept, serials);
    }
  }

  lemma BuildOk(c: Config, sh: Shared, stage: Stage, id: Id, h: Handle, yes: bool)
    requires MadeFor(h, id, sh.nextSerial)
    ensures var m := Build(c, sh, stage, id, h, yes); PcOk(c, m.pc, sh.nextSerial) && m.sh.nextSerial == sh.nextSerial
  {
    hide StartSweep;
    AfterOk(c, Builder(id, h), sh.nextSerial);
  }

  lemma AdvanceOk(c: Config, sh: Shared, t: Tid, pc: Pc, yes: bool)
    requires PcOk(c, pc, sh.nextSerial) && Advance(c, sh, t, pc, yes).Some?
    requires forall id :: id in sh.registry ==> MadeFor(sh.registry[id], id, sh.nextSerial)
    ensures var m := Advance(c, sh, t, pc, yes).value; PcOk(c, m.pc, m.sh.nextSerial)
  {
    hide Sweep.Valid, Sweep.Finished, Sweep.Spare, Sweep.Evict, SweepOn, Build;
    match pc
    case Lookup(p, inside) =>
      if inside { PcOkGrows(c, pc, sh.nextSerial, sh.nextSerial + 1); }
    case Fetched(p, h) =>
      if p.ForSweep? { SpareOk(c, p.home, p.sweep, Locked, sh.nextSerial); }
    case Building(stage, id, h) => BuildOk(c, sh, stage, id, h, yes);
    case Sweeping(home, sweep) => SweepOnOk(c, home, sweep, sh.nextSerial);
    case Evicting(home, sweep, h) =>
      SpareOk(c, home, sweep, Stuck, sh.nextSerial);
      SpareOk(c, home, sweep, Removed, sh.nextSerial);
    case _ =>
  }

  lemma LocalOk(c: Config, sh: Shared, t: Tid, pc: Pc, step: Step)
    requires PcOk(c, pc, sh.nextSerial) && Local(c, sh, t, pc, step).Some?
    requires forall id :: id in sh.registry ==> MadeFor(sh.registry[id], id, sh.nextSerial)
    ensures var m := Local(c, sh, t, pc, step).value; PcOk(c, m.pc, m.sh.nextSerial)
  {
    hide Sweep.Valid, Sweep.Finished, Advance, Begin, Sorted, Sweep.Distinct, IsSafeRenditionId;
    match step
    case Go(yes) => AdvanceOk(c, sh, t, pc, yes);
    case CallSweep(keep) => AfterOk(c, Operator(keep), sh.nextSerial);
    case List(stale, entries) =>
      if pc.Listing? {
        AfterOk(c, pc.home, sh.nextSerial);
        BeginOk(c, pc.home, entries, sh.nextSerial);
      }
    case _ =>
  }

  lemma BeginOk(c: Config, home: Home, entries: seq<CacheEntry>, serials: nat)
    requires HomeOk(home, serials) && c.cap > 0
    ensures Sorted(entries, NoLater) ==> SweepOk(c, home, Begin(KeepOf(home), c.cap, entries), serials)
  {
    if Sorted(entries, NoLater) { BeginValid(KeepOf(home), c.cap, entries); }
  }

  /** The registry after a step: as before, or with one name looked up, or with one erased. */
  lemma RegistryStep(c: Config, sh: Shared, t: Tid, pc: Pc, step: Step)
    requires Local(c, sh, t, pc, step).Some?
    ensures var m := Local(c, sh, t, pc, step).value;
            if pc.Lookup? && pc.inside && step.Go? then m == LookUp(sh, pc.purpose)
            else if pc.Forgetting? && pc.inside && step.Go? then
              m.sh.nextSerial == sh.nextSerial && m.sh.registry == sh.registry - {pc.h.id}
            else m.sh.nextSerial == sh.nextSerial && m.sh.registry == sh.registry
  {
    hide Sweep.Valid, Sweep.Finished, Sweep.Spare, Sweep.Evict, Begin, Sorted, Sweep.Distinct, IsSafeRenditionId;
  }

  lemma NamedStep(c: Config, s: State, t: Tid, step: Step)
    requires Named(c, s) && Next(c, s, t, step).Some?
    ensures Named(c, Next(c, s, t, step).value)
  {
    hide Local, PcOk;
    var s' := Next(c, s, t, step).value;
    LocalOk(c, s.sh, t, s.pc[t], step);
    RegistryStep(c, s.sh, t, s.pc[t], step);
    forall u | u in s'.pc && u != t ensures PcOk(c, s'.pc[u], s'.sh.nextSerial) {
      PcOkGrows(c, s.pc[u], s.sh.nextSerial, s'.sh.nextSerial);
    }
  }

  // ---------- locks ----------

  datatype LockChange = Same | Acquired(h: Handle) | Released(h: Handle)

  /** How a step changes who owns what. */
  ghost predicate Changes(change: LockChange, before: map<Handle, Tid>, after: map<Handle, Tid>, t: Tid, pc: Pc,
                          next: Pc) {
    match change
    case Same => after == before && Holds(next) == Holds(pc)
    case Acquired(h) => h !in before && after == before[h := t] && Holds(next) == Holds(pc) + {h}
    case Released(h) => h in Holds(pc) && after == before - {h} && Holds(next) == Holds(pc) - {h}
  }

  /** The stages of a build neither lock nor unlock. */
  lemma BuildHolds(c: Config, sh: Shared, stage: Stage, id: Id, h: Handle, yes: bool)
    ensures var m := Build(c, sh, stage, id, h, yes); m.sh.owner == sh.owner && Holds(m.pc) == {h}
  {}

  lemma LockStep(c: Config, sh: Shared, t: Tid, pc: Pc, step: Step) returns (change: LockChange)
    requires PcOk(c, pc, sh.nextSerial) && Local(c, sh, t, pc, step).Some?
    ensures var m := Local(c, sh, t, pc, step).value; Changes(change, sh.owner, m.sh.owner, t, pc, m.pc)
  {
    hide Sweep.Valid, Sweep.Finished, Sweep.Spare, Sweep.Evict, Begin, Sorted, Sweep.Distinct, IsSafeRenditionId,
      Sweep.Current, Build;
    change := Same;
    if step.Go? {
      match pc
      case Fetched(p, h) => if h !in sh.owner && step.yes { change := Acquired(h); }
      case Building(stage, id, h) => BuildHolds(c, sh, stage, id, h, step.yes);
      case Dropping(home, sweep, h) =>
        assert Holds(Sweeping(home, sweep)) == Holds(pc) - {h};
        change := Released(h);
      case Unlock(id, h, outcome) => change := Released(h);
      case _ =>
    }
  }

  lemma LocksStep(c: Config, s: State, t: Tid, step: Step)
    requires Named(c, s) && LocksAgree(s) && Next(c, s, t, step).Some?
    ensures LocksAgree(Next(c, s, t, step).value)
  {
    hide Local, PcOk, Holds, Changes, LocksAgree;
    var change := LockStep(c, s.sh, t, s.pc[t], step);
    LocksAfter(change, s, t, Next(c, s, t, step).value);
  }

  lemma LocksAfter(change: LockChange, s: State, t: Tid, s': State)
    requires LocksAgree(s) && t in s.pc && t in s'.pc && s'.pc == s.pc[t := s'.pc[t]]
    requires Changes(change, s.sh.owner, s'.sh.owner, t, s.pc[t], s'.pc[t])
    ensures LocksAgree(s')
  {
    hide Holds;
    forall u, h | u in s'.pc && h in Holds(s'.pc[u]) ensures h in s'.sh.owner && s'.sh.owner[h] == u {
      assert u != t ==> h in Holds(s.pc[u]) && s.sh.owner[h] == u;
      assert u == t && h in Holds(s.pc[t]) ==> s.sh.owner[h] == t;
    }
    forall h | h in s'.sh.owner ensures s'.sh.owner[h] in s'.pc && h in Holds(s'.pc[s'.sh.owner[h]]) {
      assert h in s.sh.owner ==> s.sh.owner[h] in s.pc && h in Holds(s.pc[s.sh.owner[h]]);
    }
  }

  lemma RegistryLockStep(c: Config, sh: Shared, t: Tid, pc: Pc, step: Step)
    requires Local(c, sh, t, pc, step).Some?
    requires InRegistry(pc) <==> sh.registryLock == Some(t)
    ensures var m := Local(c, sh, t, pc, step).value;
            (InRegistry(m.pc) <==> m.sh.registryLock == Some(t))
            && (m.sh.registryLock != sh.registryLock ==>
                  (sh.registryLock.None? || sh.registryLock == Some(t))
                  && (m.sh.registryLock.None? || m.sh.registryLock == Some(t)))
  {
    hide Sweep.Valid, Sweep.Finished, Sweep.Spare, Sweep.Evict, Begin, Sorted, Sweep.Distinct, IsSafeRenditionId;
  }

  lemma RegistryAgreesStep(c: Config, s: State, t: Tid, step: Step)
    requires RegistryAgrees(s) && Next(c, s, t, step).Some?
    ensures RegistryAgrees(Next(c, s, t, step).value)
  {
    hide Local, InRegistry;
    RegistryLockStep(c, s.sh, t, s.pc[t], step);
  }

  // ---------- slots ----------

  lemma SlotStep(c: Config, sh: Shared, t: Tid, pc: Pc, step: Step)
    requires Local(c, sh, t, pc, step).Some?
    ensures var m := Local(c, sh, t, pc, step).value;
            m.sh.freeSlots + (if HoldsSlot(m.pc) then 1 else 0) == sh.freeSlots + (if HoldsSlot(pc) then 1 else 0)
  {
    hide Sweep.Valid, Sweep.Finished, Sweep.Spare, Sweep.Evict, Begin, Sorted, Sweep.Distinct, IsSafeRenditionId;
  }

  lemma HoldersAfter(pc: map<Tid, Pc>, t: Tid, next: Pc)
    requires t in pc
    ensures |SlotHolders(pc[t := next])| + (if HoldsSlot(pc[t]) then 1 else 0) ==
            |SlotHolders(pc)| + (if HoldsSlot(next) then 1 else 0)
  {
    hide HoldsSlot;
    var rest := SlotHolders(pc) - {t};
    assert SlotHolders(pc) == if HoldsSlot(pc[t]) then rest + {t} else rest;
    assert SlotHolders(pc[t := next]) == if HoldsSlot(next) then rest + {t} else rest;
  }

  lemma SlotsStep(c: Config, s: State, t: Tid, step: Step)
    requires SlotsConserved(c, s) && Next(c, s, t, step).Some?
    ensures SlotsConserved(c, Next(c, s, t, step).value)
  {
    hide Local, HoldsSlot, SlotHolders;
    SlotStep(c, s.sh, t, s.pc[t], step);
    HoldersAfter(s.pc, t, Local(c, s.sh, t, s.pc[t], step).value.pc);
  }

  lemma InvStep(c: Config, s: State, t: Tid, step: Step)
    requires Inv(c, s) && Next(c, s, t, step).Some?
    ensures Inv(c, Next(c, s, t, step).value)
  {
    hide Next, Named, LocksAgree, RegistryAgrees, SlotsConserved;
    NamedStep(c, s, t, step);
    LocksStep(c, s, t, step);
    RegistryAgreesStep(c, s, t, step);
    SlotsStep(c, s, t, step);
  }

  /** The invariant holds after every run, whatever the configuration and the interleaving. */
  lemma {:induction false} InvAlways(c: Config, start: State, run: seq<Act>)
    requires Init(c, start) && Exec(c, start, run).Some?
    ensures Inv(c, Exec(c, start, run).value)
  {
    hide Inv, Next, Init;
    if run == [] {
      InitInv(c, start);
    } else {
      var n := |run| - 1;
      InvAlways(c, start, run[..n]);
      InvStep(c, Exec(c, start, run[..n]).value, run[n].t, run[n].step);
    }
  }

  // ---------- what follows in every reachable state ----------

  /** No thread tries a mutex that it has locked itself, which for `std::mutex` would be undefined. */
  lemma NeverTriesOwnMutex(c: Config, start: State, run: seq<Act>, t: Tid)
    requires Init(c, start) && Exec(c, start, run).Some?
    requires var s := Exec(c, start, run).value; t in s.pc && s.pc[t].Fetched?
    ensures var s := Exec(c, start, run).value; s.pc[t].h !in Holds(s.pc[t])
  {
    hide Init, Exec, Sweep.Valid;
    InvAlways(c, start, run);
    var s := Exec(c, start, run).value;
    assert PcOk(c, s.pc[t], s.sh.nextSerial);
  }

  /** Free slots and slot holders add up, and when every call has returned nothing is left taken. */
  lemma NothingLeaks(c: Config, start: State, run: seq<Act>)
    requires Init(c, start) && Exec(c, start, run).Some?
    ensures var s := Exec(c, start, run).value;
            s.sh.freeSlots + |SlotHolders(s.pc)| == ClampedSlots(c.configuredSlots)
    ensures var s := Exec(c, start, run).value;
            (forall t :: t in s.pc ==> AtRest(s.pc[t])) ==>
              s.sh.freeSlots == ClampedSlots(c.configuredSlots) && s.sh.owner == map[] && s.sh.registryLock == None
  {
    hide Init, Exec;
    InvAlways(c, start, run);
    var s := Exec(c, start, run).value;
    if forall t :: t in s.pc ==> AtRest(s.pc[t]) {
      assert SlotHolders(s.pc) == {};
      assert forall t :: t in s.pc ==> Holds(s.pc[t]) == {};
      assert s.sh.owner.Keys == {};
    }
  }

  ghost predicate Enabled(c: Config, s: State, t: Tid) {
    Next(c, s, t, Go(true)).Some? || Next(c, s, t, List({}, [])).Some?
  }

  /** A thread in a call can take its next step, or waits for the registry while its holder can. */
  lemma NeverDeadlocked(c: Config, start: State, run: seq<Act>, t: Tid)
    requires Init(c, start) && Exec(c, start, run).Some?
    requires var s := Exec(c, start, run).value; t in s.pc && !AtRest(s.pc[t])
    ensures var s := Exec(c, start, run).value;
            Enabled(c, s, t) || (s.sh.registryLock.Some? && Enabled(c, s, s.sh.registryLock.value))
  {
    hide Init, Exec, Sweep.Valid, Sweep.Spare, Sweep.Evict, Sweep.Finished, Named, LocksAgree, SlotsConserved;
    InvAlways(c, start, run);
    var s := Exec(c, start, run).value;
    assert RegistryAgrees(s);
    if s.pc[t].Listing? {
      assert AbandonedParts(s.sh, {});
      assert Begin(KeepOf(s.pc[t].home), c.cap, []).Distinct();
    }
  }

  // ---------- every call ends ----------

  function StageRank(stage: Stage): nat {
    match stage
    case Recheck => 17
    case Source => 16
    case Slot => 15
    case ClearPart => 14
    case MakePart => 13
    case Transcoding => 12
    case Inspect => 11
    case ClearDir => 10
    case Publish => 9
    case CleanUp => 8
  }

  /** The phase of a call; a sweep is one phase, in which `Progress` counts. */
  function Phase(pc: Pc): nat {
    match pc
    case Probe(_) => 20
    case Lookup(p, inside) => if p.ForSweep? then 6 else if inside then 18 else 19
    case Fetched(p, _) => if p.ForSweep? then 6 else 18
    case Building(stage, _, _) => StageRank(stage)
    case Listing(_) => 7
    case Sweeping(_, _) => 6
    case Evicting(_, _, _) => 6
    case Forgetting(_, _, _, _) => 6
    case Dropping(_, _, _) => 6
    case GiveBack(_, _, _) => 5
    case Unlock(_, _, _) => 4
    case _ => 0
  }

  function Left(sweep: Sweep): nat {
    if |sweep.fates| < |sweep.entries| then |sweep.entries| - |sweep.fates| else 0
  }

  function Progress(pc: Pc): nat {
    match pc
    case Lookup(p, inside) => if p.ForSweep? then 10 * Left(p.sweep) + (if inside then 8 else 9) else 1
    case Fetched(p, _) => if p.ForSweep? then 10 * Left(p.sweep) + 7 else 0
    case Sweeping(_, sweep) => 10 * Left(sweep) + 10
    case Evicting(_, sweep, _) => 10 * Left(sweep) + 6
    case Forgetting(_, sweep, _, inside) => 10 * Left(sweep) + (if inside then 14 else 15)
    case Dropping(_, sweep, _) => 10 * Left(sweep) + 13
    case _ => 0
  }

  /**
   Every step a thread takes for itself moves its call to a later phase, or on within its sweep. So no
   call waits for another call's transcode, and none can go on for ever.
   */
  lemma OwnStepsEnd(c: Config, sh: Shared, t: Tid, pc: Pc, step: Step)
    requires PcOk(c, pc, sh.nextSerial) && (step.Go? || step.List?) && Local(c, sh, t, pc, step).Some?
    ensures var next := Local(c, sh, t, pc, step).value.pc;
            Phase(next) < Phase(pc) || (Phase(next) == Phase(pc) && Progress(next) < Progress(pc))
  {
    hide Sweep.Valid, Begin, Sorted, Sweep.Distinct;
  }

  // ---------- what a call answers ----------

  /** What the call has settled on; a build that sweeps has succeeded already. */
  function OutcomeOf(pc: Pc): Option<Outcome> {
    match pc
    case GiveBack(_, _, outcome) => Some(outcome)
    case Unlock(_, _, outcome) => Some(outcome)
    case Done(outcome) => Some(outcome)
    case Listing(home) => if home.Builder? then Some(Served) else None
    case Sweeping(home, _) => if home.Builder? then Some(Served) else None
    case _ => None
  }

  predicate WaitsOrBuilds(pc: Pc) {
    pc.Probe? || (pc.Lookup? && pc.purpose.ForBuild?) || (pc.Fetched? && pc.purpose.ForBuild?) || pc.Building?
  }

  /** Where a call meets a mutex that another holds, or finds no slot, or is refused a free one of either. */
  predicate MeetsBusy(sh: Shared, pc: Pc, yes: bool) {
    (pc.Fetched? && (pc.h in sh.owner || !yes)) || (pc.Building? && pc.stage == Slot && (sh.freeSlots == 0 || !yes))
  }

  predicate MeetsFailure(pc: Pc, yes: bool) {
    pc.Building? && (pc.stage == CleanUp || (!yes && (pc.stage == Source || pc.stage == MakePart)))
  }

  predicate MeetsSuccess(sh: Shared, pc: Pc, yes: bool) {
    || (pc.Probe? && CompleteIn(sh.dirs, pc.id))
    || (pc.Building? && pc.stage == Recheck && CompleteIn(sh.dirs, pc.id))
    || (pc.Building? && pc.stage == Publish && yes && pc.id != ROOT && pc.id in sh.parts && !CompleteIn(sh.dirs, pc.id))
  }

  /**
   A build settles on busy, failed or served in exactly these situations. In particular it fails only over
   a missing source, a work directory that cannot be made, or after the clean-up.
   */
  lemma AnswersExactly(c: Config, sh: Shared, t: Tid, pc: Pc, yes: bool)
    requires WaitsOrBuilds(pc) && Advance(c, sh, t, pc, yes).Some?
    ensures var answer := OutcomeOf(Advance(c, sh, t, pc, yes).value.pc);
            && (answer == Some(Busy) <==> MeetsBusy(sh, pc, yes))
            && (answer == Some(Failed) <==> MeetsFailure(pc, yes))
            && (answer == Some(Served) <==> MeetsSuccess(sh, pc, yes))
  {
    hide Sweep.Valid, SweepOn, EvictEntry;
  }

  /** The two deletions of a work directory leave none when they work, so a transcode starts in a fresh one. */
  lemma WorkDirectoryCleared(c: Config, sh: Shared, stage: Stage, id: Id, h: Handle)
    requires stage == ClearPart || stage == CleanUp
    ensures id !in Build(c, sh, stage, id, h, true).sh.parts
    ensures stage == ClearPart ==>
              var ready := Build(c, Build(c, sh, stage, id, h, true).sh, MakePart, id, h, true);
              ready.pc == Building(Transcoding, id, h) && ready.sh.parts[id] == Part(false, sh.now)
  {}

  /** Only ffmpeg's success leads on to publishing; its failure, or an incomplete playlist, to the clean-up. */
  lemma TranscodeDecides(c: Config, sh: Shared, id: Id, h: Handle, yes: bool)
    ensures var next := Build(c, sh, Transcoding, id, h, yes).pc;
            && (next == Building(Inspect, id, h) <==> yes) && (next == Building(CleanUp, id, h) <==> !yes)
    ensures var next := Build(c, sh, Inspect, id, h, yes).pc;
            && (next == Building(ClearDir, id, h) <==> id in sh.parts && sh.parts[id].complete)
            && (next == Building(CleanUp, id, h) <==> !(id in sh.parts && sh.parts[id].complete))
  {}
}
