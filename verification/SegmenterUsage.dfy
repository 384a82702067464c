/** What the threads of a run have in hand when callers ask for certain renditions only. */
module SegmenterUsage {
  import opened Sorting
  import opened Eviction
  import opened Segmenter
  import opened SegmenterSafety

  predicate HomeInUse(u: Usage, home: Home) {
    match home
    case Operator(_) => u.sweeps
    case Builder(id, _) => IsRendition(u, id)
  }

  predicate PurposeInUse(u: Usage, p: Purpose) {
    match p
    case ForBuild(id) => Usable(u, id)
    case ForSweep(home, sweep) => HomeInUse(u, home) && WithoutRoot(sweep.entries)
  }

  /** A thread builds only what callers may ask for, and sweeps only if they may or behind a publish. */
  predicate InUse(u: Usage, pc: Pc) {
    match pc
    case Probe(id) => Usable(u, id)
    case Lookup(p, _) => PurposeInUse(u, p)
    case Fetched(p, _) => PurposeInUse(u, p)
    case Building(_, id, _) => Usable(u, id)
    case Listing(home) => HomeInUse(u, home)
    case Sweeping(home, sweep) => HomeInUse(u, home) && WithoutRoot(sweep.entries)
    case Evicting(home, sweep, h) => HomeInUse(u, home) && WithoutRoot(sweep.entries) && h.id != ROOT
    case Forgetting(home, sweep, h, _) => HomeInUse(u, home) && WithoutRoot(sweep.entries) && h.id != ROOT
    case Dropping(home, sweep, _) => HomeInUse(u, home) && WithoutRoot(sweep.entries)
    case GiveBack(id, _, _) => Usable(u, id)
    case Unlock(id, _, _) => Usable(u, id)
    case _ => true
  }

  ghost predicate AllInUse(u: Usage, s: State) {
    forall t :: t in s.pc ==> InUse(u, s.pc[t])
  }

  lemma BuildInUse(c: Config, u: Usage, sh: Shared, stage: Stage, id: Id, h: Handle, yes: bool)
    requires Usable(u, id)
    ensures InUse(u, Build(c, sh, stage, id, h, yes).pc)
  {
    hide IsSafeRenditionId;
  }

  lemma AdvanceInUse(c: Config, u: Usage, sh: Shared, t: Tid, pc: Pc, yes: bool)
    requires PcOk(c, pc, sh.nextSerial) && InUse(u, pc) && Advance(c, sh, t, pc, yes).Some?
    ensures InUse(u, Advance(c, sh, t, pc, yes).value.pc)
  {
    hide Sweep.Valid, IsSafeRenditionId, Build;
    match pc
    case Building(stage, id, h) => BuildInUse(c, u, sh, stage, id, h, yes);
    case Fetched(p, h) =>
      if p.ForSweep? { assert p.sweep.Current() in p.sweep.entries; }
    case _ =>
  }

  lemma LocalInUse(c: Config, u: Usage, sh: Shared, t: Tid, pc: Pc, step: Step)
    requires PcOk(c, pc, sh.nextSerial) && InUse(u, pc) && Allowed(u, step) && Local(c, sh, t, pc, step).Some?
    ensures InUse(u, Local(c, sh, t, pc, step).value.pc)
  {
    hide Sweep.Valid, IsSafeRenditionId, Advance, Sorted, Sweep.Distinct;
    if step.Go? {
      AdvanceInUse(c, u, sh, t, pc, step.yes);
    }
  }

  lemma InUseStep(c: Config, u: Usage, s: State, t: Tid, step: Step)
    requires Inv(c, s) && AllInUse(u, s) && Allowed(u, step) && Next(c, s, t, step).Some?
    ensures AllInUse(u, Next(c, s, t, step).value)
  {
    hide Local, InUse, Allowed, LocksAgree, RegistryAgrees, SlotsConserved, PcOk;
    LocalInUse(c, u, s.sh, t, s.pc[t], step);
  }

  lemma {:induction false} InUseAlways(c: Config, u: Usage, start: State, run: seq<Act>)
    requires Init(c, start) && Exec(c, start, run).Some? && Within(u, run)
    ensures AllInUse(u, Exec(c, start, run).value)
  {
    hide Inv, Next, InUse, Allowed;
    if run == [] {
      AtRestInUse(u, start);
    } else {
      var n := |run| - 1;
      WithinPrefix(u, run, n);
      InUseAlways(c, u, start, run[..n]);
      InvAlways(c, start, run[..n]);
      InUseStep(c, u, Exec(c, start, run[..n]).value, run[n].t, run[n].step);
    }
  }

  lemma AtRestInUse(u: Usage, s: State)
    requires forall t :: t in s.pc ==> s.pc[t] == Idle
    ensures AllInUse(u, s)
  {}

  lemma WithinPrefix(u: Usage, run: seq<Act>, n: nat)
    requires Within(u, run) && n <= |run|
    ensures Within(u, run[..n])
  {
    hide Allowed;
    forall k | 0 <= k < n ensures Allowed(u, run[..n][k].step) {
      assert run[..n][k] == run[k];
    }
  }
}
