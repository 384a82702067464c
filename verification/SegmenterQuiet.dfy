/**
 What the segmenter promises by configuration and use, on the side where it keeps its promises. The window
 between fetching a mutex and trying it is dangerous only where a sweep can evict what another call builds.
 */
module SegmenterQuiet {
  import opened Wrappers
  import opened Eviction
  import opened Segmenter
  import opened SegmenterSafety
  import opened SegmenterUsage
  import opened SegmenterExclusion

  /** A sweep can come between a call and the mutex of its rendition: an operator's, or one behind another build. */
  ghost predicate Races(u: Usage) {
    || (u.sweeps && exists x :: IsRendition(u, x))
    || (exists x, y :: x != y && IsRendition(u, x) && IsRendition(u, y))
  }

  /** The rendition that a call is building, until it returns. */
  function BuildOf(pc: Pc): Option<Id> {
    match pc
    case Lookup(p, _) => if p.ForSweep? then HomeBuild(p.home) else None
    case Fetched(p, _) => if p.ForSweep? then HomeBuild(p.home) else None
    case Building(_, id, _) => Some(id)
    case Listing(home) => HomeBuild(home)
    case Sweeping(home, _) => HomeBuild(home)
    case Evicting(home, _, _) => HomeBuild(home)
    case Forgetting(home, _, _, _) => HomeBuild(home)
    case Dropping(home, _, _) => HomeBuild(home)
    case GiveBack(id, _, _) => Some(id)
    case Unlock(id, _, _) => Some(id)
    case _ => None
  }

  function HomeBuild(home: Home): Option<Id> {
    if home.Builder? then Some(home.id) else None
  }

  /** While a call builds a rendition, no other thread builds or evicts it. */
  ghost predicate BuildsAlone(s: State) {
    forall t, u, id ::
      t in s.pc && u in s.pc && id != ROOT && BuildOf(s.pc[t]) == Some(id) && Critical(s.pc[u], id) ==> t == u
  }

  /** The step leaves no rendition with an incomplete directory that it did not have before. */
  ghost predicate AddsNoTruncated(before: Shared, after: Shared) {
    forall id :: id in after.dirs && !after.dirs[id].complete ==> id in before.dirs && !before.dirs[id].complete
  }

  /**
   The step of a thread at `pc` changes only what the thread guards, and loses complete directories by eviction
   alone.
   */
  ghost predicate Orderly(before: Shared, after: Shared, pc: Pc) {
    && (forall id :: Critical(pc, id) || SameOn(before, after, id))
    && (forall id :: CompleteIn(before.dirs, id) ==> CompleteIn(after.dirs, id) || (pc.Evicting? && pc.h.id == id))
  }

  // ---------- whose runs ----------

  /** In every run whatsoever at most one thread at a time guards a rendition. */
  ghost predicate AlwaysExcludes(c: Config) {
    forall start, run :: Init(c, start) && Exec(c, start, run).Some? ==> MutualExclusion(Exec(c, start, run).value)
  }

  ghost predicate AlwaysBuildsAlone(c: Config, u: Usage) {
    forall start, run :: Init(c, start) && Within(u, run) && Exec(c, start, run).Some? ==>
      BuildsAlone(Exec(c, start, run).value)
  }

  ghost predicate AlwaysPublishesComplete(c: Config, u: Usage) {
    forall start, run, t, step ::
      Init(c, start) && Within(u, run) && Allowed(u, step) && Exec(c, start, run).Some?
      && Next(c, Exec(c, start, run).value, t, step).Some? ==>
        AddsNoTruncated(Exec(c, start, run).value.sh, Next(c, Exec(c, start, run).value, t, step).value.sh)
  }

  ghost predicate AlwaysOrderly(c: Config, u: Usage) {
    forall start, run, t, step ::
      Init(c, start) && Within(u, run) && Allowed(u, step) && Exec(c, start, run).Some?
      && Next(c, Exec(c, start, run).value, t, step).Some? ==>
        var s := Exec(c, start, run).value;
        Orderly(s.sh, Next(c, s, t, step).value.sh, s.pc[t])
  }

  // ---------- no erasure in a window ----------

  lemma NoCapNoErasure(c: Config, s: State, t: Tid, step: Step)
    requires Inv(c, s) && c.cap == 0
    ensures WindowSafe(s, t, step)
  {
    hide LocksAgree, RegistryAgrees, SlotsConserved, Sweep.Valid;
    if t in s.pc {
      assert PcOk(c, s.pc[t], s.sh.nextSerial);
    }
  }

  lemma NoCapWindowSafe(c: Config, start: State, run: seq<Act>)
    requires Init(c, start) && c.cap == 0
    ensures WindowSafeRun(c, start, run)
  {
    hide Init, Exec, Inv, WindowSafe;
    forall k | 0 <= k < |run| && Exec(c, start, run[..k]).Some?
      ensures WindowSafe(Exec(c, start, run[..k]).value, run[k].t, run[k].step)
    {
      InvAlways(c, start, run[..k]);
      NoCapNoErasure(c, Exec(c, start, run[..k]).value, run[k].t, run[k].step);
    }
  }

  /** Only builds sweep, and all of them build one rendition. */
  ghost predicate OneBuilder(u: Usage) {
    !u.sweeps && forall x, y :: IsRendition(u, x) && IsRendition(u, y) ==> x == y
  }

  /** A thread that erases a mutex sweeps behind a build, and what it erases is no rendition that is asked for. */
  lemma ErasesStranger(c: Config, u: Usage, s: State, t: Tid)
    requires Inv(c, s) && AllInUse(u, s) && OneBuilder(u) && t in s.pc && s.pc[t].Forgetting?
    ensures var pc := s.pc[t];
            pc.home.Builder? && IsRendition(u, pc.home.id) && Critical(pc, pc.home.id) && !Usable(u, pc.h.id)
  {
    hide LocksAgree, RegistryAgrees, SlotsConserved, Sweep.Valid, IsSafeRenditionId;
    var pc := s.pc[t];
    assert PcOk(c, pc, s.sh.nextSerial) && InUse(u, pc);
    assert pc.home.h in Guards(pc);
    assert pc.h.id != pc.home.id && pc.h.id != ROOT;
    assert !IsRendition(u, pc.h.id);
  }

  lemma FetchesForBuilder(c: Config, u: Usage, s: State, v: Tid)
    requires Inv(c, s) && AllInUse(u, s) && OneBuilder(u) && v in s.pc && s.pc[v].Fetched? && !Usable(u, s.pc[v].h.id)
    ensures var p := s.pc[v].purpose;
            p.ForSweep? && p.home.Builder? && IsRendition(u, p.home.id) && Critical(s.pc[v], p.home.id)
  {
    hide LocksAgree, RegistryAgrees, SlotsConserved, Sweep.Valid, IsSafeRenditionId;
    var pc := s.pc[v];
    assert PcOk(c, pc, s.sh.nextSerial) && InUse(u, pc);
    assert pc.purpose.ForSweep? && pc.purpose.home.Builder?;
    assert pc.purpose.home.h in Guards(pc);
  }

  /** So two threads that meet at a mutex would both guard the one rendition that is built. */
  lemma OneBuilderNoErasure(c: Config, u: Usage, s: State, t: Tid, step: Step)
    requires Inv(c, s) && AllInUse(u, s) && OneBuilder(u) && MutualExclusion(s)
    ensures WindowSafe(s, t, step)
  {
    hide Inv, AllInUse, Usable, Critical;
    if t in s.pc && s.pc[t].Forgetting? {
      ErasesStranger(c, u, s, t);
      forall v | v in s.pc && s.pc[v].Fetched? ensures s.pc[v].h.id != s.pc[t].h.id {
        if s.pc[v].h.id == s.pc[t].h.id {
          FetchesForBuilder(c, u, s, v);
        }
      }
    }
  }

  lemma {:induction false} OneBuilderWindowSafe(c: Config, u: Usage, start: State, run: seq<Act>)
    requires Init(c, start) && Exec(c, start, run).Some? && Within(u, run) && OneBuilder(u)
    ensures WindowSafeRun(c, start, run)
  {
    hide Init, Next, Exclusive, MutualExclusion, AllInUse, WindowSafe, Allowed, OneBuilder, Inv;
    if run != [] {
      var n := |run| - 1;
      WithinPrefix(u, run, n);
      OneBuilderWindowSafe(c, u, start, run[..n]);
      var s := Exec(c, start, run[..n]).value;
      ExclusiveAlways(c, start, run[..n]);
      ExclusiveExcludes(c, s);
      InvAlways(c, start, run[..n]);
      InUseAlways(c, u, start, run[..n]);
      OneBuilderNoErasure(c, u, s, run[n].t, run[n].step);
      forall k | 0 <= k < |run| && Exec(c, start, run[..k]).Some?
        ensures WindowSafe(Exec(c, start, run[..k]).value, run[k].t, run[k].step)
      {
        if k < n {
          assert run[..n][..k] == run[..k] && run[..n][k] == run[k];
        }
      }
    }
  }

  // ---------- without races ----------

  ghost predicate NoRenditions(u: Usage) {
    forall x :: !IsRendition(u, x)
  }

  lemma WithoutRaces(c: Config, u: Usage, start: State, run: seq<Act>)
    requires Init(c, start) && Exec(c, start, run).Some? && Within(u, run) && (c.cap == 0 || !Races(u))
    ensures NoRenditions(u) || WindowSafeRun(c, start, run)
  {
    hide Init, Exec, WindowSafeRun, Within, IsRendition;
    if c.cap == 0 {
      NoCapWindowSafe(c, start, run);
    } else if !NoRenditions(u) {
      OneBuilderWindowSafe(c, u, start, run);
    }
  }

  lemma BuilderIsCritical(c: Config, pc: Pc, serials: nat)
    requires PcOk(c, pc, serials) && BuildOf(pc).Some?
    ensures Critical(pc, BuildOf(pc).value)
  {
    hide Sweep.Valid, Sweep.Finished;
    var h := match pc
      case Lookup(p, _) => p.home.h
      case Fetched(p, _) => p.home.h
      case Building(_, _, h) => h
      case Listing(home) => home.h
      case Sweeping(home, _) => home.h
      case Evicting(home, _, _) => home.h
      case Forgetting(home, _, _, _) => home.h
      case Dropping(home, _, _) => home.h
      case GiveBack(_, h, _) => h
      case Unlock(_, h, _) => h;
    assert h in Guards(pc);
  }

  lemma BuilderIsUsable(u: Usage, pc: Pc)
    requires InUse(u, pc) && BuildOf(pc).Some?
    ensures Usable(u, BuildOf(pc).value)
  {
    hide IsSafeRenditionId;
  }

  lemma ExcludesBuildsAlone(c: Config, s: State)
    requires Inv(c, s) && MutualExclusion(s)
    ensures BuildsAlone(s)
  {
    hide BuildOf, Critical, PcOk, LocksAgree, RegistryAgrees, SlotsConserved;
    forall t, u, id | t in s.pc && u in s.pc && id != ROOT && BuildOf(s.pc[t]) == Some(id) && Critical(s.pc[u], id)
      ensures t == u
    {
      BuilderIsCritical(c, s.pc[t], s.sh.nextSerial);
    }
  }

  lemma NobodyBuilds(u: Usage, s: State)
    requires AllInUse(u, s) && NoRenditions(u)
    ensures BuildsAlone(s)
    ensures forall t :: t in s.pc && s.pc[t].Building? ==> s.pc[t].id == ROOT
  {
    hide InUse, BuildOf, Usable;
    forall t | t in s.pc && BuildOf(s.pc[t]).Some? ensures BuildOf(s.pc[t]).value == ROOT {
      BuilderIsUsable(u, s.pc[t]);
      assert !IsRendition(u, BuildOf(s.pc[t]).value);
    }
    BuildingBuilds();
  }

  lemma BuildingBuilds()
    ensures forall pc: Pc :: pc.Building? ==> BuildOf(pc) == Some(pc.id)
  {}

  lemma QuietBuildsAlone(c: Config, u: Usage)
    requires c.cap == 0 || !Races(u)
    ensures AlwaysBuildsAlone(c, u)
  {
    hide Init, Exec, Within, Races, WindowSafeRun, MutualExclusion, BuildsAlone, NoRenditions, Exclusive, AllInUse,
      Inv;
    forall start, run | Init(c, start) && Within(u, run) && Exec(c, start, run).Some?
      ensures BuildsAlone(Exec(c, start, run).value)
    {
      WithoutRaces(c, u, start, run);
      if NoRenditions(u) {
        InUseAlways(c, u, start, run);
        NobodyBuilds(u, Exec(c, start, run).value);
      } else {
        WindowSafeRunsExclude(c, start, run);
        InvAlways(c, start, run);
        ExcludesBuildsAlone(c, Exec(c, start, run).value);
      }
    }
  }

  lemma NoCapExcludes(c: Config)
    requires c.cap == 0
    ensures AlwaysExcludes(c)
  {
    hide Init, Exec, WindowSafeRun, MutualExclusion;
    forall start, run | Init(c, start) && Exec(c, start, run).Some?
      ensures MutualExclusion(Exec(c, start, run).value)
    {
      NoCapWindowSafe(c, start, run);
      WindowSafeRunsExclude(c, start, run);
    }
  }

  /** What the moving thread knows in every reachable state without races. */
  lemma QuietKnows(c: Config, u: Usage, start: State, run: seq<Act>, t: Tid)
    requires Init(c, start) && Exec(c, start, run).Some? && Within(u, run) && (c.cap == 0 || !Races(u))
    requires t in Exec(c, start, run).value.pc
    ensures var s := Exec(c, start, run).value;
            var pc := s.pc[t];
            BuildsRoot(pc) || Knows(s.sh, pc)
    ensures Inv(c, Exec(c, start, run).value) && AllInUse(u, Exec(c, start, run).value)
  {
    hide Init, Exec, Within, Races, WindowSafeRun, NoRenditions, AllInUse, Inv, Registered;
    var s := Exec(c, start, run).value;
    WithoutRaces(c, u, start, run);
    InUseAlways(c, u, start, run);
    InvAlways(c, start, run);
    if NoRenditions(u) {
      NobodyBuilds(u, s);
    } else {
      ExclusiveAlways(c, start, run);
      assert AllKnow(s);
    }
  }

  lemma QuietPublishesComplete(c: Config, u: Usage)
    requires c.cap == 0 || !Races(u)
    ensures AlwaysPublishesComplete(c, u)
  {
    hide Init, Exec, Within, Races, Local, AllInUse, Inv, AddsNoTruncated, Allowed;
    forall start, run, t, step | Init(c, start) && Within(u, run) && Allowed(u, step) && Exec(c, start, run).Some?
                                 && Next(c, Exec(c, start, run).value, t, step).Some?
      ensures AddsNoTruncated(Exec(c, start, run).value.sh, Next(c, Exec(c, start, run).value, t, step).value.sh)
    {
      var s := Exec(c, start, run).value;
      QuietKnows(c, u, start, run, t);
      CheckedAddsNoTruncated(c, s.sh, t, s.pc[t], step);
    }
  }

  /** The thread has checked the work directory that it is about to publish. */
  predicate Checked(sh: Shared, pc: Pc) {
    pc.Building? && (pc.stage == ClearDir || pc.stage == Publish) ==>
      pc.id in sh.parts ==> sh.parts[pc.id].complete
  }

  lemma CheckedAddsNoTruncated(c: Config, sh: Shared, t: Tid, pc: Pc, step: Step)
    requires Local(c, sh, t, pc, step).Some? && (BuildsRoot(pc) || Checked(sh, pc))
    ensures AddsNoTruncated(sh, Local(c, sh, t, pc, step).value.sh)
  {
    hide Local;
    var after := Local(c, sh, t, pc, step).value.sh;
    forall id | id in after.dirs && !after.dirs[id].complete ensures id in sh.dirs && !sh.dirs[id].complete {
      LeavesIncomplete(c, sh, t, pc, step, id);
    }
  }

  lemma OrderlyStep(c: Config, s: State, t: Tid, step: Step)
    requires Inv(c, s) && Next(c, s, t, step).Some? && !BuildsRoot(s.pc[t]) && Knows(s.sh, s.pc[t])
    ensures Orderly(s.sh, Next(c, s, t, step).value.sh, s.pc[t])
  {
    hide Local, Knows, Critical, SameOn, CompleteIn, BuildsRoot, PcOk, LocksAgree, RegistryAgrees, SlotsConserved;
    var after := Next(c, s, t, step).value.sh;
    forall id | !Critical(s.pc[t], id) ensures SameOn(s.sh, after, id) {
      ChangesOnlyGuarded(c, s.sh, t, s.pc[t], step, id);
    }
    forall id | CompleteIn(s.sh.dirs, id)
      ensures CompleteIn(after.dirs, id) || (s.pc[t].Evicting? && s.pc[t].h.id == id)
    {
      StaysUntilEvicted(c, s.sh, t, s.pc[t], step, id);
    }
  }

  lemma QuietOrderly(c: Config, u: Usage)
    requires (c.cap == 0 || !Races(u)) && ROOT !in u.ids
    ensures AlwaysOrderly(c, u)
  {
    hide Init, Exec, Within, Races, Local, AllInUse, Inv, Orderly, Allowed, Knows, BuildsRoot;
    forall start, run, t, step | Init(c, start) && Within(u, run) && Allowed(u, step) && Exec(c, start, run).Some?
                                 && Next(c, Exec(c, start, run).value, t, step).Some?
      ensures var s := Exec(c, start, run).value;
              Orderly(s.sh, Next(c, s, t, step).value.sh, s.pc[t])
    {
      var s := Exec(c, start, run).value;
      QuietKnows(c, u, start, run, t);
      NoRootBuild(c, u, s, t, step);
      OrderlyStep(c, s, t, step);
    }
  }
}
