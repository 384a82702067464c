/** The way of one build through its stages, in every run: what came before, in the same call. */
module SegmenterPaths {
  import opened Wrappers
  import opened Sorting
  import opened Eviction
  import opened Segmenter
  import opened SegmenterSafety
  import opened SegmenterExclusion

  /** The stages of a build that goes well, in order. */
  const WAY: seq<Stage> := [Recheck, Source, Slot, ClearPart, MakePart, Transcoding, Inspect, ClearDir, Publish]

  /** What lets a build go on from a stage to the next on its way. */
  predicate Passed(sh: Shared, stage: Stage, id: Id, yes: bool) {
    match stage
    case Recheck => !CompleteIn(sh.dirs, id)
    case Slot => sh.freeSlots > 0 && yes
    case Source => yes
    case MakePart => yes
    case Transcoding => yes
    case Inspect => id in sh.parts && sh.parts[id].complete
    case _ => true
  }

  ghost function PcAt(c: Config, start: State, run: seq<Act>, t: Tid): Option<Pc> {
    var s := Exec(c, start, run);
    if s.Some? && t in s.value.pc then Some(s.value.pc[t]) else None
  }

  /** Act number `i` of the run is the step with which thread `t` passes a stage of its build. */
  ghost predicate Passes(c: Config, start: State, run: seq<Act>, i: nat, t: Tid, stage: Stage, id: Id, h: Handle) {
    && i < |run| && run[i].t == t && run[i].step.Go?
    && PcAt(c, start, run[..i], t) == Some(Building(stage, id, h))
    && Passed(Exec(c, start, run[..i]).value.sh, stage, id, run[i].step.yes)
  }

  /** From behind act `from` up to act `to` the thread stays where it is. */
  ghost predicate Stays(c: Config, start: State, run: seq<Act>, from: nat, to: nat, t: Tid, pc: Pc) {
    to <= |run| && forall m :: from < m <= to ==> PcAt(c, start, run[..m], t) == Some(pc)
  }

  // ---------- the step in front of a stage ----------

  lemma BuildLeadsOn(c: Config, sh: Shared, stage: Stage, id: Id, h: Handle, yes: bool, n: nat)
    requires 0 < n < |WAY| && Build(c, sh, stage, id, h, yes).pc == Building(WAY[n], id, h)
    ensures stage == WAY[n - 1] && Passed(sh, stage, id, yes)
  {
    TranscodeDecides(c, sh, id, h, yes);
  }

  lemma BuildKeepsName(c: Config, sh: Shared, stage: Stage, id: Id, h: Handle, yes: bool)
    ensures var next := Build(c, sh, stage, id, h, yes).pc; next.Building? ==> next.id == id && next.h == h
  {}

  lemma StepLeadsOn(c: Config, sh: Shared, t: Tid, pc: Pc, step: Step, n: nat, id: Id, h: Handle)
    requires 0 < n < |WAY| && Local(c, sh, t, pc, step).Some?
             && Local(c, sh, t, pc, step).value.pc == Building(WAY[n], id, h)
    ensures pc == Building(WAY[n], id, h)
            || (step.Go? && pc == Building(WAY[n - 1], id, h) && Passed(sh, WAY[n - 1], id, step.yes))
  {
    hide Build, Passed, Sweep.Valid, Sweep.Finished, Sweep.Spare, Sweep.Evict, Begin, Sorted, Sweep.Distinct,
      IsSafeRenditionId, Sweep.Current;
    if step.Go? && pc.Building? {
      BuildKeepsName(c, sh, pc.stage, pc.id, pc.h, step.yes);
      BuildLeadsOn(c, sh, pc.stage, pc.id, pc.h, step.yes, n);
    }
  }

  lemma PrefixRuns(c: Config, start: State, run: seq<Act>, i: nat)
    requires Exec(c, start, run).Some? && i <= |run|
    ensures Exec(c, start, run[..i]).Some?
    decreases |run|
  {
    if i == |run| {
      assert run[..i] == run;
    } else {
      var n := |run| - 1;
      PrefixRuns(c, start, run[..n], i);
      assert run[..n][..i] == run[..i];
    }
  }

  lemma LastStep(c: Config, start: State, run: seq<Act>, t: Tid)
    requires run != [] && Exec(c, start, run).Some? && PcAt(c, start, run, t).Some?
    ensures var n := |run| - 1;
            var before := Exec(c, start, run[..n]);
            && before.Some? && PcAt(c, start, run[..n], t).Some?
            && (run[n].t != t ==> PcAt(c, start, run[..n], t) == PcAt(c, start, run, t))
            && (run[n].t == t ==>
                  var m := Local(c, before.value.sh, t, before.value.pc[t], run[n].step);
                  m.Some? && PcAt(c, start, run, t) == Some(m.value.pc))
  {
    hide Local;
  }

  /** A build at a stage got there from the stage in front of it, and has stayed since. */
  lemma {:induction false} CameFrom(c: Config, start: State, run: seq<Act>, t: Tid, n: nat, id: Id, h: Handle)
    returns (i: nat)
    requires Init(c, start) && 0 < n < |WAY| && PcAt(c, start, run, t) == Some(Building(WAY[n], id, h))
    ensures Passes(c, start, run, i, t, WAY[n - 1], id, h) && Stays(c, start, run, i, |run|, t, Building(WAY[n], id, h))
    decreases |run|
  {
    hide Exec, Local, Passed, PcAt;
    assert Exec(c, start, run).Some? by { Reached(c, start, run, t); }
    if run == [] {
      NotAtStart(c, start, t);
      assert false;
    }
    var last := |run| - 1;
    LastStep(c, start, run, t);
    Reached(c, start, run[..last], t);
    var before := Exec(c, start, run[..last]).value;
    if run[last].t == t {
      StepLeadsOn(c, before.sh, t, before.pc[t], run[last].step, n, id, h);
    }
    if PcAt(c, start, run[..last], t) == Some(Building(WAY[n], id, h)) {
      i := CameFrom(c, start, run[..last], t, n, id, h);
      assert run[..last][..i] == run[..i];
      forall m | i < m <= |run| ensures PcAt(c, start, run[..m], t) == Some(Building(WAY[n], id, h)) {
        if m == |run| { assert run[..m] == run; } else { assert run[..last][..m] == run[..m]; }
      }
    } else {
      i := last;
      assert run[..|run|] == run;
    }
  }

  lemma Reached(c: Config, start: State, run: seq<Act>, t: Tid)
    requires PcAt(c, start, run, t).Some?
    ensures Exec(c, start, run).Some? && t in Exec(c, start, run).value.pc
    ensures PcAt(c, start, run, t).value == Exec(c, start, run).value.pc[t]
  {}

  lemma NotAtStart(c: Config, start: State, t: Tid)
    requires Init(c, start)
    ensures PcAt(c, start, [], t) == None || PcAt(c, start, [], t) == Some(Idle)
  {}

  // ---------- the whole way ----------

  /** `at` are the acts with which the thread has passed the stages of its build, one after the other. */
  ghost predicate CameAllTheWay(c: Config, start: State, run: seq<Act>, at: seq<nat>, t: Tid, id: Id, h: Handle) {
    && |at| < |WAY|
    && (forall k :: 0 <= k < |at| - 1 ==> at[k] < at[k + 1])
    && (forall k :: 0 <= k < |at| ==> Passes(c, start, run, at[k], t, WAY[k], id, h))
    && (forall k :: 0 <= k < |at| ==>
          Stays(c, start, run, at[k], if k + 1 < |at| then at[k + 1] else |run|, t, Building(WAY[k + 1], id, h)))
  }

  lemma PassesInPrefix(c: Config, start: State, run: seq<Act>, n: nat, i: nat, t: Tid, stage: Stage, id: Id, h: Handle)
    requires n <= |run| && Passes(c, start, run[..n], i, t, stage, id, h)
    ensures Passes(c, start, run, i, t, stage, id, h)
  {
    hide PcAt, Exec, Passed;
    assert run[..n][..i] == run[..i];
  }

  lemma StaysInPrefix(c: Config, start: State, run: seq<Act>, n: nat, from: nat, to: nat, t: Tid, pc: Pc)
    requires n <= |run| && Stays(c, start, run[..n], from, to, t, pc)
    ensures Stays(c, start, run, from, to, t, pc)
  {
    hide PcAt;
    forall m | from < m <= to ensures PcAt(c, start, run[..m], t) == Some(pc) {
      assert run[..n][..m] == run[..m];
    }
  }

  /**
   Whatever the other threads do, a build at a stage has passed every stage in front of it: in order, in
   the same call, under the same mutex, with what each demands. A build that publishes has seen its source,
   held a slot, made a work directory, had ffmpeg succeed in it and found the playlist there complete.
   */
  lemma {:induction false} EveryStageWasPassed(c: Config, start: State, run: seq<Act>, t: Tid, n: nat, id: Id,
                          h: Handle)
    returns (at: seq<nat>)
    requires Init(c, start) && n < |WAY| && PcAt(c, start, run, t) == Some(Building(WAY[n], id, h))
    ensures |at| == n && CameAllTheWay(c, start, run, at, t, id, h)
    decreases n
  {
    hide Exec, PcAt, Passes, Stays, Init;
    if n == 0 {
      at := [];
    } else {
      var i := CameFrom(c, start, run, t, n, id, h);
      PassesHere(c, start, run, i, t, WAY[n - 1], id, h);
      var before := EveryStageWasPassed(c, start, run[..i], t, n - 1, id, h);
      at := before + [i];
      forall k | 0 <= k < |at| - 1 ensures Passes(c, start, run, at[k], t, WAY[k], id, h) {
        PassesInPrefix(c, start, run, i, before[k], t, WAY[k], id, h);
      }
      forall k | 0 <= k < |at| - 1
        ensures Stays(c, start, run, at[k], at[k + 1], t, Building(WAY[k + 1], id, h))
      {
        StaysInPrefix(c, start, run, i, at[k], at[k + 1], t, Building(WAY[k + 1], id, h));
      }
      forall k | 0 <= k < |at| - 1 ensures at[k] < at[k + 1] {
        PassesHere(c, start, run[..i], before[k], t, WAY[k], id, h);
      }
    }
  }

  lemma PassesHere(c: Config, start: State, run: seq<Act>, i: nat, t: Tid, stage: Stage, id: Id, h: Handle)
    requires Passes(c, start, run, i, t, stage, id, h)
    ensures i < |run| && run[i].t == t && run[i].step.Go? && PcAt(c, start, run[..i], t) == Some(Building(stage, id, h))
  {}

  /**
   Each publish follows, in the same call, its own ffmpeg's success and an inspection that found the playlist
   complete.
   */
  lemma PublishIsPrepared(c: Config, start: State, run: seq<Act>, t: Tid, id: Id, h: Handle)
    returns (ffmpeg: nat, inspection: nat)
    requires Init(c, start) && PcAt(c, start, run, t) == Some(Building(Publish, id, h))
    ensures ffmpeg < inspection < |run| && run[ffmpeg] == Act(t, Go(true)) && run[inspection].t == t
    ensures PcAt(c, start, run[..ffmpeg], t) == Some(Building(Transcoding, id, h))
    ensures PcAt(c, start, run[..inspection], t) == Some(Building(Inspect, id, h))
    ensures var parts := Exec(c, start, run[..inspection]).value.sh.parts; id in parts && parts[id].complete
    ensures forall m :: ffmpeg < m <= |run| ==>
              var pc := PcAt(c, start, run[..m], t);
              pc.Some? && pc.value.Building? && pc.value.id == id && pc.value.h == h
  {
    hide Exec, PcAt, Init;
    var at := EveryStageWasPassed(c, start, run, t, 8, id, h);
    ffmpeg, inspection := at[5], at[6];
    assert Passes(c, start, run, at[5], t, WAY[5], id, h) && Passes(c, start, run, at[6], t, WAY[6], id, h);
    assert Stays(c, start, run, at[5], at[6], t, Building(WAY[6], id, h));
    assert Stays(c, start, run, at[6], at[7], t, Building(WAY[7], id, h));
    assert Stays(c, start, run, at[7], |run|, t, Building(WAY[8], id, h));
  }

  // ---------- a cleared work directory ----------

  /** The thread takes no step of its own behind act `from`. */
  predicate Pauses(run: seq<Act>, from: nat, t: Tid) {
    forall m :: from < m < |run| && run[m].t == t ==> !run[m].step.Go?
  }

  /** Without its own steps a thread in a build leaves its place and its work directory alone, unless ffmpeg writes. */
  lemma PausedLocal(c: Config, sh: Shared, t: Tid, pc: Pc, step: Step, id: Id)
    requires !step.Go? && (pc.GiveBack? || (pc.Building? && pc.stage == MakePart)) && Local(c, sh, t, pc, step).Some?
    ensures var m := Local(c, sh, t, pc, step).value; m.pc == pc && m.sh.parts == sh.parts
  {
    hide Advance;
  }

  /** The thread has cleared the rendition's work directory and still guards it. */
  ghost predicate StaysCleared(s: State, t: Tid, id: Id) {
    && id !in s.sh.parts && t in s.pc && Critical(s.pc[t], id)
    && (s.pc[t].GiveBack? || (s.pc[t].Building? && s.pc[t].stage == MakePart))
  }

  lemma PausedStep(c: Config, s: State, t: Tid, step: Step, id: Id)
    requires StaysCleared(s, t, id) && Next(c, s, t, step).Some? && !step.Go?
    ensures StaysCleared(Next(c, s, t, step).value, t, id)
  {
    hide Local, Critical;
    PausedLocal(c, s.sh, t, s.pc[t], step, id);
  }

  lemma ClearingStep(c: Config, s: State, t: Tid, stage: Stage, id: Id, h: Handle)
    requires stage == ClearPart || stage == CleanUp
    requires Exclusive(c, s) && t in s.pc && s.pc[t] == Building(stage, id, h)
    ensures Next(c, s, t, Go(true)).Some? && StaysCleared(Next(c, s, t, Go(true)).value, t, id)
  {
    hide Exclusive;
    MadeForItsOwn(c, s, t);
    WorkDirectoryCleared(c, s.sh, stage, id, h);
    var m := Build(c, s.sh, stage, id, h, true);
    assert h in Guards(m.pc);
  }

  /**
   In a window-safe run, once a build has deleted its work directory no other thread makes one for its
   rendition until it goes on itself.
   */
  lemma {:induction false} ClearedStaysClear(c: Config, start: State, run: seq<Act>, i: nat, t: Tid, stage: Stage,
                          id: Id, h: Handle)
    requires Init(c, start) && Exec(c, start, run).Some? && WindowSafeRun(c, start, run)
    requires stage == ClearPart || stage == CleanUp
    requires i < |run| && run[i] == Act(t, Go(true)) && PcAt(c, start, run[..i], t) == Some(Building(stage, id, h))
    requires Pauses(run, i, t)
    ensures StaysCleared(Exec(c, start, run).value, t, id)
    decreases |run|
  {
    hide Exclusive, Local, WindowSafe, Init, Critical, MutualExclusion, StaysCleared;
    var n := |run| - 1;
    WindowSafePrefix(c, start, run, n);
    ExclusiveAlways(c, start, run[..n]);
    var s := Exec(c, start, run[..n]).value;
    if i == n {
      ClearingStep(c, s, t, stage, id, h);
    } else {
      assert run[..n][..i] == run[..i];
      assert Pauses(run[..n], i, t);
      ClearedStaysClear(c, start, run[..n], i, t, stage, id, h);
      if run[n].t == t {
        PausedStep(c, s, t, run[n].step, id);
      } else {
        OthersKeepClear(c, s, t, run[n].t, run[n].step, id);
      }
    }
  }

  // ---------- a deleted leftover ----------

  /** The thread has deleted the rendition's directory and still guards it. */
  ghost predicate StaysDeleted(s: State, t: Tid, id: Id) {
    id !in s.sh.dirs && t in s.pc && Critical(s.pc[t], id) && s.pc[t].Building? && s.pc[t].stage == Source
  }

  lemma DeletingStep(c: Config, s: State, t: Tid, id: Id, h: Handle)
    requires Exclusive(c, s) && t in s.pc && s.pc[t] == Building(Recheck, id, h) && !CompleteIn(s.sh.dirs, id)
    ensures Next(c, s, t, Go(true)).Some? && StaysDeleted(Next(c, s, t, Go(true)).value, t, id)
  {
    hide Exclusive;
    MadeForItsOwn(c, s, t);
    var m := Build(c, s.sh, Recheck, id, h, true);
    assert h in Guards(m.pc);
  }

  lemma PausedKeepsDeleted(c: Config, s: State, t: Tid, step: Step, id: Id)
    requires StaysDeleted(s, t, id) && Next(c, s, t, step).Some? && !step.Go?
    ensures StaysDeleted(Next(c, s, t, step).value, t, id)
  {
    hide Advance, Critical;
  }

  lemma OthersKeepDeleted(c: Config, s: State, t: Tid, u: Tid, step: Step, id: Id)
    requires Exclusive(c, s) && StaysDeleted(s, t, id) && u != t && Next(c, s, u, step).Some?
    ensures StaysDeleted(Next(c, s, u, step).value, t, id)
  {
    hide Local, Critical, Knows, SlotsConserved, LocksAgree, RegistryAgrees, Registered;
    ExclusiveExcludes(c, s);
    assert PcOk(c, s.pc[u], s.sh.nextSerial);
    AddsOnlyGuarded(c, s.sh, u, s.pc[u], step, id);
  }

  /**
   A build that comes upon an incomplete directory deletes it before it looks for the source: in a window-safe
   run, whether there is a source or not, the directory is gone when the build goes on.
   */
  lemma {:induction false} LeftoverStaysDeleted(c: Config, start: State, run: seq<Act>, i: nat, t: Tid, id: Id,
                          h: Handle)
    requires Init(c, start) && Exec(c, start, run).Some? && WindowSafeRun(c, start, run)
    requires i < |run| && run[i] == Act(t, Go(true)) && PcAt(c, start, run[..i], t) == Some(Building(Recheck, id, h))
    requires Exec(c, start, run[..i]).Some? && !CompleteIn(Exec(c, start, run[..i]).value.sh.dirs, id)
    requires Pauses(run, i, t)
    ensures StaysDeleted(Exec(c, start, run).value, t, id)
    decreases |run|
  {
    hide Exclusive, Local, WindowSafe, Init, Critical, MutualExclusion, StaysDeleted;
    var n := |run| - 1;
    WindowSafePrefix(c, start, run, n);
    ExclusiveAlways(c, start, run[..n]);
    var s := Exec(c, start, run[..n]).value;
    if i == n {
      DeletingStep(c, s, t, id, h);
    } else {
      assert run[..n][..i] == run[..i];
      assert Pauses(run[..n], i, t);
      LeftoverStaysDeleted(c, start, run[..n], i, t, id, h);
      if run[n].t == t {
        PausedKeepsDeleted(c, s, t, run[n].step, id);
      } else {
        OthersKeepDeleted(c, s, t, run[n].t, run[n].step, id);
      }
    }
  }

  lemma MadeForItsOwn(c: Config, s: State, t: Tid)
    requires Exclusive(c, s) && t in s.pc && s.pc[t].Building?
    ensures s.pc[t].h.id == s.pc[t].id
  {
    assert PcOk(c, s.pc[t], s.sh.nextSerial);
  }

  lemma OthersKeepClear(c: Config, s: State, t: Tid, u: Tid, step: Step, id: Id)
    requires Exclusive(c, s) && StaysCleared(s, t, id) && u != t && Next(c, s, u, step).Some?
    ensures StaysCleared(Next(c, s, u, step).value, t, id)
  {
    hide Local, Critical, Knows, SlotsConserved, LocksAgree, RegistryAgrees, Registered;
    ExclusiveExcludes(c, s);
    assert PcOk(c, s.pc[u], s.sh.nextSerial);
    AddsOnlyGuarded(c, s.sh, u, s.pc[u], step, id);
  }

  /**
   So a transcode starts in a fresh work directory: at the stage that makes it, an earlier act of the same
   call has cleared the old one, and if that worked there is none when the stage is passed.
   */
  lemma TranscodeStartsFresh(c: Config, start: State, run: seq<Act>, t: Tid, id: Id, h: Handle) returns (clear: nat)
    requires Init(c, start) && Exec(c, start, run).Some? && WindowSafeRun(c, start, run)
    requires PcAt(c, start, run, t) == Some(Building(MakePart, id, h))
    ensures Passes(c, start, run, clear, t, ClearPart, id, h)
    ensures run[clear].step.yes ==>
              var s := Exec(c, start, run).value;
              var ready := Next(c, s, t, Go(true));
              ready.Some? && ready.value.sh.parts == s.sh.parts[id := Part(false, s.sh.now)] && id !in s.sh.parts
  {
    hide Exec, WindowSafeRun, Init, Stays;
    clear := CameFrom(c, start, run, t, 4, id, h);
    StaysMeansPauses(c, start, run, clear, t, id, h);
    if run[clear].step.yes {
      ClearedStaysClear(c, start, run, clear, t, ClearPart, id, h);
    }
  }

  lemma StaysMeansPauses(c: Config, start: State, run: seq<Act>, from: nat, t: Tid, id: Id, h: Handle)
    requires Exec(c, start, run).Some? && Stays(c, start, run, from, |run|, t, Building(MakePart, id, h))
    ensures Pauses(run, from, t)
  {
    hide Exec, Local;
    forall m | from < m < |run| && run[m].t == t ensures !run[m].step.Go? {
      PrefixRuns(c, start, run, m + 1);
      var before := run[..m + 1];
      assert before[..m] == run[..m];
      LastStep(c, start, before, t);
      Reached(c, start, run[..m], t);
      MakePartLeaves(c, Exec(c, start, run[..m]).value.sh, t, id, h, run[m].step);
    }
  }

  lemma MakePartLeaves(c: Config, sh: Shared, t: Tid, id: Id, h: Handle, step: Step)
    requires Local(c, sh, t, Building(MakePart, id, h), step).Some?
    ensures step.Go? ==> Local(c, sh, t, Building(MakePart, id, h), step).value.pc != Building(MakePart, id, h)
  {}
}
