/** What a call answers, in every run: the reason for each answer is an act of the same call. */
module SegmenterAnswers {
  import opened Wrappers
  import opened Sorting
  import opened Eviction
  import opened Segmenter
  import opened SegmenterUsage
  import opened SegmenterExclusion
  import opened SegmenterPaths

  /** Act number `b` starts thread `t`'s latest call, which asks for `id`. */
  ghost predicate CallsAt(run: seq<Act>, b: nat, t: Tid, id: Id) {
    && b < |run| && run[b] == Act(t, Call(id))
    && forall m :: b < m < |run| && run[m].t == t ==> !StartsCall(run[m].step)
  }

  predicate StartsCall(step: Step) {
    step.Call? || step.CallSweep?
  }

  // ---------- reasons ----------

  /** A taken mutex or no free slot, or either refused. */
  predicate BusyReason(sh: Shared, pc: Pc, step: Step, id: Id) {
    step.Go? &&
      ((pc.Fetched? && pc.purpose == ForBuild(id) && (pc.h in sh.owner || !step.yes))
       || (pc.Building? && pc.id == id && pc.stage == Slot && (sh.freeSlots == 0 || !step.yes)))
  }

  /** An unsafe id, no source file, no work directory, or a clean-up. */
  predicate FailedReason(pc: Pc, step: Step, id: Id) {
    || (step == Call(id) && !IsSafeRenditionId(id))
    || (step.Go? && pc.Building? && pc.id == id
        && (pc.stage == CleanUp || (!step.yes && (pc.stage == Source || pc.stage == MakePart))))
  }

  /** A complete directory on the fast path or the second look, or a publish. */
  predicate ServedReason(sh: Shared, pc: Pc, step: Step, id: Id) {
    step.Go? &&
      ((pc == Probe(id) && CompleteIn(sh.dirs, id))
       || (pc.Building? && pc.id == id && pc.stage == Recheck && CompleteIn(sh.dirs, id))
       || (pc.Building? && pc.id == id && pc.stage == Publish && step.yes && id != ROOT && id in sh.parts
           && !CompleteIn(sh.dirs, id)))
  }

  predicate Reason(o: Outcome, sh: Shared, pc: Pc, step: Step, id: Id) {
    match o
    case Busy => BusyReason(sh, pc, step, id)
    case Failed => FailedReason(pc, step, id)
    case Served => ServedReason(sh, pc, step, id)
  }

  /** Act number `i` is one of the thread's, and gives the reason for that answer. */
  ghost predicate ReasonAt(c: Config, start: State, run: seq<Act>, i: nat, t: Tid, id: Id, o: Outcome) {
    && i < |run| && run[i].t == t && PcAt(c, start, run[..i], t).Some?
    && Reason(o, Exec(c, start, run[..i]).value.sh, PcAt(c, start, run[..i], t).value, run[i].step, id)
  }

  // ---------- one step ----------

  /** The rendition that a thread in a call is asked for. */
  function Asked(pc: Pc): Option<Id> {
    match pc
    case Probe(id) => Some(id)
    case Lookup(p, _) => if p.ForBuild? then Some(p.id) else HomeId(p.home)
    case Fetched(p, _) => if p.ForBuild? then Some(p.id) else HomeId(p.home)
    case Building(_, id, _) => Some(id)
    case Listing(home) => HomeId(home)
    case Sweeping(home, _) => HomeId(home)
    case Evicting(home, _, _) => HomeId(home)
    case Forgetting(home, _, _, _) => HomeId(home)
    case Dropping(home, _, _) => HomeId(home)
    case GiveBack(id, _, _) => Some(id)
    case Unlock(id, _, _) => Some(id)
    case _ => None
  }

  function HomeId(home: Home): Option<Id> {
    if home.Builder? then Some(home.id) else None
  }

  /** What the call has settled on. */
  function Settled(pc: Pc): Option<Outcome> {
    match pc
    case Lookup(p, _) => if p.ForSweep? then Some(Served) else None
    case Fetched(p, _) => if p.ForSweep? then Some(Served) else None
    case Listing(_) => Some(Served)
    case Sweeping(_, _) => Some(Served)
    case Evicting(_, _, _) => Some(Served)
    case Forgetting(_, _, _, _) => Some(Served)
    case Dropping(_, _, _) => Some(Served)
    case GiveBack(_, _, o) => Some(o)
    case Unlock(_, _, o) => Some(o)
    case Done(o) => Some(o)
    case _ => None
  }

  /** The thread is in a call for `id`, or has just answered one. */
  predicate InCall(pc: Pc, id: Id) {
    pc.Done? || Asked(pc) == Some(id)
  }

  lemma BuildSettles(c: Config, sh: Shared, stage: Stage, id: Id, h: Handle, yes: bool, o: Outcome)
    ensures var m := Build(c, sh, stage, id, h, yes);
            && InCall(m.pc, id)
            && (Settled(m.pc) == Some(o) <==> Reason(o, sh, Building(stage, id, h), Go(yes), id))
  {}

  lemma AdvanceSettles(c: Config, sh: Shared, t: Tid, pc: Pc, yes: bool, id: Id, o: Outcome)
    requires InCall(pc, id) && Advance(c, sh, t, pc, yes).Some?
    ensures var m := Advance(c, sh, t, pc, yes).value;
            && InCall(m.pc, id)
            && (Settled(m.pc) == Some(o) <==> Settled(pc) == Some(o) || Reason(o, sh, pc, Go(yes), id))
  {
    hide Build, IsSafeRenditionId;
    if pc.Building? {
      BuildSettles(c, sh, pc.stage, pc.id, pc.h, yes, o);
    }
  }

  /** The call's own steps, and nothing else, give it a reason; and it keeps what it has settled on. */
  lemma StepSettles(c: Config, sh: Shared, t: Tid, pc: Pc, step: Step, id: Id, o: Outcome)
    requires InCall(pc, id) && !StartsCall(step) && Local(c, sh, t, pc, step).Some?
    ensures var m := Local(c, sh, t, pc, step).value;
            && InCall(m.pc, id)
            && (Settled(m.pc) == Some(o) <==> Settled(pc) == Some(o) || Reason(o, sh, pc, step, id))
  {
    hide Advance, Begin, Sorted, Sweep.Distinct, IsSafeRenditionId;
    if step.Go? {
      AdvanceSettles(c, sh, t, pc, step.yes, id, o);
    }
  }

  lemma CallSettles(c: Config, sh: Shared, t: Tid, pc: Pc, id: Id, o: Outcome)
    requires Local(c, sh, t, pc, Call(id)).Some?
    ensures var m := Local(c, sh, t, pc, Call(id)).value;
            InCall(m.pc, id) && (Settled(m.pc) == Some(o) <==> Reason(o, sh, pc, Call(id), id))
  {
    hide IsSafeRenditionId;
  }

  // ---------- runs ----------

  ghost predicate HasReason(c: Config, start: State, run: seq<Act>, b: nat, t: Tid, id: Id, o: Outcome) {
    exists i :: b <= i < |run| && ReasonAt(c, start, run, i, t, id, o)
  }

  lemma ReasonInPrefix(c: Config, start: State, run: seq<Act>, n: nat, i: nat, t: Tid, id: Id, o: Outcome)
    requires i < n <= |run|
    ensures ReasonAt(c, start, run[..n], i, t, id, o) <==> ReasonAt(c, start, run, i, t, id, o)
  {
    hide PcAt, Reason, Exec;
    assert run[..n][..i] == run[..i];
  }

  /** One more act: the reasons so far, and perhaps its own. */
  lemma OneMoreReason(c: Config, start: State, run: seq<Act>, b: nat, t: Tid, id: Id, o: Outcome)
    requires b < |run|
    ensures var n := |run| - 1;
            HasReason(c, start, run, b, t, id, o) <==>
              HasReason(c, start, run[..n], b, t, id, o) || ReasonAt(c, start, run, n, t, id, o)
  {
    hide ReasonAt;
    var n := |run| - 1;
    forall i | b <= i < n
      ensures ReasonAt(c, start, run[..n], i, t, id, o) <==> ReasonAt(c, start, run, i, t, id, o)
    {
      ReasonInPrefix(c, start, run, n, i, t, id, o);
    }
    if HasReason(c, start, run[..n], b, t, id, o) {
      var i :| b <= i < n && ReasonAt(c, start, run[..n], i, t, id, o);
      assert ReasonAt(c, start, run, i, t, id, o);
    }
  }

  lemma NoReasonYet(c: Config, start: State, run: seq<Act>, b: nat, t: Tid, id: Id, o: Outcome)
    requires b >= |run|
    ensures !HasReason(c, start, run, b, t, id, o)
  {}

  /** Whether the last act gives a reason, read off the state in front of it. */
  lemma LastReason(c: Config, start: State, run: seq<Act>, t: Tid, id: Id, o: Outcome)
    requires run != [] && Exec(c, start, run).Some? && PcAt(c, start, run, t).Some?
    ensures var n := |run| - 1;
            var before := Exec(c, start, run[..n]);
            && before.Some? && t in before.value.pc
            && (ReasonAt(c, start, run, n, t, id, o) <==>
                  run[n].t == t && Reason(o, before.value.sh, before.value.pc[t], run[n].step, id))
  {
    hide Reason, Local;
    LastStep(c, start, run, t);
    Reached(c, start, run[..|run| - 1], t);
  }

  /**
   While a call lasts and when it has returned, it has settled on an answer exactly when one of its own acts
   gave the reason for that answer. No act of a call gives the reason for another answer than its own.
   */
  lemma {:induction false} AnswersForReason(c: Config, start: State, run: seq<Act>, b: nat, t: Tid, id: Id, o: Outcome)
    requires Exec(c, start, run).Some? && PcAt(c, start, run, t).Some? && CallsAt(run, b, t, id)
    ensures InCall(PcAt(c, start, run, t).value, id)
    ensures Settled(PcAt(c, start, run, t).value) == Some(o) <==> HasReason(c, start, run, b, t, id, o)
    decreases |run|
  {
    hide PcAt, Exec, Local, Reason, InCall, Settled, HasReason, ReasonAt, Next;
    var n := |run| - 1;
    LastStep(c, start, run, t);
    LastReason(c, start, run, t, id, o);
    OneMoreReason(c, start, run, b, t, id, o);
    var before := Exec(c, start, run[..n]).value;
    Reached(c, start, run[..n], t);
    if b == n {
      NoReasonYet(c, start, run[..n], b, t, id, o);
      CallSettles(c, before.sh, t, before.pc[t], id, o);
    } else {
      CallsInPrefix(run, b, t, id);
      AnswersForReason(c, start, run[..n], b, t, id, o);
      if run[n].t == t {
        StepSettles(c, before.sh, t, before.pc[t], run[n].step, id, o);
      }
    }
  }

  lemma CallsInPrefix(run: seq<Act>, b: nat, t: Tid, id: Id)
    requires CallsAt(run, b, t, id) && b < |run| - 1
    ensures CallsAt(run[..|run| - 1], b, t, id) && !(run[|run| - 1].t == t && StartsCall(run[|run| - 1].step))
  {
    var n := |run| - 1;
    forall m | b < m < n && run[..n][m].t == t ensures !StartsCall(run[..n][m].step) {
      assert run[..n][m] == run[m];
    }
  }

  /** What a call returns, in every run: it returns that answer exactly when one of its acts gave the reason. */
  lemma ReturnsForReason(c: Config, start: State, run: seq<Act>, b: nat, t: Tid, id: Id, answer: Outcome, o: Outcome)
    requires Exec(c, start, run).Some? && PcAt(c, start, run, t) == Some(Done(answer)) && CallsAt(run, b, t, id)
    ensures o == answer <==> HasReason(c, start, run, b, t, id, o)
  {
    hide Exec, PcAt, HasReason, CallsAt;
    AnswersForReason(c, start, run, b, t, id, o);
  }

  /** A thread at rest behind an answer, or in a call, has a latest call. */
  predicate Called(pc: Pc) {
    pc.Done? || Asked(pc).Some?
  }

  lemma StepCalled(c: Config, sh: Shared, t: Tid, pc: Pc, step: Step)
    requires Local(c, sh, t, pc, step).Some? && Called(Local(c, sh, t, pc, step).value.pc)
    ensures step.Call? || (Called(pc) && !StartsCall(step))
  {
    hide Begin, Sorted, Sweep.Distinct, IsSafeRenditionId, Build;
  }

  /** So behind every answer there is the call that it answers. */
  lemma {:induction false} LatestCall(c: Config, start: State, run: seq<Act>, t: Tid) returns (b: nat, id: Id)
    requires Init(c, start) && PcAt(c, start, run, t).Some? && Called(PcAt(c, start, run, t).value)
    ensures CallsAt(run, b, t, id)
    decreases |run|
  {
    hide Exec, Local, PcAt, Called, StartsCall;
    Reached(c, start, run, t);
    if run == [] {
      NotCalledAtStart(c, start, t);
      assert false;
    }
    var n := |run| - 1;
    LastStep(c, start, run, t);
    Reached(c, start, run[..n], t);
    if run[n].t == t && run[n].step.Call? {
      b, id := n, run[n].step.id;
    } else {
      if run[n].t == t {
        var before := Exec(c, start, run[..n]).value;
        StepCalled(c, before.sh, t, before.pc[t], run[n].step);
      }
      b, id := LatestCall(c, start, run[..n], t);
      assert run[..n][b] == run[b];
      forall m | b < m < |run| && run[m].t == t ensures !StartsCall(run[m].step) {
        assert m < n ==> run[..n][m] == run[m];
      }
    }
  }

  lemma NotCalledAtStart(c: Config, start: State, t: Tid)
    requires Init(c, start)
    ensures PcAt(c, start, [], t).None? || !Called(PcAt(c, start, [], t).value)
  {}

  // ---------- what a success leaves behind ----------

  /**
   When a call returns success, its rendition has a complete directory, if no erasure has fallen into a window
   and nobody asks for the root.
   */
  lemma ReturnsComplete(c: Config, u: Usage, start: State, run: seq<Act>, b: nat, t: Tid, id: Id)
    requires Init(c, start) && Exec(c, start, run).Some? && WindowSafeRun(c, start, run)
    requires Within(u, run) && ROOT !in u.ids
    requires CallsAt(run, b, t, id) && run[|run| - 1].t == t && run[|run| - 1].step.Go?
    requires PcAt(c, start, run, t) == Some(Done(Served))
    ensures CompleteIn(Exec(c, start, run).value.sh.dirs, id)
  {
    hide Exec, Local, PcAt, WindowSafeRun, Within, InCall, Settled, Init;
    var n := |run| - 1;
    assert b < n;
    LastStep(c, start, run, t);
    Reached(c, start, run[..n], t);
    Reached(c, start, run, t);
    var s := Exec(c, start, run[..n]).value;
    CallsInPrefix(run, b, t, id);
    AnswersForReason(c, start, run[..n], b, t, id, Served);
    WindowSafePrefix(c, start, run, n);
    WithinPrefix(u, run, n);
    ServedAlways(c, u, start, run[..n]);
    assert Delivered(s.sh, s.pc[t]);
    ReturnKeepsDirectory(c, s.sh, t, s.pc[t], run[n].step, id);
    LastShared(c, start, run, t);
  }

  lemma LastShared(c: Config, start: State, run: seq<Act>, t: Tid)
    requires run != [] && Exec(c, start, run).Some? && run[|run| - 1].t == t && PcAt(c, start, run, t).Some?
    ensures var before := Exec(c, start, run[..|run| - 1]);
            && before.Some? && t in before.value.pc
            && Local(c, before.value.sh, t, before.value.pc[t], run[|run| - 1].step).Some?
            && Exec(c, start, run).value.sh ==
                 Local(c, before.value.sh, t, before.value.pc[t], run[|run| - 1].step).value.sh
  {
    hide Local;
  }

  lemma ReturnKeepsDirectory(c: Config, sh: Shared, t: Tid, pc: Pc, step: Step, id: Id)
    requires step.Go? && Local(c, sh, t, pc, step).Some? && Local(c, sh, t, pc, step).value.pc == Done(Served)
    requires InCall(pc, id) && Delivered(sh, pc)
    ensures CompleteIn(Local(c, sh, t, pc, step).value.sh.dirs, id)
  {
    hide IsSafeRenditionId;
  }

  /** What is served is marked as used now: on the fast path, and when it is published. */
  lemma ServingTouches(c: Config, sh: Shared, t: Tid, pc: Pc, yes: bool, id: Id)
    requires ServedReason(sh, pc, Go(yes), id) && !(pc.Building? && pc.stage == Recheck)
    ensures var m := Advance(c, sh, t, pc, yes);
            m.Some? && CompleteIn(m.value.sh.dirs, id) == (pc.Probe? || sh.parts[id].complete)
              && m.value.sh.dirs[id].lastUsed == sh.now
  {
    hide StartSweep, IsSafeRenditionId;
  }
}
