/**
 The HLS segmenter as a state machine over the steps of its threads: the unlocked fast path, the
 registry of per-rendition mutexes under its own lock, the transcode slots, the build in a work
 directory that a rename publishes, and the eviction sweep at the end of a call.

 A step is one access to shared state, except that a look at a finished directory, the fast path's with
 its touch and the second one with its deletion, is one step. A directory read, a `remove_all` and a
 `rename` are single steps; their failures, ffmpeg's writes and its exit status are choices of the
 environment.
 */
module Segmenter {
  import opened Wrappers
  import opened Sorting
  import opened Eviction

  type Id = string
  type Tid = nat

  datatype Config = Config(configuredSlots: nat, cap: nat)

  function ClampedSlots(configured: nat): (n: nat)
    ensures 1 <= n <= 64
    ensures 1 <= configured <= 64 ==> n == configured
    ensures n == 1 <==> configured <= 1
    ensures configured >= 64 ==> n == 64
  {
    if configured < 1 then 1 else if configured > 64 then 64 else configured
  }

  predicate IsIdChar(c: char) {
    'a' <= c <= 'z' || 'A' <= c <= 'Z' || '0' <= c <= '9' || c == '-' || c == '_' || c == ':' || c == '.'
  }

  predicate HasDots(id: Id) {
    exists i :: 0 <= i < |id| - 1 && id[i] == '.' && id[i + 1] == '.'
  }

  predicate IsSafeRenditionId(id: Id) {
    0 < |id| <= 256 && !IsPart(id) && !HasDots(id) && forall c :: c in id ==> IsIdChar(c)
  }

  /** A safe id that names no rendition: `cache_root/.` is the cache itself. */
  const ROOT: Id := "."

  // ---------- state ----------

  /** A mutex object: the rendition it was made for and a serial number. */
  datatype Handle = Handle(id: Id, serial: nat)

  datatype Cached = Cached(complete: bool, lastUsed: int)

  datatype Part = Part(complete: bool, touched: int)

  datatype Outcome = Served | Busy | Failed

  /**
   Who runs a sweep: an operator, who may name a rendition to keep, or a build that has just published and still
   holds its mutex.
   */
  datatype Home = Operator(keep: Id) | Builder(id: Id, h: Handle)

  /** What a thread wants a mutex for. */
  datatype Purpose = ForBuild(id: Id) | ForSweep(home: Home, sweep: Sweep)

  datatype Stage =
    | Recheck | Source | Slot | ClearPart | MakePart | Transcoding | Inspect | ClearDir | Publish | CleanUp

  datatype Pc =
    | Idle
    | Probe(id: Id)
    | Lookup(purpose: Purpose, inside: bool)
    | Fetched(purpose: Purpose, h: Handle)
    | Building(stage: Stage, id: Id, h: Handle)
    | Listing(home: Home)
    | Sweeping(home: Home, sweep: Sweep)
    | Evicting(home: Home, sweep: Sweep, h: Handle)
    | Forgetting(home: Home, sweep: Sweep, h: Handle, inside: bool)
    | Dropping(home: Home, sweep: Sweep, h: Handle)
    | GiveBack(id: Id, h: Handle, outcome: Outcome)
    | Unlock(id: Id, h: Handle, outcome: Outcome)
    | Done(outcome: Outcome)

  /** What all threads share: the registry and its lock, the mutexes' owners, the slots, the disk. */
  datatype Shared = Shared(
    registryLock: Option<Tid>, registry: map<Id, Handle>, nextSerial: nat,
    owner: map<Handle, Tid>, freeSlots: nat, dirs: map<Id, Cached>, parts: map<Id, Part>, now: int)

  datatype State = State(pc: map<Tid, Pc>, sh: Shared)

  /** The outcome of a step: the shared state after it and where its thread goes. */
  datatype Moved = Moved(sh: Shared, pc: Pc)

  /** `Go` is the thread's own next step; `yes` is what the file system or ffmpeg answers in it. */
  datatype Step =
    | Call(id: Id)
    | CallSweep(keep: Id)
    | Go(yes: bool)
    | Write(complete: bool)
    | List(stale: set<Id>, entries: seq<CacheEntry>)
    | Tick(seconds: nat)

  const STALE_SECONDS := 3600

  // ---------- the steps ----------

  function KeepOf(home: Home): Id {
    match home
    case Operator(keep) => keep
    case Builder(id, _) => id
  }

  function Wanted(p: Purpose): Id {
    match p
    case ForBuild(id) => id
    case ForSweep(_, sweep) => if |sweep.fates| < |sweep.entries| then sweep.Current().id else ""
  }

  /** Where a thread goes when its sweep is over. */
  function After(home: Home): Pc {
    match home
    case Operator(_) => Idle
    case Builder(id, h) => GiveBack(id, h, Served)
  }

  function StartSweep(c: Config, home: Home): Pc {
    if c.cap == 0 then After(home) else Listing(home)
  }

  /** Takes the registry's own lock, waiting while another thread has it. */
  function EnterRegistry(sh: Shared, t: Tid, inside: Pc): Option<Moved> {
    if sh.registryLock.None? then Some(Moved(sh.(registryLock := Some(t)), inside)) else None
  }

  function LookUp(sh: Shared, p: Purpose): Moved {
    var id := Wanted(p);
    var known := id in sh.registry;
    var h := if known then sh.registry[id] else Handle(id, sh.nextSerial);
    Moved(sh.(registryLock := None, registry := sh.registry[id := h],
              nextSerial := if known then sh.nextSerial else sh.nextSerial + 1),
          Fetched(p, h))
  }

  /** `try_lock` may fail on a free mutex too. */
  function TryLock(sh: Shared, t: Tid, p: Purpose, h: Handle, yes: bool): Moved {
    if h in sh.owner || !yes then
      Moved(sh, if p.ForBuild? then Done(Busy) else Sweeping(p.home, p.sweep.Spare(Locked)))
    else
      Moved(sh.(owner := sh.owner[h := t]),
            if p.ForBuild? then Building(Recheck, p.id, h) else Evicting(p.home, p.sweep, h))
  }

  function Without<V>(m: map<Id, V>, id: Id, yes: bool): map<Id, V> {
    if yes then m - {id} else m
  }

  /** `remove_all` of a rendition's directory. That of the root takes every directory and work directory with it. */
  function RemoveDir(sh: Shared, id: Id, yes: bool): Shared {
    if id == ROOT && yes then sh.(dirs := map[], parts := map[])
    else sh.(dirs := Without(sh.dirs, id, yes))
  }

  predicate CompleteIn(dirs: map<Id, Cached>, id: Id) {
    id in dirs && dirs[id].complete
  }

  function Build(c: Config, sh: Shared, stage: Stage, id: Id, h: Handle, yes: bool): Moved {
    match stage
    case Recheck =>
      if CompleteIn(sh.dirs, id) then Moved(sh, Unlock(id, h, Served))
      else Moved(RemoveDir(sh, id, yes), Building(Source, id, h))
    case Source => Moved(sh, if yes then Building(Slot, id, h) else Unlock(id, h, Failed))
    case Slot =>
      if sh.freeSlots == 0 || !yes then Moved(sh, Unlock(id, h, Busy))
      else Moved(sh.(freeSlots := sh.freeSlots - 1), Building(ClearPart, id, h))
    case ClearPart => Moved(sh.(parts := Without(sh.parts, id, yes)), Building(MakePart, id, h))
    case MakePart =>
      if !yes then Moved(sh, GiveBack(id, h, Failed))
      else
        var part := if id in sh.parts then sh.parts[id] else Part(false, sh.now);
        Moved(sh.(parts := sh.parts[id := part]), Building(Transcoding, id, h))
    case Transcoding => Moved(sh, Building(if yes then Inspect else CleanUp, id, h))
    case Inspect => Moved(sh, Building(if id in sh.parts && sh.parts[id].complete then ClearDir else CleanUp, id, h))
    case ClearDir => Moved(RemoveDir(sh, id, yes), Building(Publish, id, h))
    case Publish =>
      if yes && id != ROOT && id in sh.parts && !CompleteIn(sh.dirs, id) then
        Moved(sh.(dirs := sh.dirs[id := Cached(sh.parts[id].complete, sh.now)], parts := sh.parts - {id}),
              StartSweep(c, Builder(id, h)))
      else Moved(sh, Building(CleanUp, id, h))
    case CleanUp => Moved(sh.(parts := Without(sh.parts, id, yes)), GiveBack(id, h, Failed))
  }

  function SweepOn(home: Home, sweep: Sweep): Pc {
    if sweep.Finished() || |sweep.fates| >= |sweep.entries| then After(home)
    else if sweep.Current().id == sweep.keep then Sweeping(home, sweep.Spare(Kept))
    else Lookup(ForSweep(home, sweep), false)
  }

  function EvictEntry(sh: Shared, home: Home, sweep: Sweep, h: Handle, yes: bool): Moved {
    if yes && |sweep.fates| < |sweep.entries| && sweep.Current().bytes <= sweep.total then
      Moved(sh.(dirs := sh.dirs - {h.id}), Forgetting(home, sweep.Evict(), h, false))
    else Moved(sh, Dropping(home, sweep.Spare(Stuck), h))
  }

  /** The next step of thread `t` itself; `None` while it waits, for the registry or for its listing. */
  function Advance(c: Config, sh: Shared, t: Tid, pc: Pc, yes: bool): Option<Moved> {
    match pc
    case Idle => None
    case Done(_) => None
    case Listing(_) => None
    case Probe(id) =>
      if CompleteIn(sh.dirs, id) then
        Some(Moved(sh.(dirs := sh.dirs[id := sh.dirs[id].(lastUsed := sh.now)]), Done(Served)))
      else Some(Moved(sh, Lookup(ForBuild(id), false)))
    case Lookup(p, inside) => if inside then Some(LookUp(sh, p)) else EnterRegistry(sh, t, Lookup(p, true))
    case Fetched(p, h) => Some(TryLock(sh, t, p, h, yes))
    case Building(stage, id, h) => Some(Build(c, sh, stage, id, h, yes))
    case Sweeping(home, sweep) => Some(Moved(sh, SweepOn(home, sweep)))
    case Evicting(home, sweep, h) => Some(EvictEntry(sh, home, sweep, h, yes))
    case Forgetting(home, sweep, h, inside) =>
      if !inside then EnterRegistry(sh, t, Forgetting(home, sweep, h, true))
      else Some(Moved(sh.(registryLock := None, registry := sh.registry - {h.id}), Dropping(home, sweep, h)))
    case Dropping(home, sweep, h) => Some(Moved(sh.(owner := sh.owner - {h}), Sweeping(home, sweep)))
    case GiveBack(id, h, outcome) => Some(Moved(sh.(freeSlots := sh.freeSlots + 1), Unlock(id, h, outcome)))
    case Unlock(id, h, outcome) => Some(Moved(sh.(owner := sh.owner - {h}), Done(outcome)))
  }

  ghost predicate AbandonedParts(sh: Shared, stale: set<Id>) {
    forall id :: id in stale ==> id in sh.parts && sh.parts[id].touched < sh.now - STALE_SECONDS
  }

  predicate WithoutRoot(entries: seq<CacheEntry>) {
    forall e :: e in entries ==> e.id != ROOT
  }

  predicate AtRest(pc: Pc) {
    pc.Idle? || pc.Done?
  }

  /**
   A listing is taken while other threads change the directory, so its entries may be out of date in
   any way; they are only sorted and distinct, and a directory does not list itself.
   */
  ghost function TakeListing(c: Config, sh: Shared, home: Home, stale: set<Id>,
                          entries: seq<CacheEntry>): Option<Moved> {
    var sweep := Begin(KeepOf(home), c.cap, entries);
    if AbandonedParts(sh, stale) && sweep.Distinct() && Sorted(entries, NoLater) && WithoutRoot(entries) then
      Some(Moved(sh.(parts := sh.parts - stale),
                 if sweep.total <= c.cap then After(home) else Sweeping(home, sweep)))
    else None
  }

  ghost function Local(c: Config, sh: Shared, t: Tid, pc: Pc, step: Step): Option<Moved> {
    match step
    case Call(id) =>
      if AtRest(pc) then Some(Moved(sh, if IsSafeRenditionId(id) then Probe(id) else Done(Failed))) else None
    case CallSweep(keep) => if AtRest(pc) then Some(Moved(sh, StartSweep(c, Operator(keep)))) else None
    case Go(yes) => Advance(c, sh, t, pc, yes)
    case Write(complete) =>
      if pc.Building? && pc.stage == Transcoding && pc.id in sh.parts then
        Some(Moved(sh.(parts := sh.parts[pc.id := Part(complete, sh.now)]), pc))
      else None
    case List(stale, entries) => if pc.Listing? then TakeListing(c, sh, pc.home, stale, entries) else None
    case Tick(seconds) => Some(Moved(sh.(now := sh.now + seconds), pc))
  }

  /** One step of thread `t`; `None` when it is not enabled. */
  ghost function Next(c: Config, s: State, t: Tid, step: Step): Option<State> {
    if t !in s.pc then None
    else
      var m := Local(c, s.sh, t, s.pc[t], step);
      if m.None? then None else Some(State(s.pc[t := m.value.pc], m.value.sh))
  }

  ghost predicate Init(c: Config, s: State) {
    && (forall t :: t in s.pc ==> s.pc[t] == Idle)
    && s.sh.registryLock == None && s.sh.registry == map[] && s.sh.nextSerial == 0 && s.sh.owner == map[]
    && s.sh.freeSlots == ClampedSlots(c.configuredSlots)
  }

  datatype Act = Act(t: Tid, step: Step)

  /** The state after a run of steps; `None` when one of them is not enabled. */
  ghost function Exec(c: Config, s: State, run: seq<Act>): Option<State> {
    if run == [] then Some(s)
    else
      var before := Exec(c, s, run[..|run| - 1]);
      if before.None? then None else Next(c, before.value, run[|run| - 1].t, run[|run| - 1].step)
  }

  // ---------- what callers do ----------

  /** The renditions that callers ask for, and whether anyone but a build starts a sweep. */
  datatype Usage = Usage(ids: iset<Id>, sweeps: bool)

  predicate Allowed(u: Usage, step: Step) {
    match step
    case Call(id) => id in u.ids
    case CallSweep(_) => u.sweeps
    case _ => true
  }

  predicate Within(u: Usage, run: seq<Act>) {
    forall k :: 0 <= k < |run| ==> Allowed(u, run[k].step)
  }

  /** An id that passes the check, and so may reach a build. */
  predicate Usable(u: Usage, id: Id) {
    id in u.ids && IsSafeRenditionId(id)
  }

  predicate IsRendition(u: Usage, id: Id) {
    Usable(u, id) && id != ROOT
  }
}
