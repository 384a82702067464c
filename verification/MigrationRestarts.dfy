/**
 Interrupted migrations. What is given again after an interruption is the baseline, from its start, until
 version 1 is recorded; and behind that one migration, the one whose version is not recorded yet.
 */
module MigrationRestarts {
  import opened SchemaMigration

  // ---------- sequences of steps ----------

  lemma {:induction false} RunConcat<S>(x: S, a: seq<S -> S>, b: seq<S -> S>)
    ensures Run(x, a + b) == Run(Run(x, a), b)
  {
    if b == [] {
      assert a + b == a;
    } else {
      var n := |b| - 1;
      assert (a + b)[..|a| + n] == a + b[..n];
      RunConcat(x, a, b[..n]);
    }
  }

  lemma RunOne<S>(x: S, f: S -> S)
    ensures Run(x, [f]) == f(x)
  {
    assert [f][..0] == [];
  }

  /** The schema of the first `k` steps, each applied once. */
  ghost function Upto<S>(r: Release<S>, empty: S, k: nat): S
    requires k <= |r.Steps()|
  {
    Run(empty, r.Steps()[..k])
  }

  lemma UptoStep<S>(r: Release<S>, empty: S, k: nat)
    requires k < |r.Steps()|
    ensures Upto(r, empty, k + 1) == r.Steps()[k](Upto(r, empty, k))
  {
    assert r.Steps()[..k + 1][..k] == r.Steps()[..k];
  }

  lemma UptoBaseline<S>(r: Release<S>, empty: S, k: nat)
    requires k <= |r.baseline|
    ensures Upto(r, empty, k) == Run(empty, r.baseline[..k])
  {
    assert r.Steps()[..k] == r.baseline[..k];
  }

  lemma UptoAll<S>(r: Release<S>, empty: S)
    ensures Upto(r, empty, |r.Steps()|) == Run(empty, r.Steps())
  {
    assert r.Steps()[..|r.Steps()|] == r.Steps();
  }

  // ---------- what statements do ----------

  lemma {:induction false} BaselineDoes<S>(r: Release<S>, st: Store<S>, c: nat)
    requires c <= |r.baseline|
    ensures DoAll(r, st, Baseline(|r.baseline|)[..c]) == st.(schema := Run(st.schema, r.baseline[..c]))
  {
    if c > 0 {
      BaselineDoes(r, st, c - 1);
      DoAllSnoc(r, st, Baseline(|r.baseline|), c - 1);
      assert r.baseline[..c][..c - 1] == r.baseline[..c - 1];
    }
  }

  /** Version 1, or a migration's, is the last that the database has recorded, and it has recorded no other. */
  ghost predicate AtVersion<S>(r: Release<S>, st: Store<S>, j: nat) {
    && j <= |r.migrations| && Stored(st.versions) == VersionAt(r, j)
    && forall v :: v in st.versions ==> exists i: nat :: i <= j && v == VersionAt(r, i)
  }

  lemma VersionsAscend<S>(r: Release<S>, i: nat, j: nat)
    requires r.WellOrdered() && i < j <= |r.migrations|
    ensures 1 <= VersionAt(r, i) < VersionAt(r, j) <= r.current
  {}

  lemma VersionsOrdered<S>(r: Release<S>, i: nat, j: nat)
    requires r.WellOrdered() && i <= |r.migrations| && j <= |r.migrations| && VersionAt(r, i) <= VersionAt(r, j)
    ensures i <= j
  {}

  lemma {:induction false} StoredSnoc(versions: seq<int>, v: int)
    ensures Stored(versions + [v]) == if v > Stored(versions) then v else Stored(versions)
  {
    assert (versions + [v])[..|versions|] == versions;
  }

  /** The record of the next migration. */
  lemma RecordNext<S>(r: Release<S>, st: Store<S>, j: nat)
    requires r.WellOrdered() && AtVersion(r, st, j) && j < |r.migrations|
    ensures var after := Do(r, st, Record(r.migrations[j].to));
            AtVersion(r, after, j + 1) && after.schema == st.schema
  {
    var v := r.migrations[j].to;
    VersionsAscend(r, j, j + 1);
    StoredSnoc(st.versions, v);
    var versions := st.versions + [v];
    assert VersionAt(r, j + 1) == v;
    forall w | w in versions ensures exists i: nat :: i <= j + 1 && w == VersionAt(r, i) {
      if w in st.versions {
        var i: nat :| i <= j && w == VersionAt(r, i);
      }
    }
  }

  lemma FirstRecord<S>(r: Release<S>, st: Store<S>)
    requires st.versions == []
    ensures AtVersion(r, Do(r, st, Record(1)), 0) && Do(r, st, Record(1)).schema == st.schema
  {
    StoredSnoc([], 1);
    assert [] + [1] == [1];
  }

  lemma {:induction false} DoAllFirst<S>(r: Release<S>, st: Store<S>, ops: seq<Op>)
    requires ops != []
    ensures DoAll(r, st, ops) == DoAll(r, Do(r, st, ops[0]), ops[1..])
  {
    assert ops == [ops[0]] + ops[1..];
    DoAllConcat(r, st, [ops[0]], ops[1..]);
    assert [ops[0]][..0] == [];
    assert DoAll(r, st, [ops[0]]) == Do(r, DoAll(r, st, []), ops[0]);
  }

  /** Where `m` of the statements behind migration `j` lead. */
  function RecordedBy(j: nat, m: nat): nat {
    j + m / 2
  }

  function AppliedBy<S>(r: Release<S>, j: nat, m: nat): nat {
    |r.baseline| + j + (m + 1) / 2
  }

  lemma RestStarts<S>(r: Release<S>, j: nat, m: nat)
    requires j < |r.migrations| && 1 <= m <= |Rest(r, j)|
    ensures var ops := Rest(r, j)[..m];
            && ops[0] == Apply(|r.baseline| + j) && (m == 1 ==> ops[1..] == [])
            && (m > 1 ==>
                  ops[1..] != [] && ops[1..][0] == Record(r.migrations[j].to)
                  && ops[1..][1..] == Rest(r, j + 1)[..m - 2])
  {}

  lemma StepsOn<S>(r: Release<S>, x: S, from: nat, to: nat)
    requires from < to <= |r.Steps()|
    ensures Run(x, r.Steps()[from..to]) == Run(r.Steps()[from](x), r.Steps()[from + 1..to])
  {
    assert r.Steps()[from..to] == [r.Steps()[from]] + r.Steps()[from + 1..to];
    RunConcat(x, [r.Steps()[from]], r.Steps()[from + 1..to]);
    RunOne(x, r.Steps()[from]);
  }

  lemma {:induction false} RestDoes<S>(r: Release<S>, st: Store<S>, j: nat, m: nat)
    requires r.WellOrdered() && AtVersion(r, st, j) && m <= |Rest(r, j)|
    ensures AppliedBy(r, j, m) <= |r.Steps()|
    ensures var after := DoAll(r, st, Rest(r, j)[..m]);
            && AtVersion(r, after, RecordedBy(j, m))
            && after.schema == Run(st.schema, r.Steps()[|r.baseline| + j..AppliedBy(r, j, m)])
    decreases |r.migrations| - j
  {
    hide AtVersion, Do, DoAll, Release.WellOrdered, Rest, Run, Release.Steps;
    VersionExists(r, st, j);
    var from, to := |r.baseline| + j, AppliedBy(r, j, m);
    NothingDone(r, st);
    if m > 0 {
      RestStarts(r, j, m);
      var ops := Rest(r, j)[..m];
      DoAllFirst(r, st, ops);
      var one := Do(r, st, Apply(from));
      ApplyNext(r, st, j);
      StepsOn(r, st.schema, from, to);
      NothingDone(r, one);
      if m > 1 {
        DoAllFirst(r, one, ops[1..]);
        RecordNext(r, one, j);
        RestDoes(r, Do(r, one, Record(r.migrations[j].to)), j + 1, m - 2);
      } else {
        NothingRun(one.schema, r.Steps(), to);
      }
    } else {
      NothingRun(st.schema, r.Steps(), to);
    }
  }

  lemma NothingRun<S>(x: S, steps: seq<S -> S>, k: nat)
    requires k <= |steps|
    ensures Run(x, steps[k..k]) == x
  {
    assert steps[k..k] == [];
  }

  lemma VersionExists<S>(r: Release<S>, st: Store<S>, j: nat)
    requires AtVersion(r, st, j)
    ensures j <= |r.migrations|
  {}

  lemma NothingDone<S>(r: Release<S>, st: Store<S>)
    ensures DoAll(r, st, []) == st
  {}

  lemma ApplyNext<S>(r: Release<S>, st: Store<S>, j: nat)
    requires AtVersion(r, st, j) && j < |r.migrations|
    ensures var after := Do(r, st, Apply(|r.baseline| + j));
            AtVersion(r, after, j) && after.schema == r.Steps()[|r.baseline| + j](st.schema)
  {}

  // ---------- how far a run gets ----------

  /** The number of steps up to the last one that these statements include. */
  function Gets(ops: seq<Op>): nat {
    if ops == [] then 0
    else if ops[|ops| - 1].Apply? then ops[|ops| - 1].step + 1 else Gets(ops[..|ops| - 1])
  }

  lemma {:induction false} GetsConcat(a: seq<Op>, b: seq<Op>)
    ensures Gets(a + b) == if Gets(b) > 0 then Gets(b) else Gets(a)
  {
    if b == [] {
      assert a + b == a;
    } else {
      assert (a + b)[..|a + b| - 1] == a + b[..|b| - 1];
      GetsConcat(a, b[..|b| - 1]);
    }
  }

  lemma {:induction false} GetsBaseline(n: nat, c: nat)
    requires c <= n + 1
    ensures Gets(Baseline(n)[..c]) == if c <= n then c else n
  {
    if c > n {
      assert Baseline(n)[..c][..n] == Baseline(n)[..n];
      GetsBaseline(n, n);
    }
  }

  lemma {:induction false} RestAt<S>(r: Release<S>, j: nat, i: nat)
    requires j <= |r.migrations| && i < |Rest(r, j)|
    ensures Rest(r, j)[i] == if i % 2 == 0 then Apply(|r.baseline| + j + i / 2) else Record(r.migrations[j + i / 2].to)
    decreases i
  {
    if i >= 2 {
      RestAt(r, j + 1, i - 2);
    }
  }

  lemma {:induction false} GetsRest<S>(r: Release<S>, j: nat, m: nat)
    requires j <= |r.migrations| && m <= |Rest(r, j)|
    ensures Gets(Rest(r, j)[..m]) == if m == 0 then 0 else AppliedBy(r, j, m)
  {
    hide Rest;
    if m > 0 {
      RestAt(r, j, m - 1);
      assert Rest(r, j)[..m][..m - 1] == Rest(r, j)[..m - 1];
      if m > 1 && m % 2 == 0 {
        RestAt(r, j, m - 2);
        assert Rest(r, j)[..m - 1][..m - 2] == Rest(r, j)[..m - 2];
      }
    }
  }

  function Most(a: nat, b: nat): nat {
    if a < b then b else a
  }

  ghost function AttemptGets<S>(a: Attempt<S>, st: Store<S>): nat {
    if Stored(st.versions) > a.release.current then 0
    else Gets(Script(a.release, Stored(st.versions))[..a.Statements(st)])
  }

  /** The most steps that any of the attempts has come to. */
  ghost function Furthest<S>(st: Store<S>, attempts: seq<Attempt<S>>): nat {
    if attempts == [] then 0
    else
      var before := attempts[..|attempts| - 1];
      Most(Furthest(st, before), AttemptGets(attempts[|attempts| - 1], AfterAll(st, before)))
  }

  // ---------- older releases ----------

  lemma {:induction false} RestExtends<S>(later: Release<S>, r: Release<S>, j: nat)
    requires Extends(later, r) && j <= |r.migrations|
    ensures Rest(r, j) <= Rest(later, j)
    decreases |r.migrations| - j
  {
    if j < |r.migrations| {
      RestExtends(later, r, j + 1);
      assert r.migrations[j] == later.migrations[j];
    }
  }

  /** Statements whose steps the older release has do the same under both. */
  lemma {:induction false} DoAllAgree<S>(later: Release<S>, r: Release<S>, st: Store<S>, ops: seq<Op>)
    requires Extends(later, r) && forall op :: op in ops && op.Apply? ==> op.step < |r.Steps()|
    ensures DoAll(r, st, ops) == DoAll(later, st, ops)
  {
    if ops != [] {
      var n := |ops| - 1;
      DoAllAgree(later, r, st, ops[..n]);
      assert ops[n] in ops;
      if ops[n].Apply? {
        StepAgrees(later, r, ops[n].step);
      }
    }
  }

  lemma StepAgrees<S>(later: Release<S>, r: Release<S>, i: nat)
    requires Extends(later, r) && i < |r.Steps()|
    ensures i < |later.Steps()| && later.Steps()[i] == r.Steps()[i]
  {
    if i >= |r.baseline| {
      assert r.migrations[i - |r.baseline|] == later.migrations[i - |r.baseline|];
    }
  }

  /** A database that runs of a release have made, as far as its versions go. */
  ghost predicate Dated<S>(r: Release<S>, st: Store<S>) {
    st.versions == [] || exists j: nat :: AtVersion(r, st, j)
  }

  lemma ScriptSteps<S>(r: Release<S>, stored: int, j: nat)
    requires r.WellOrdered() && j <= |r.migrations| && (stored == 0 || stored == VersionAt(r, j))
    ensures forall op :: op in Script(r, stored) && op.Apply? ==> op.step < |r.Steps()|
  {
    hide Rest, Script;
    ScriptInOrder(r, j);
    RestSteps(r, j);
    RestSteps(r, 0);
  }

  lemma RestSteps<S>(r: Release<S>, j: nat)
    requires j <= |r.migrations|
    ensures forall op :: op in Rest(r, j) && op.Apply? ==> op.step < |r.Steps()|
  {
    forall op | op in Rest(r, j) && op.Apply? ensures op.step < |r.Steps()| {
      var i :| 0 <= i < |Rest(r, j)| && Rest(r, j)[i] == op;
      RestAt(r, j, i);
    }
  }

  /** An older release knows the version that it does not refuse, and its script is the head of the later one's. */
  lemma OlderScript<S>(later: Release<S>, r: Release<S>, st: Store<S>)
    requires later.WellOrdered() && r.WellOrdered() && Extends(later, r) && Dated(later, st)
    requires Stored(st.versions) <= r.current
    ensures Script(r, Stored(st.versions)) <= Script(later, Stored(st.versions))
    ensures forall op :: op in Script(r, Stored(st.versions)) && op.Apply? ==> op.step < |r.Steps()|
    ensures Stored(st.versions) <= later.current
  {
    hide Rest, Script, Release.Steps;
    CurrentAscends(later, r);
    if st.versions == [] {
      ScriptInOrder(r, 0);
      ScriptInOrder(later, 0);
      RestExtends(later, r, 0);
      ScriptSteps(r, 0, 0);
    } else {
      var j: nat :| AtVersion(later, st, j);
      OlderKnows(later, r, j);
      ScriptInOrder(r, j);
      ScriptInOrder(later, j);
      RestExtends(later, r, j);
      ScriptSteps(r, VersionAt(r, j), j);
    }
  }

  lemma CurrentAscends<S>(later: Release<S>, r: Release<S>)
    requires later.WellOrdered() && r.WellOrdered() && Extends(later, r)
    ensures r.current == VersionAt(later, |r.migrations|) <= later.current
            && later.current == VersionAt(later, |later.migrations|)
  {
    if |r.migrations| < |later.migrations| {
      VersionsAscend(later, |r.migrations|, |later.migrations|);
    }
  }

  lemma OlderKnows<S>(later: Release<S>, r: Release<S>, j: nat)
    requires later.WellOrdered() && r.WellOrdered() && Extends(later, r) && j <= |later.migrations|
    requires VersionAt(later, j) <= r.current
    ensures j <= |r.migrations| && VersionAt(r, j) == VersionAt(later, j)
  {
    CurrentAscends(later, r);
    VersionsOrdered(later, j, |r.migrations|);
  }

  /** So an attempt of an older release is one of the later release that is stopped no later. */
  lemma OlderAttempt<S>(later: Release<S>, a: Attempt<S>, st: Store<S>) returns (c: nat)
    requires later.WellOrdered() && a.release.WellOrdered() && Extends(later, a.release) && Dated(later, st)
    ensures Stored(st.versions) <= later.current && c <= |Script(later, Stored(st.versions))|
    ensures a.After(st) == AfterRun(later, st, c)
    ensures AttemptGets(a, st) == Gets(Script(later, Stored(st.versions))[..c])
    ensures a.release == later && a.statements <= |Script(later, Stored(st.versions))| ==> c == a.statements
  {
    hide Script, Dated, Release.WellOrdered, DoAll, Extends;
    var v := Stored(st.versions);
    DatedInRange(later, st);
    if v > a.release.current {
      c := 0;
      NothingDone(later, st);
      assert Script(later, v)[..0] == [];
    } else {
      OlderScript(later, a.release, st);
      c := a.Statements(st);
      var ops := Script(a.release, v)[..c];
      assert ops == Script(later, v)[..c];
      assert forall op :: op in ops ==> op in Script(a.release, v);
      DoAllAgree(later, a.release, st, ops);
    }
  }

  lemma DatedInRange<S>(r: Release<S>, st: Store<S>)
    requires r.WellOrdered() && Dated(r, st)
    ensures 0 <= Stored(st.versions) <= r.current
  {
    if st.versions != [] {
      var j: nat :| AtVersion(r, st, j);
      CurrentAscends(r, r);
      if j < |r.migrations| {
        VersionsAscend(r, j, |r.migrations|);
      } else if j > 0 {
        VersionsAscend(r, 0, j);
      }
    }
  }

  // ---------- the two phases of a run ----------

  /** A run that gets past the baseline of an undated database. */
  lemma PastBaseline<S>(r: Release<S>, st: Store<S>, c: nat) returns (dated: Store<S>)
    requires r.WellOrdered() && st.versions == [] && |r.baseline| < c <= |Script(r, 0)|
    ensures AtVersion(r, dated, 0) && dated.schema == Run(st.schema, r.baseline)
    ensures c - |r.baseline| - 1 <= |Rest(r, 0)|
    ensures DoAll(r, st, Script(r, 0)[..c]) == DoAll(r, dated, Rest(r, 0)[..c - |r.baseline| - 1])
    ensures Gets(Script(r, 0)[..c]) ==
            if c == |r.baseline| + 1 then |r.baseline| else AppliedBy(r, 0, c - |r.baseline| - 1)
  {
    hide Rest, Script, Gets, DoAll, AtVersion;
    var n := |r.baseline|;
    ScriptInOrder(r, 0);
    var base := Baseline(n);
    assert Script(r, 0)[..c] == base + Rest(r, 0)[..c - n - 1];
    DoAllConcat(r, st, base, Rest(r, 0)[..c - n - 1]);
    BaselineDoes(r, st, n);
    assert r.baseline[..n] == r.baseline && base[..n + 1] == base;
    DoAllSnoc(r, st, base, n);
    dated := DoAll(r, st, base);
    FirstRecord(r, st.(schema := Run(st.schema, r.baseline)));
    GetsConcat(base, Rest(r, 0)[..c - n - 1]);
    GetsBaseline(n, n + 1);
    GetsRest(r, 0, c - n - 1);
  }

  lemma WithinBaseline<S>(r: Release<S>, st: Store<S>, c: nat)
    requires r.WellOrdered() && st.versions == [] && c <= |r.baseline|
    ensures c <= |Script(r, 0)|
    ensures DoAll(r, st, Script(r, 0)[..c]) == st.(schema := Run(st.schema, r.baseline[..c]))
    ensures Gets(Script(r, 0)[..c]) == c
  {
    hide Rest, Script, Gets, DoAll;
    ScriptInOrder(r, 0);
    assert Script(r, 0)[..c] == Baseline(|r.baseline|)[..c];
    BaselineDoes(r, st, c);
    GetsBaseline(|r.baseline|, c);
  }

  /** A migration given again right behind itself changes nothing. */
  ghost predicate HarmlessMigration<S>(r: Release<S>, empty: S, j: nat)
    requires j < |r.migrations|
  {
    r.migrations[j].effect(Upto(r, empty, |r.baseline| + j + 1)) == Upto(r, empty, |r.baseline| + j + 1)
  }

  ghost predicate HarmlessMigrations<S>(r: Release<S>, empty: S) {
    forall j :: 0 <= j < |r.migrations| ==> HarmlessMigration(r, empty, j)
  }

  /** `j` migrations are recorded, and at most one more is applied. */
  ghost predicate Between<S>(r: Release<S>, empty: S, st: Store<S>, j: nat, k: nat) {
    && AtVersion(r, st, j) && |r.baseline| + j <= k <= |r.baseline| + j + 1 && k <= |r.Steps()|
    && st.schema == Upto(r, empty, k)
  }

  /** Steps taken up one step too early, where that step is harmless. */
  lemma TakenUpEarly<S>(r: Release<S>, empty: S, j: nat, to: nat)
    requires j < |r.migrations| && HarmlessMigration(r, empty, j) && |r.baseline| + j < to <= |r.Steps()|
    ensures Run(Upto(r, empty, |r.baseline| + j + 1), r.Steps()[|r.baseline| + j..to]) == Upto(r, empty, to)
  {
    hide Upto;
    var from := |r.baseline| + j;
    var x := Upto(r, empty, from + 1);
    StepsOn(r, x, from, to);
    assert r.Steps()[from] == r.migrations[j].effect;
    UptoOn(r, empty, from + 1, to);
  }

  lemma UptoOn<S>(r: Release<S>, empty: S, from: nat, to: nat)
    requires from <= to <= |r.Steps()|
    ensures Upto(r, empty, to) == Run(Upto(r, empty, from), r.Steps()[from..to])
  {
    assert r.Steps()[..to] == r.Steps()[..from] + r.Steps()[from..to];
    RunConcat(empty, r.Steps()[..from], r.Steps()[from..to]);
  }

  lemma MigrationPhase<S>(r: Release<S>, empty: S, st: Store<S>, j: nat, k: nat, m: nat) returns (k': nat)
    requires r.WellOrdered() && HarmlessMigrations(r, empty) && Between(r, empty, st, j, k)
    requires m <= |Rest(r, j)|
    ensures Between(r, empty, DoAll(r, st, Rest(r, j)[..m]), RecordedBy(j, m), k')
    ensures k' == if m == 0 then k else Most(k, AppliedBy(r, j, m))
  {
    hide Rest, DoAll, Release.WellOrdered, AtVersion, Upto, Run, Release.Steps;
    RestDoes(r, st, j, m);
    var from, to := |r.baseline| + j, AppliedBy(r, j, m);
    k' := Most(k, to);
    if k == from {
      UptoOn(r, empty, from, to);
    } else if m > 0 {
      VersionExists(r, st, j);
      TakenUpEarly(r, empty, j, to);
    } else {
      NothingRun(st.schema, r.Steps(), from);
    }
  }

  // ---------- the exact conditions ----------

  /** A baseline statement given again at a place that an interrupted baseline has come to changes nothing. */
  ghost predicate HarmlessBaseline<S>(r: Release<S>, empty: S) {
    forall i, k :: 0 <= i < k <= |r.baseline| ==>
      r.baseline[i](Run(empty, r.baseline[..k])) == Run(empty, r.baseline[..k])
  }

  /** The schemas that baseline runs stopped behind `cuts[0]`, `cuts[1]`, ... statements leave. */
  ghost function Resumed<S>(x: S, baseline: seq<S -> S>, cuts: seq<nat>): S {
    if cuts == [] then x
    else
      var cut := cuts[|cuts| - 1];
      Run(Resumed(x, baseline, cuts[..|cuts| - 1]), baseline[..if cut < |baseline| then cut else |baseline|])
  }

  /** However often the baseline was interrupted, a whole one gives the schema of a whole one from scratch. */
  ghost predicate BaselineRecovers<S>(r: Release<S>, empty: S) {
    forall cuts :: Run(Resumed(empty, r.baseline, cuts), r.baseline) == Run(empty, r.baseline)
  }

  /** After any attempts the schema is that of the steps so far, each applied once. */
  ghost predicate KeepsProgress<S(!new)>(r: Release<S>, empty: S) {
    forall attempts :: Releases(r, attempts) ==>
      var far := Furthest(Store(empty, []), attempts);
      far <= |r.Steps()| && AfterAll(Store(empty, []), attempts).schema == Upto(r, empty, far)
  }

  /** The release, and every one before it, ends with its own schema after any attempts and one whole run. */
  ghost predicate Converges<S(!new)>(r: Release<S>, empty: S) {
    forall older, attempts :: Extends(r, older) && older.WellOrdered() && Releases(older, attempts) ==>
      AfterWholeRun(older, AfterAll(Store(empty, []), attempts)) == Run(empty, older.Steps())
  }

  // ---------- one run ----------

  ghost predicate Reached<S>(r: Release<S>, empty: S, st: Store<S>, k: nat) {
    || (st.versions == [] && k <= |r.baseline| && st.schema == Upto(r, empty, k))
    || exists j: nat :: Between(r, empty, st, j, k)
  }

  lemma ReachedIsDated<S>(r: Release<S>, empty: S, st: Store<S>, k: nat)
    requires Reached(r, empty, st, k)
    ensures Dated(r, st) && k <= |r.Steps()| && st.schema == Upto(r, empty, k)
  {
    hide AtVersion;
  }

  lemma ReachedUndated<S>(r: Release<S>, empty: S, st: Store<S>, k: nat)
    requires r.WellOrdered() && Reached(r, empty, st, k) && st.versions == []
    ensures k <= |r.baseline| && st.schema == Upto(r, empty, k)
  {
    assert forall j: nat :: j <= |r.migrations| ==> VersionAt(r, j) >= 1;
  }

  lemma {:induction false} ReplayBaseline<S>(r: Release<S>, empty: S, k: nat, c: nat)
    requires HarmlessBaseline(r, empty) && k <= |r.baseline| && c <= |r.baseline|
    ensures Run(Run(empty, r.baseline[..k]), r.baseline[..c]) == Run(empty, r.baseline[..Most(k, c)])
  {
    if c > 0 {
      ReplayBaseline(r, empty, k, c - 1);
      assert r.baseline[..c][..c - 1] == r.baseline[..c - 1];
    }
  }

  /** Where a run of the release itself leads from a place that runs have come to. */
  lemma OwnRunReaches<S>(r: Release<S>, empty: S, st: Store<S>, k: nat, c: nat) returns (k': nat)
    requires r.WellOrdered() && HarmlessBaseline(r, empty) && HarmlessMigrations(r, empty) && Reached(r, empty, st, k)
    requires Stored(st.versions) <= r.current && c <= |Script(r, Stored(st.versions))|
    ensures Reached(r, empty, AfterRun(r, st, c), k') && k' == Most(k, Gets(Script(r, Stored(st.versions))[..c]))
    ensures c == |Script(r, Stored(st.versions))| ==> k' == |r.Steps()|
  {
    hide Script, DoAll, Gets, AtVersion, HarmlessBaseline, HarmlessMigrations, Release.WellOrdered, Rest, Upto;
    var n := |r.baseline|;
    ScriptInOrder(r, 0);
    if st.versions == [] {
      ReachedUndated(r, empty, st, k);
      UptoBaseline(r, empty, k);
      if c <= n {
        WithinBaseline(r, st, c);
        k' := Most(k, c);
        ReplayBaseline(r, empty, k, c);
        UptoBaseline(r, empty, k');
      } else {
        var dated := PastBaseline(r, st, c);
        ReplayBaseline(r, empty, k, n);
        assert r.baseline[..n] == r.baseline;
        UptoBaseline(r, empty, n);
        assert Between(r, empty, dated, 0, n);
        k' := MigrationPhase(r, empty, dated, 0, n, c - n - 1);
      }
    } else {
      var j: nat :| Between(r, empty, st, j, k);
      VersionExists(r, st, j);
      k' := DatedRunReaches(r, empty, st, j, k, c);
    }
  }

  lemma DatedRunReaches<S>(r: Release<S>, empty: S, st: Store<S>, j: nat, k: nat, c: nat) returns (k': nat)
    requires r.WellOrdered() && HarmlessMigrations(r, empty) && Between(r, empty, st, j, k)
    requires c <= |Script(r, Stored(st.versions))|
    ensures Stored(st.versions) <= r.current
    ensures Between(r, empty, AfterRun(r, st, c), RecordedBy(j, c), k')
    ensures k' == Most(k, Gets(Script(r, Stored(st.versions))[..c]))
    ensures c == |Script(r, Stored(st.versions))| ==> k' == |r.Steps()|
  {
    hide Script, DoAll, Gets, HarmlessMigrations, Release.WellOrdered, Rest, Upto;
    assert Dated(r, st);
    DatedInRange(r, st);
    ScriptInOrder(r, j);
    GetsRest(r, j, c);
    k' := MigrationPhase(r, empty, st, j, k, c);
  }

  /** One run, of this release or an older one, stopped anywhere: it gets no less far than any run before it. */
  lemma RunReaches<S>(r: Release<S>, empty: S, a: Attempt<S>, st: Store<S>, k: nat) returns (k': nat)
    requires r.WellOrdered() && a.release.WellOrdered() && Extends(r, a.release)
    requires HarmlessBaseline(r, empty) && HarmlessMigrations(r, empty) && Reached(r, empty, st, k)
    ensures Reached(r, empty, a.After(st), k') && k' == Most(k, AttemptGets(a, st))
  {
    hide HarmlessBaseline, HarmlessMigrations, Release.WellOrdered, Reached, Script, Gets, AfterRun, AttemptGets,
      Attempt.After;
    ReachedIsDated(r, empty, st, k);
    var c := OlderAttempt(r, a, st);
    k' := OwnRunReaches(r, empty, st, k, c);
  }

  lemma {:induction false} AttemptsReach<S(!new)>(r: Release<S>, empty: S, attempts: seq<Attempt<S>>)
    requires r.WellOrdered() && HarmlessBaseline(r, empty) && HarmlessMigrations(r, empty) && Releases(r, attempts)
    ensures Reached(r, empty, AfterAll(Store(empty, []), attempts), Furthest(Store(empty, []), attempts))
  {
    hide HarmlessBaseline, HarmlessMigrations, Release.WellOrdered, AttemptGets, Attempt.After, Reached;
    if attempts == [] {
      AtStart(r, empty);
    } else {
      var n := |attempts| - 1;
      AttemptsReach(r, empty, attempts[..n]);
      assert attempts[n] in attempts;
      var before := AfterAll(Store(empty, []), attempts[..n]);
      var k' := RunReaches(r, empty, attempts[n], before, Furthest(Store(empty, []), attempts[..n]));
    }
  }

  lemma AtStart<S>(r: Release<S>, empty: S)
    ensures Reached(r, empty, Store(empty, []), 0)
  {
    assert r.Steps()[..0] == [];
  }

  /**
   After any runs of this and older releases, each stopped anywhere: the schema is that of the steps so
   far, each as if applied once; a recorded version means that all steps up to it are among them; and one
   whole run gives the schema of a run from scratch.
   */
  lemma MigrationConverges<S(!new)>(r: Release<S>, empty: S, attempts: seq<Attempt<S>>)
    requires r.WellOrdered() && HarmlessBaseline(r, empty) && HarmlessMigrations(r, empty) && Releases(r, attempts)
    ensures var st, far := AfterAll(Store(empty, []), attempts), Furthest(Store(empty, []), attempts);
            && far <= |r.Steps()| && st.schema == Upto(r, empty, far) && Stored(st.versions) <= r.current
            && (forall v :: v in st.versions ==>
                  exists j: nat :: j <= |r.migrations| && v == VersionAt(r, j) && |r.baseline| + j <= far)
            && AfterWholeRun(r, st) == Run(empty, r.Steps())
  {
    hide HarmlessBaseline, HarmlessMigrations, Release.WellOrdered, Script, AfterAll, Furthest, Gets, AfterRun, Upto;
    var st, far := AfterAll(Store(empty, []), attempts), Furthest(Store(empty, []), attempts);
    AttemptsReach(r, empty, attempts);
    ReachedIsDated(r, empty, st, far);
    DatedInRange(r, st);
    var k' := OwnRunReaches(r, empty, st, far, |Script(r, Stored(st.versions))|);
    ReachedIsDated(r, empty, AfterRun(r, st, |Script(r, Stored(st.versions))|), k');
    UptoAll(r, empty);
  }

  // ---------- and their necessity ----------

  /** A run of the release itself that is stopped behind `c` statements of its script. */
  lemma OwnAttempt<S>(r: Release<S>, st: Store<S>, c: nat)
    requires Stored(st.versions) <= r.current && c <= |Script(r, Stored(st.versions))|
    ensures Attempt(r, c).After(st) == DoAll(r, st, Script(r, Stored(st.versions))[..c])
    ensures AttemptGets(Attempt(r, c), st) == Gets(Script(r, Stored(st.versions))[..c])
  {}

  lemma AfterMore<S>(st: Store<S>, attempts: seq<Attempt<S>>, a: Attempt<S>)
    ensures AfterAll(st, attempts + [a]) == a.After(AfterAll(st, attempts))
    ensures Furthest(st, attempts + [a]) == Most(Furthest(st, attempts), AttemptGets(a, AfterAll(st, attempts)))
  {
    assert (attempts + [a])[..|attempts|] == attempts;
  }

  /** The release's own baseline run that is stopped behind `c` statements. */
  lemma StopsInBaseline<S>(r: Release<S>, st: Store<S>, c: nat)
    requires r.WellOrdered() && st.versions == [] && c <= |r.baseline|
    ensures Attempt(r, c).After(st) == st.(schema := Run(st.schema, r.baseline[..c]))
    ensures AttemptGets(Attempt(r, c), st) == c
  {
    hide Script, Gets, DoAll;
    ScriptInOrder(r, 0);
    StartInRange(r);
    WithinBaseline(r, st, c);
    OwnAttempt(r, st, c);
  }

  lemma StartInRange<S>(r: Release<S>)
    requires r.WellOrdered()
    ensures r.current >= 1
  {}

  /** A run from scratch that applies migration `j` and is stopped before its record. */
  lemma StopsBehindMigration<S>(r: Release<S>, empty: S, j: nat) returns (a: Attempt<S>)
    requires r.WellOrdered() && j < |r.migrations|
    ensures a.release == r
    ensures var st := a.After(Store(empty, []));
            AtVersion(r, st, j) && st.schema == Upto(r, empty, |r.baseline| + j + 1)
            && AttemptGets(a, Store(empty, [])) == |r.baseline| + j + 1
  {
    hide Script, Gets, DoAll, AtVersion, Rest, Upto, Release.WellOrdered, AppliedBy, RecordedBy, Run;
    var n := |r.baseline|;
    var c := n + 1 + 2 * j + 1;
    ScriptInOrder(r, 0);
    StartInRange(r);
    a := Attempt(r, c);
    var st := Store(empty, []);
    OwnAttempt(r, st, c);
    var dated := PastBaseline(r, st, c);
    RestDoes(r, dated, 0, 2 * j + 1);
    StopCounts(r, j);
    UptoPast(r, empty, j + 1);
  }

  lemma StopCounts<S>(r: Release<S>, j: nat)
    ensures AppliedBy(r, 0, 2 * j + 1) == |r.baseline| + j + 1 && RecordedBy(0, 2 * j + 1) == j
  {}

  lemma UptoPast<S>(r: Release<S>, empty: S, m: nat)
    requires m <= |r.migrations|
    ensures var n := |r.baseline|;
            Upto(r, empty, n + m) == Run(Run(empty, r.baseline), r.Steps()[n..n + m])
  {
    var n := |r.baseline|;
    UptoBaseline(r, empty, n);
    assert r.baseline[..n] == r.baseline;
    UptoOn(r, empty, n, n + m);
  }

  /** The next statement for such a database is the migration again. */
  lemma GivesAgain<S>(r: Release<S>, st: Store<S>, j: nat)
    requires r.WellOrdered() && AtVersion(r, st, j) && j < |r.migrations|
    ensures Stored(st.versions) <= r.current && |Script(r, Stored(st.versions))| >= 2
    ensures Attempt(r, 1).After(st).schema == r.migrations[j].effect(st.schema)
    ensures AttemptGets(Attempt(r, 1), st) == |r.baseline| + j + 1
  {
    hide Script, Gets, DoAll, Rest, Release.WellOrdered;
    assert Dated(r, st);
    DatedInRange(r, st);
    ScriptInOrder(r, j);
    OwnAttempt(r, st, 1);
    RestDoes(r, st, j, 1);
    GetsRest(r, j, 1);
    assert r.Steps()[|r.baseline| + j..|r.baseline| + j + 1] == [r.migrations[j].effect];
    RunOne(st.schema, r.migrations[j].effect);
  }

  lemma Instance<S(!new)>(r: Release<S>, empty: S, attempts: seq<Attempt<S>>)
    requires KeepsProgress(r, empty) && Releases(r, attempts)
    ensures var far := Furthest(Store(empty, []), attempts);
            far <= |r.Steps()| && AfterAll(Store(empty, []), attempts).schema == Upto(r, empty, far)
  {
    hide Furthest, AfterAll, Releases;
  }

  lemma OwnReleases<S>(r: Release<S>, attempts: seq<Attempt<S>>)
    requires r.WellOrdered() && forall a :: a in attempts ==> a.release == r
    ensures Releases(r, attempts)
  {}

  lemma BaselineMustBeHarmless<S(!new)>(r: Release<S>, empty: S, i: nat, k: nat)
    requires r.WellOrdered() && KeepsProgress(r, empty) && i < k <= |r.baseline|
    ensures r.baseline[i](Run(empty, r.baseline[..k])) == Run(empty, r.baseline[..k])
  {
    hide KeepsProgress, AfterAll, Furthest, Attempt.After, AttemptGets, Releases, Release.WellOrdered, Upto;
    var st := Store(empty, []);
    var first := [Attempt(r, k)];
    StopsInBaseline(r, st, k);
    NoAttempts(st);
    AfterMore(st, [], Attempt(r, k));
    assert [] + first == first;
    var stopped := AfterAll(st, first);
    forall c: nat | c <= k ensures Run(stopped.schema, r.baseline[..c]) == Run(empty, r.baseline[..k]) {
      StopsInBaseline(r, stopped, c);
      AfterMore(st, first, Attempt(r, c));
      OwnReleases(r, first + [Attempt(r, c)]);
      Instance(r, empty, first + [Attempt(r, c)]);
      UptoBaseline(r, empty, k);
    }
    assert r.baseline[..i + 1][..i] == r.baseline[..i];
    assert Run(stopped.schema, r.baseline[..i + 1]) == r.baseline[i](Run(stopped.schema, r.baseline[..i]));
  }

  lemma NoAttempts<S>(st: Store<S>)
    ensures AfterAll(st, []) == st && Furthest(st, []) == 0
  {}

  lemma MigrationMustBeHarmless<S(!new)>(r: Release<S>, empty: S, j: nat)
    requires r.WellOrdered() && KeepsProgress(r, empty) && j < |r.migrations|
    ensures HarmlessMigration(r, empty, j)
  {
    hide KeepsProgress, AfterAll, Furthest, Attempt.After, AttemptGets, Releases, Release.WellOrdered, Upto,
      AtVersion;
    var st := Store(empty, []);
    var a := StopsBehindMigration(r, empty, j);
    NoAttempts(st);
    AfterMore(st, [], a);
    assert [] + [a] == [a];
    GivesAgain(r, AfterAll(st, [a]), j);
    AfterMore(st, [a], Attempt(r, 1));
    OwnReleases(r, [a] + [Attempt(r, 1)]);
    Instance(r, empty, [a] + [Attempt(r, 1)]);
  }

  /**
   No attempt ever undoes work, exactly when each statement is harmless at the places where a restart gives
   it again: a baseline statement wherever an interrupted baseline has come to, a migration right behind
   itself. What a statement does anywhere else does not matter.
   */
  lemma KeepsProgressExactly<S(!new)>(r: Release<S>, empty: S)
    requires r.WellOrdered()
    ensures KeepsProgress(r, empty) <==> HarmlessBaseline(r, empty) && HarmlessMigrations(r, empty)
  {
    hide Release.WellOrdered, AfterAll, Furthest, Upto, Releases, HarmlessMigration;
    if KeepsProgress(r, empty) {
      hide KeepsProgress;
      forall i, k | 0 <= i < k <= |r.baseline|
        ensures r.baseline[i](Run(empty, r.baseline[..k])) == Run(empty, r.baseline[..k])
      {
        BaselineMustBeHarmless(r, empty, i, k);
      }
      forall j | 0 <= j < |r.migrations| ensures HarmlessMigration(r, empty, j) {
        MigrationMustBeHarmless(r, empty, j);
      }
    }
    if HarmlessBaseline(r, empty) && HarmlessMigrations(r, empty) {
      hide HarmlessBaseline, HarmlessMigrations;
      forall attempts | Releases(r, attempts)
        ensures var far := Furthest(Store(empty, []), attempts);
                far <= |r.Steps()| && AfterAll(Store(empty, []), attempts).schema == Upto(r, empty, far)
      {
        MigrationConverges(r, empty, attempts);
      }
    }
  }

  // ---------- convergence ----------

  /** Wherever attempts lead when only their outcome has to be right. */
  ghost predicate Recoverable<S>(r: Release<S>, empty: S, st: Store<S>) {
    || (st.versions == [] && exists cuts :: st.schema == Resumed(empty, r.baseline, cuts))
    || exists j: nat, k: nat :: Between(r, empty, st, j, k)
  }

  lemma ResumeMore<S>(empty: S, baseline: seq<S -> S>, cuts: seq<nat>, c: nat)
    requires c <= |baseline|
    ensures Resumed(empty, baseline, cuts + [c]) == Run(Resumed(empty, baseline, cuts), baseline[..c])
  {
    assert (cuts + [c])[..|cuts|] == cuts;
  }

  /** A run of the release itself, stopped anywhere or whole. */
  lemma OwnRunRecovers<S>(r: Release<S>, empty: S, st: Store<S>, c: nat)
    requires r.WellOrdered() && BaselineRecovers(r, empty) && HarmlessMigrations(r, empty) && Recoverable(r, empty, st)
    requires Stored(st.versions) <= r.current && c <= |Script(r, Stored(st.versions))|
    ensures Recoverable(r, empty, AfterRun(r, st, c))
    ensures c == |Script(r, Stored(st.versions))| ==> AfterRun(r, st, c).schema == Run(empty, r.Steps())
  {
    hide Script, DoAll, AtVersion, BaselineRecovers, HarmlessMigrations, Release.WellOrdered, Rest, Upto, Resumed;
    var n := |r.baseline|;
    UptoAll(r, empty);
    ScriptInOrder(r, 0);
    if st.versions == [] {
      var cuts := UndatedResumed(r, empty, st);
      if c <= n {
        WithinBaseline(r, st, c);
        ResumeMore(empty, r.baseline, cuts, c);
      } else {
        var dated := PastBaseline(r, st, c);
        Recovers(r, empty, cuts);
        UptoBaseline(r, empty, n);
        assert r.baseline[..n] == r.baseline;
        assert Between(r, empty, dated, 0, n);
        var k' := MigrationPhase(r, empty, dated, 0, n, c - n - 1);
      }
    } else {
      var j: nat, k: nat :| Between(r, empty, st, j, k);
      var k' := DatedRunReaches(r, empty, st, j, k, c);
    }
  }

  lemma Recovers<S>(r: Release<S>, empty: S, cuts: seq<nat>)
    requires BaselineRecovers(r, empty)
    ensures Run(Resumed(empty, r.baseline, cuts), r.baseline) == Run(empty, r.baseline)
  {
    hide Resumed;
  }

  lemma UndatedResumed<S>(r: Release<S>, empty: S, st: Store<S>) returns (cuts: seq<nat>)
    requires r.WellOrdered() && Recoverable(r, empty, st) && st.versions == []
    ensures st.schema == Resumed(empty, r.baseline, cuts)
  {
    hide Resumed;
    assert forall j: nat :: j <= |r.migrations| ==> VersionAt(r, j) >= 1;
    cuts :| st.schema == Resumed(empty, r.baseline, cuts);
  }

  lemma RecoverableIsDated<S>(r: Release<S>, empty: S, st: Store<S>)
    requires Recoverable(r, empty, st)
    ensures Dated(r, st)
  {
    hide AtVersion, Resumed;
  }

  lemma {:induction false} AttemptsRecover<S>(r: Release<S>, empty: S, attempts: seq<Attempt<S>>)
    requires r.WellOrdered() && BaselineRecovers(r, empty) && HarmlessMigrations(r, empty) && Releases(r, attempts)
    ensures Recoverable(r, empty, AfterAll(Store(empty, []), attempts))
  {
    hide BaselineRecovers, HarmlessMigrations, Release.WellOrdered, Attempt.After, Recoverable, Script, AfterRun,
      AttemptGets, Gets;
    if attempts == [] {
      StartsRecoverable(r, empty);
    } else {
      var n := |attempts| - 1;
      AttemptsRecover(r, empty, attempts[..n]);
      assert attempts[n] in attempts;
      var before := AfterAll(Store(empty, []), attempts[..n]);
      RecoverableIsDated(r, empty, before);
      var c := OlderAttempt(r, attempts[n], before);
      OwnRunRecovers(r, empty, before, c);
    }
  }

  lemma StartsRecoverable<S>(r: Release<S>, empty: S)
    ensures Recoverable(r, empty, Store(empty, []))
  {
    assert Resumed(empty, r.baseline, []) == empty;
  }

  lemma OneConverges<S>(r: Release<S>, empty: S, attempts: seq<Attempt<S>>)
    requires r.WellOrdered() && BaselineRecovers(r, empty) && HarmlessMigrations(r, empty) && Releases(r, attempts)
    ensures AfterWholeRun(r, AfterAll(Store(empty, []), attempts)) == Run(empty, r.Steps())
  {
    hide BaselineRecovers, HarmlessMigrations, Release.WellOrdered, Recoverable, Script, AfterAll, AfterRun, Releases;
    var st := AfterAll(Store(empty, []), attempts);
    AttemptsRecover(r, empty, attempts);
    RecoverableIsDated(r, empty, st);
    DatedInRange(r, st);
    OwnRunRecovers(r, empty, st, |Script(r, Stored(st.versions))|);
  }

  /** The condition passes to every release before. */
  lemma OlderIsHarmless<S>(r: Release<S>, older: Release<S>, empty: S)
    requires Extends(r, older) && BaselineRecovers(r, empty) && HarmlessMigrations(r, empty)
    ensures BaselineRecovers(older, empty) && HarmlessMigrations(older, empty)
  {
    hide Resumed, Run;
    forall j | 0 <= j < |older.migrations| ensures HarmlessMigration(older, empty, j) {
      assert HarmlessMigration(r, empty, j) && older.migrations[j] == r.migrations[j];
      UptoAgrees(r, older, empty, |older.baseline| + j + 1);
    }
  }

  lemma UptoAgrees<S>(r: Release<S>, older: Release<S>, empty: S, k: nat)
    requires Extends(r, older) && k <= |older.Steps()|
    ensures k <= |r.Steps()| && Upto(r, empty, k) == Upto(older, empty, k)
  {
    assert forall i :: 0 <= i < |older.migrations| ==> older.migrations[i] == r.migrations[i];
    assert r.Steps()[..k] == older.Steps()[..k];
  }

  /** Attempts of the release that has the baseline only. */
  function BaselineAttempts<S>(r: Release<S>, cuts: seq<nat>): seq<Attempt<S>> {
    seq(|cuts|, i requires 0 <= i < |cuts| => Attempt(r, if cuts[i] < |r.baseline| then cuts[i] else |r.baseline|))
  }

  lemma {:induction false} BaselineAttemptsResume<S>(r: Release<S>, empty: S, cuts: seq<nat>)
    requires r.WellOrdered()
    ensures AfterAll(Store(empty, []), BaselineAttempts(r, cuts)) == Store(Resumed(empty, r.baseline, cuts), [])
  {
    hide Release.WellOrdered, Attempt.After;
    if cuts != [] {
      var n := |cuts| - 1;
      var all := BaselineAttempts(r, cuts);
      assert all[..n] == BaselineAttempts(r, cuts[..n]);
      BaselineAttemptsResume(r, empty, cuts[..n]);
      StopsInBaseline(r, AfterAll(Store(empty, []), all[..n]), all[n].statements);
    }
  }

  lemma BaselineMustRecover<S(!new)>(r: Release<S>, empty: S, cuts: seq<nat>)
    requires r.WellOrdered() && Converges(r, empty)
    ensures Run(Resumed(empty, r.baseline, cuts), r.baseline) == Run(empty, r.baseline)
  {
    hide Converges, AfterAll, AfterWholeRun, Resumed, Attempt.After, DoAll;
    var r0 := Release(1, r.baseline, []);
    var attempts := BaselineAttempts(r0, cuts);
    BaselineAttemptsResume(r0, empty, cuts);
    ConvergesAt(r, empty, r0, attempts);
    var st := AfterAll(Store(empty, []), attempts);
    WholeBaseline(r0, st);
    assert r0.Steps() == r0.baseline;
  }

  lemma WholeBaseline<S>(r: Release<S>, st: Store<S>)
    requires r.WellOrdered() && r.migrations == [] && st.versions == []
    ensures AfterWholeRun(r, st) == Run(st.schema, r.baseline)
  {
    hide DoAll, Gets;
    ScriptInOrder(r, 0);
    var dated := PastBaseline(r, st, |r.baseline| + 1);
    NothingDone(r, dated);
  }

  lemma ConvergesAt<S(!new)>(r: Release<S>, empty: S, older: Release<S>, attempts: seq<Attempt<S>>)
    requires Converges(r, empty) && Extends(r, older) && older.WellOrdered() && Releases(older, attempts)
    ensures AfterWholeRun(older, AfterAll(Store(empty, []), attempts)) == Run(empty, older.Steps())
  {
    hide AfterAll, AfterWholeRun, Releases, Extends;
  }

  lemma MigrationMustRecover<S(!new)>(r: Release<S>, empty: S, j: nat)
    requires r.WellOrdered() && Converges(r, empty) && j < |r.migrations|
    ensures HarmlessMigration(r, empty, j)
  {
    hide Converges, AfterAll, AfterWholeRun, Attempt.After, Upto, AtVersion, Furthest, AttemptGets;
    var older := Release(r.migrations[j].to, r.baseline, r.migrations[..j + 1]);
    var st := Store(empty, []);
    var a := StopsBehindMigration(older, empty, j);
    NoAttempts(st);
    AfterMore(st, [], a);
    assert [] + [a] == [a];
    ConvergesAt(r, empty, older, [a]);
    LastMigrationAgain(older, AfterAll(st, [a]));
    UptoAll(older, empty);
    UptoAgrees(r, older, empty, |older.baseline| + j + 1);
  }

  lemma LastMigrationAgain<S>(r: Release<S>, st: Store<S>)
    requires r.WellOrdered() && |r.migrations| > 0 && AtVersion(r, st, |r.migrations| - 1)
    ensures AfterWholeRun(r, st) == r.migrations[|r.migrations| - 1].effect(st.schema)
  {
    hide Script, DoAll, Rest, Release.WellOrdered, AtVersion;
    var j := |r.migrations| - 1;
    assert Dated(r, st);
    DatedInRange(r, st);
    assert Stored(st.versions) == VersionAt(r, j) by { StoredIs(r, st, j); }
    ScriptInOrder(r, j);
    RestDoes(r, st, j, 2);
    assert Rest(r, j)[..2] == Rest(r, j);
    assert r.Steps()[|r.baseline| + j..|r.baseline| + j + 1] == [r.migrations[j].effect];
    RunOne(st.schema, r.migrations[j].effect);
  }

  lemma StoredIs<S>(r: Release<S>, st: Store<S>, j: nat)
    requires AtVersion(r, st, j)
    ensures j <= |r.migrations| && Stored(st.versions) == VersionAt(r, j)
  {}

  /**
   A release and all before it converge after any interruptions, exactly when interrupted baselines recover
   and each migration given again right behind itself changes nothing.
   */
  lemma ConvergesExactly<S(!new)>(r: Release<S>, empty: S)
    requires r.WellOrdered()
    ensures Converges(r, empty) <==> BaselineRecovers(r, empty) && HarmlessMigrations(r, empty)
  {
    hide Release.WellOrdered, AfterAll, AfterWholeRun, Releases, Extends, Resumed, Run, HarmlessMigration;
    if Converges(r, empty) {
      hide Converges;
      forall cuts ensures Run(Resumed(empty, r.baseline, cuts), r.baseline) == Run(empty, r.baseline) {
        BaselineMustRecover(r, empty, cuts);
      }
      forall j | 0 <= j < |r.migrations| ensures HarmlessMigration(r, empty, j) {
        MigrationMustRecover(r, empty, j);
      }
    }
    if BaselineRecovers(r, empty) && HarmlessMigrations(r, empty) {
      hide BaselineRecovers, HarmlessMigrations;
      forall older, attempts | Extends(r, older) && older.WellOrdered() && Releases(older, attempts)
        ensures AfterWholeRun(older, AfterAll(Store(empty, []), attempts)) == Run(empty, older.Steps())
      {
        OlderIsHarmless(r, older, empty);
        OneConverges(older, empty, attempts);
      }
    }
  }

  /**
   Marks that an author of a baseline can check one statement at a time: they start at the empty schema, a
   statement leads from mark to mark, a restart from any mark to the first, and the last mark has one schema.
   */
  ghost predicate Marked<S(!new)>(r: Release<S>, empty: S, marks: seq<iset<S>>) {
    && |marks| == |r.baseline| + 1 && empty in marks[0]
    && (forall i, x :: 0 <= i < |r.baseline| && x in marks[i] ==> r.baseline[i](x) in marks[i + 1])
    && (forall i, x :: 0 <= i < |marks| && x in marks[i] ==> x in marks[0])
    && marks[|marks| - 1] <= iset{Run(empty, r.baseline)}
  }

  lemma {:induction false} RunMarked<S(!new)>(r: Release<S>, empty: S, marks: seq<iset<S>>, x: S, k: nat)
    requires Marked(r, empty, marks) && x in marks[0] && k <= |r.baseline|
    ensures Run(x, r.baseline[..k]) in marks[k]
  {
    if k > 0 {
      assert r.baseline[..k][..k - 1] == r.baseline[..k - 1];
      RunMarked(r, empty, marks, x, k - 1);
    }
  }

  lemma {:induction false} ResumedMarked<S(!new)>(r: Release<S>, empty: S, marks: seq<iset<S>>, cuts: seq<nat>)
    requires Marked(r, empty, marks)
    ensures Resumed(empty, r.baseline, cuts) in marks[0]
  {
    hide Marked;
    assert |marks| == |r.baseline| + 1 && empty in marks[0] by { MarksStart(r, empty, marks); }
    if cuts != [] {
      var n := |cuts| - 1;
      ResumedMarked(r, empty, marks, cuts[..n]);
      var k := if cuts[n] < |r.baseline| then cuts[n] else |r.baseline|;
      RunMarked(r, empty, marks, Resumed(empty, r.baseline, cuts[..n]), k);
      MarksRestart(r, empty, marks, k, Resumed(empty, r.baseline, cuts));
    }
  }

  lemma MarksStart<S(!new)>(r: Release<S>, empty: S, marks: seq<iset<S>>)
    requires Marked(r, empty, marks)
    ensures |marks| == |r.baseline| + 1 && empty in marks[0]
  {}

  lemma MarksRestart<S(!new)>(r: Release<S>, empty: S, marks: seq<iset<S>>, i: nat, x: S)
    requires Marked(r, empty, marks) && i < |marks| && x in marks[i]
    ensures x in marks[0]
  {}

  /** An interrupted baseline comes to its statement number `i` with this schema. */
  ghost predicate Visited<S(!new)>(r: Release<S>, empty: S, i: nat, x: S)
    requires i <= |r.baseline|
  {
    exists cuts :: x == Run(Resumed(empty, r.baseline, cuts), r.baseline[..i])
  }

  ghost function Visits<S(!new)>(r: Release<S>, empty: S, i: nat): iset<S>
    requires i <= |r.baseline|
  {
    iset x: S | Visited(r, empty, i, x)
  }

  lemma VisitsRestart<S(!new)>(r: Release<S>, empty: S, i: nat, x: S)
    requires i <= |r.baseline| && x in Visits(r, empty, i)
    ensures x in Visits(r, empty, 0)
  {
    hide Run;
    var cuts :| x == Run(Resumed(empty, r.baseline, cuts), r.baseline[..i]);
    var more := cuts + [i];
    assert more[..|more| - 1] == cuts;
    assert x == Resumed(empty, r.baseline, more);
    RunNothing(x);
    assert r.baseline[..0] == [];
  }

  lemma VisitsStep<S(!new)>(r: Release<S>, empty: S, i: nat, x: S)
    requires i < |r.baseline| && x in Visits(r, empty, i)
    ensures r.baseline[i](x) in Visits(r, empty, i + 1)
  {
    hide Resumed;
    var cuts :| x == Run(Resumed(empty, r.baseline, cuts), r.baseline[..i]);
    assert r.baseline[..i + 1][..i] == r.baseline[..i];
    assert r.baseline[i](x) == Run(Resumed(empty, r.baseline, cuts), r.baseline[..i + 1]);
  }

  lemma RunNothing<S>(x: S)
    ensures Run(x, []) == x
  {}

  lemma VisitsMark<S(!new)>(r: Release<S>, empty: S) returns (marks: seq<iset<S>>)
    requires BaselineRecovers(r, empty)
    ensures Marked(r, empty, marks)
  {
    hide Run, Resumed, Visits;
    var n := |r.baseline|;
    marks := seq(n + 1, i requires 0 <= i <= n => Visits(r, empty, i));
    EmptyVisited(r, empty);
    forall i, x | 0 <= i < n && x in marks[i] ensures r.baseline[i](x) in marks[i + 1] {
      VisitsStep(r, empty, i, x);
    }
    forall i, x | 0 <= i <= n && x in marks[i] ensures x in marks[0] {
      VisitsRestart(r, empty, i, x);
    }
    forall x | x in marks[n] ensures x in iset{Run(empty, r.baseline)} {
      VisitedEnd(r, empty, x);
    }
  }

  lemma EmptyVisited<S(!new)>(r: Release<S>, empty: S)
    ensures empty in Visits(r, empty, 0)
  {
    assert Resumed(empty, r.baseline, []) == empty && r.baseline[..0] == [];
    RunNothing(empty);
  }

  lemma VisitedEnd<S(!new)>(r: Release<S>, empty: S, x: S)
    requires BaselineRecovers(r, empty) && x in Visits(r, empty, |r.baseline|)
    ensures x == Run(empty, r.baseline)
  {
    hide Run, Resumed;
    assert r.baseline[..|r.baseline|] == r.baseline;
  }

  /** Interrupted baselines recover exactly when there are such marks. */
  lemma RecoversExactly<S(!new)>(r: Release<S>, empty: S)
    ensures BaselineRecovers(r, empty) <==> exists marks :: Marked(r, empty, marks)
  {
    hide Run, Resumed, Marked;
    if BaselineRecovers(r, empty) {
      var marks := VisitsMark(r, empty);
    }
    if marks :| Marked(r, empty, marks) {
      forall cuts ensures Run(Resumed(empty, r.baseline, cuts), r.baseline) == Run(empty, r.baseline) {
        ResumedMarked(r, empty, marks, cuts);
        MarkedEnd(r, empty, marks, Resumed(empty, r.baseline, cuts));
      }
    }
  }

  lemma MarkedEnd<S(!new)>(r: Release<S>, empty: S, marks: seq<iset<S>>, x: S)
    requires Marked(r, empty, marks) && x in marks[0]
    ensures Run(x, r.baseline) == Run(empty, r.baseline)
  {
    hide Run;
    RunMarked(r, empty, marks, x, |r.baseline|);
    assert r.baseline[..|r.baseline|] == r.baseline;
  }

  /** A release that keeps progress converges. */
  lemma HarmlessRecovers<S>(r: Release<S>, empty: S)
    requires HarmlessBaseline(r, empty)
    ensures BaselineRecovers(r, empty)
  {
    hide HarmlessBaseline, Resumed, Run;
    var n := |r.baseline|;
    assert r.baseline[..n] == r.baseline;
    forall cuts ensures Run(Resumed(empty, r.baseline, cuts), r.baseline) == Run(empty, r.baseline) {
      var k := ResumedPlace(r, empty, cuts);
      ReplayBaseline(r, empty, k, n);
    }
  }

  lemma {:induction false} ResumedPlace<S>(r: Release<S>, empty: S, cuts: seq<nat>) returns (k: nat)
    requires HarmlessBaseline(r, empty)
    ensures k <= |r.baseline| && Resumed(empty, r.baseline, cuts) == Run(empty, r.baseline[..k])
  {
    hide HarmlessBaseline;
    if cuts == [] {
      k := 0;
      assert Run(empty, r.baseline[..0]) == empty;
    } else {
      var cut := cuts[|cuts| - 1];
      var c := if cut < |r.baseline| then cut else |r.baseline|;
      k := ResumedPlace(r, empty, cuts[..|cuts| - 1]);
      ReplayBaseline(r, empty, k, c);
      k := Most(k, c);
    }
  }

  // ---------- statements that say IF NOT EXISTS, and some that do not ----------

  /**
   Each step establishes what its guard asks for and does nothing where the guard holds, and no baseline
   step takes away what another's guard asks for.
   */
  ghost predicate Guarded<S(!new)>(r: Release<S>, guards: seq<S -> bool>) {
    && |guards| == |r.Steps()|
    && (forall i, x :: 0 <= i < |guards| ==> guards[i](r.Steps()[i](x)))
    && (forall i, x :: 0 <= i < |guards| && guards[i](x) ==> r.Steps()[i](x) == x)
    && (forall i, j, x :: 0 <= i < |r.baseline| && 0 <= j < |r.baseline| && guards[i](x) ==>
         guards[i](r.baseline[j](x)))
  }

  lemma {:induction false} GuardHolds<S(!new)>(r: Release<S>, guards: seq<S -> bool>, empty: S, i: nat, k: nat)
    requires Guarded(r, guards) && i < k <= |r.baseline|
    ensures guards[i](Run(empty, r.baseline[..k]))
    decreases k
  {
    assert r.baseline[..k][..k - 1] == r.baseline[..k - 1];
    if i < k - 1 {
      GuardHolds(r, guards, empty, i, k - 1);
    } else {
      assert r.Steps()[i] == r.baseline[i];
    }
  }

  /** Such statements are harmless wherever a restart gives them again. */
  lemma GuardedIsHarmless<S(!new)>(r: Release<S>, guards: seq<S -> bool>, empty: S)
    requires Guarded(r, guards)
    ensures HarmlessBaseline(r, empty) && HarmlessMigrations(r, empty)
  {
    forall i, k | 0 <= i < k <= |r.baseline|
      ensures r.baseline[i](Run(empty, r.baseline[..k])) == Run(empty, r.baseline[..k])
    {
      GuardHolds(r, guards, empty, i, k);
      assert r.Steps()[i] == r.baseline[i];
    }
    forall j | 0 <= j < |r.migrations| ensures HarmlessMigration(r, empty, j) {
      var p := |r.baseline| + j;
      UptoStep(r, empty, p);
      assert r.Steps()[p] == r.migrations[j].effect;
    }
  }

  /** A pair of columns; the one statement copies the second to the first, the other sets the second. */
  const CopyColumn: ((int, int)) -> (int, int) := (x: (int, int)) => (x.1, x.1)
  const SetColumn: ((int, int)) -> (int, int) := (x: (int, int)) => (x.0, 2)

  lemma TwoSteps(x: (int, int))
    ensures Run(x, [CopyColumn, SetColumn]) == (x.1, 2)
  {
    assert [CopyColumn, SetColumn] == [CopyColumn] + [SetColumn];
    RunConcat(x, [CopyColumn], [SetColumn]);
    RunOne(x, CopyColumn);
    RunOne((x.1, x.1), SetColumn);
  }

  const BADBASELINE := Release(1, [CopyColumn, SetColumn], [])

  /**
   As a baseline the pair does not converge, although each statement may be given twice in a row: a run
   stopped behind both statements, before the record, and a whole run end elsewhere than a run from scratch.
   */
  lemma IdempotenceIsNotEnough()
    ensures forall i, x :: 0 <= i < 2 ==>
              var step := BADBASELINE.baseline[i]; step(step(x)) == step(x)
    ensures BADBASELINE.WellOrdered() && Releases(BADBASELINE, [Attempt(BADBASELINE, 2)])
    ensures AfterWholeRun(BADBASELINE, AfterAll(Store((0, 0), []), [Attempt(BADBASELINE, 2)])) == (2, 2)
    ensures Run((0, 0), BADBASELINE.Steps()) == (0, 2)
    ensures !BaselineRecovers(BADBASELINE, (0, 0))
  {
    hide AfterAll, Attempt.After, AfterWholeRun, Run, BaselineRecovers;
    var r, st := BADBASELINE, Store((0, 0), []);
    assert r.Steps() == r.baseline && r.baseline[..2] == r.baseline;
    TwoSteps((0, 0));
    TwoSteps((0, 2));
    StopsInBaseline(r, st, 2);
    NoAttempts(st);
    AfterMore(st, [], Attempt(r, 2));
    assert [] + [Attempt(r, 2)] == [Attempt(r, 2)];
    WholeBaseline(r, AfterAll(st, [Attempt(r, 2)]));
    if BaselineRecovers(r, (0, 0)) {
      OlderIsHarmless(r, r, (0, 0));
      OneConverges(r, (0, 0), [Attempt(r, 2)]);
    }
  }

  /** As migrations the same pair converges: the first is never given again behind the second. */
  lemma LaterMigrationsMayOverwrite(empty: (int, int))
    ensures var r := Release(3, [], [Migration(2, CopyColumn), Migration(3, SetColumn)]);
            r.WellOrdered() && KeepsProgress(r, empty) && Converges(r, empty)
  {
    hide KeepsProgress, Converges, Upto;
    var r := Release(3, [], [Migration(2, CopyColumn), Migration(3, SetColumn)]);
    forall j | 0 <= j < 2 ensures HarmlessMigration(r, empty, j) {
      UptoStep(r, empty, j);
    }
    HarmlessRecovers(r, empty);
    KeepsProgressExactly(r, empty);
    ConvergesExactly(r, empty);
  }

  function Creating(name: string): set<string> -> set<string> {
    (x: set<string>) => x + {name}
  }

  function Dropping(name: string): set<string> -> set<string> {
    (x: set<string>) => x - {name}
  }

  /** So does a baseline that creates a table which a migration drops. */
  lemma MigrationsMayDrop(name: string, empty: set<string>)
    ensures var r := Release(2, [Creating(name)], [Migration(2, Dropping(name))]);
            r.WellOrdered() && KeepsProgress(r, empty) && Converges(r, empty)
  {
    hide KeepsProgress, Converges, Upto;
    var r := Release(2, [Creating(name)], [Migration(2, Dropping(name))]);
    UptoStep(r, empty, 1);
    var x := Upto(r, empty, 1);
    assert r.Steps()[1] == Dropping(name) && x - {name} - {name} == x - {name};
    assert HarmlessMigration(r, empty, 0);
    assert r.baseline[..1] == [Creating(name)];
    RunOne(empty, Creating(name));
    HarmlessRecovers(r, empty);
    KeepsProgressExactly(r, empty);
    ConvergesExactly(r, empty);
  }
}
