/**
 The schema migration of the SQL repositories: baseline statements, then migrations in order, each followed
 by the record of the version it reaches. A run may stop at any statement.
 */
module SchemaMigration {

  /** An upgrade step and the version that it reaches. */
  datatype Migration<!S> = Migration(to: int, effect: S -> S)

  /** What a binary knows: the statements of the baseline, which is version 1, and the upgrades behind it. */
  datatype Release<!S> = Release(current: int, baseline: seq<S -> S>, migrations: seq<Migration<S>>) {

    function Steps(): (steps: seq<S -> S>)
      ensures |steps| == |baseline| + |migrations|
    {
      baseline + seq(|migrations|, j requires 0 <= j < |migrations| => migrations[j].effect)
    }

    /** The versions ascend from 1, and the last is the one that the binary takes for current. */
    ghost predicate WellOrdered() {
      && (forall j :: 0 <= j < |migrations| ==> migrations[j].to > 1)
      && (forall i, j :: 0 <= i < j < |migrations| ==> migrations[i].to < migrations[j].to)
      && current == if migrations == [] then 1 else migrations[|migrations| - 1].to
    }
  }

  /** A database: its schema, and the rows of its version table. */
  datatype Store<S> = Store(schema: S, versions: seq<int>)

  function Stored(versions: seq<int>): (v: int)
    ensures v == 0 || v in versions
    ensures forall w :: w in versions ==> w <= v
  {
    if versions == [] then 0
    else
      var rest, last := Stored(versions[..|versions| - 1]), versions[|versions| - 1];
      assert versions == versions[..|versions| - 1] + [last];
      if last > rest then last else rest
  }

  /** A statement: a step of the release, or the record of a version. */
  datatype Op = Apply(step: nat) | Record(version: int)

  /** The upgrades from number `j` on that a database at version `stored` lacks. */
  function Pending<S>(r: Release<S>, j: nat, stored: int): seq<Op>
    requires j <= |r.migrations|
    decreases |r.migrations| - j
  {
    if j == |r.migrations| then []
    else if r.migrations[j].to <= stored then Pending(r, j + 1, stored)
    else [Apply(|r.baseline| + j), Record(r.migrations[j].to)] + Pending(r, j + 1, r.migrations[j].to)
  }

  function Baseline(n: nat): seq<Op> {
    seq(n, i requires 0 <= i < n => Apply(i)) + [Record(1)]
  }

  /** The statements of a run on a database at version `stored`. */
  function Script<S>(r: Release<S>, stored: int): seq<Op> {
    if stored == 0 then Baseline(|r.baseline|) + Pending(r, 0, 1) else Pending(r, 0, stored)
  }

  function Do<S>(r: Release<S>, st: Store<S>, op: Op): Store<S> {
    match op
    case Apply(i) => if i < |r.Steps()| then st.(schema := r.Steps()[i](st.schema)) else st
    case Record(v) => if v in st.versions then st else st.(versions := st.versions + [v])
  }

  function DoAll<S>(r: Release<S>, st: Store<S>, ops: seq<Op>): Store<S> {
    if ops == [] then st else Do(r, DoAll(r, st, ops[..|ops| - 1]), ops[|ops| - 1])
  }

  // ---------- the program ----------

  /** A connection: each statement it is given takes effect whole, or fails and has none. */
  class Database<!S> {
    var store: Store<S>
    var calls: nat
    const fails: nat -> bool

    constructor (store: Store<S>, fails: nat -> bool)
      ensures this.store == store && this.calls == 0 && this.fails == fails
    {
      this.store, this.calls, this.fails := store, 0, fails;
    }

    method Exec(r: Release<S>, op: Op) returns (ok: bool)
      modifies this
      ensures store == if ok then Do(r, old(store), op) else old(store)
      ensures ok == !fails(old(calls)) && calls == old(calls) + 1
    {
      ok := !fails(calls);
      calls := calls + 1;
      if ok {
        store := Do(r, store, op);
      }
    }
  }

  /** One of the calls from number `from` to in front of number `until` fails. */
  ghost predicate Fails<S>(db: Database<S>, from: nat, until: nat)
    reads db
  {
    exists k :: from <= k < until && db.fails(k)
  }

  datatype Outcome = Done | Refused | Failed

  lemma DoAllSnoc<S>(r: Release<S>, st: Store<S>, ops: seq<Op>, n: nat)
    requires n < |ops|
    ensures DoAll(r, st, ops[..n + 1]) == Do(r, DoAll(r, st, ops[..n]), ops[n])
  {
    assert ops[..n + 1][..n] == ops[..n];
  }

  lemma {:induction false} DoAllConcat<S>(r: Release<S>, st: Store<S>, first: seq<Op>, more: seq<Op>)
    ensures DoAll(r, st, first + more) == DoAll(r, DoAll(r, st, first), more)
  {
    if more == [] {
      assert first + more == first;
    } else {
      var n := |more| - 1;
      assert (first + more)[..|first| + n] == first + more[..n];
      DoAllConcat(r, st, first, more[..n]);
    }
  }

  /** The baseline statements and the record of version 1, up to the first that fails. */
  method RunBaseline<S>(db: Database<S>, r: Release<S>) returns (ok: bool, ghost n: nat)
    modifies db
    ensures n <= |Baseline(|r.baseline|)| && (ok <==> n == |Baseline(|r.baseline|)|)
    ensures db.store == DoAll(r, old(db.store), Baseline(|r.baseline|)[..n])
    ensures db.calls >= old(db.calls) && (ok <==> !Fails(db, old(db.calls), db.calls))
  {
    hide Do, DoAll;
    ghost var ops := Baseline(|r.baseline|);
    n := 0;
    DoNothing(r, db.store, ops);
    for i := 0 to |r.baseline|
      invariant n == i && db.store == DoAll(r, old(db.store), ops[..n])
      invariant db.calls >= old(db.calls) && !Fails(db, old(db.calls), db.calls)
    {
      DoAllSnoc(r, old(db.store), ops, n);
      ok := db.Exec(r, Apply(i));
      if !ok {
        return;
      }
      n := n + 1;
    }
    DoAllSnoc(r, old(db.store), ops, n);
    ok := db.Exec(r, Record(1));
    if ok {
      n := n + 1;
    }
  }

  lemma DoNothing<S>(r: Release<S>, st: Store<S>, ops: seq<Op>)
    ensures DoAll(r, st, ops[..0]) == st
  {}

  /** The pending migrations, each with its record, up to the first statement that fails. */
  method RunMigrations<S>(db: Database<S>, r: Release<S>, from: int) returns (ok: bool, ghost n: nat)
    modifies db
    ensures n <= |Pending(r, 0, from)| && (ok <==> n == |Pending(r, 0, from)|)
    ensures db.store == DoAll(r, old(db.store), Pending(r, 0, from)[..n])
    ensures db.calls >= old(db.calls) && (ok <==> !Fails(db, old(db.calls), db.calls))
  {
    hide Do, DoAll;
    ghost var ops := Pending(r, 0, from);
    var stored := from;
    n := 0;
    DoNothing(r, db.store, ops);
    for j := 0 to |r.migrations|
      invariant n <= |ops| && ops[n..] == Pending(r, j, stored)
      invariant db.store == DoAll(r, old(db.store), ops[..n])
      invariant db.calls >= old(db.calls) && !Fails(db, old(db.calls), db.calls)
    {
      var m := r.migrations[j];
      if m.to > stored {
        ghost var rest := ops[n..];
        assert rest[0] == Apply(|r.baseline| + j) && rest[1] == Record(m.to) && rest[2..] == Pending(r, j + 1, m.to);
        assert ops[n] == rest[0] && ops[n + 1] == rest[1] && ops[n + 2..] == rest[2..];
        DoAllSnoc(r, old(db.store), ops, n);
        ok := db.Exec(r, Apply(|r.baseline| + j));
        if !ok {
          return;
        }
        n := n + 1;
        DoAllSnoc(r, old(db.store), ops, n);
        ok := db.Exec(r, Record(m.to));
        if !ok {
          return;
        }
        n := n + 1;
        stored := m.to;
      }
    }
    ok := true;
  }

  /** `ensure_schema`. Creating the version table and reading it may fail as well (`readable`). */
  method EnsureSchema<S>(db: Database<S>, r: Release<S>, readable: bool) returns (outcome: Outcome, ghost n: nat)
    modifies db
    ensures !readable ==> outcome == Failed && db.store == old(db.store)
    ensures readable ==> (outcome == Refused <==> Stored(old(db.store.versions)) > r.current)
    ensures outcome == Refused ==> db.store == old(db.store)
    ensures readable && outcome != Refused ==>
              var script := Script(r, Stored(old(db.store.versions)));
              n <= |script| && db.store == DoAll(r, old(db.store), script[..n]) && (outcome == Done <==> n == |script|)
    ensures readable && outcome != Refused ==> (outcome == Done <==> !Fails(db, old(db.calls), db.calls))
  {
    hide Do, DoAll, Baseline, Pending;
    n := 0;
    if !readable {
      return Failed, 0;
    }
    var stored := Stored(db.store.versions);
    if stored > r.current {
      return Refused, 0;
    }
    ghost var script := Script(r, stored);
    ghost var first: seq<Op> := [];
    DoNothing(r, db.store, []);
    if stored == 0 {
      first := Baseline(|r.baseline|);
      var ok;
      ok, n := RunBaseline(db, r);
      assert script[..n] == first[..n];
      if !ok {
        return Failed, n;
      }
      assert first[..n] == first;
      stored := 1;
    }
    assert script == first + Pending(r, 0, stored);
    var ok;
    ghost var k;
    ok, k := RunMigrations(db, r, stored);
    DoAllConcat(r, old(db.store), first, Pending(r, 0, stored)[..k]);
    assert script[..|first| + k] == first + Pending(r, 0, stored)[..k];
    return if ok then Done else Failed, |first| + k;
  }

  // ---------- what a script is ----------

  /** The version that a database has reached with the baseline and `j` migrations. */
  function VersionAt<S>(r: Release<S>, j: nat): int
    requires j <= |r.migrations|
  {
    if j == 0 then 1 else r.migrations[j - 1].to
  }

  /** The statements behind migration `j`: each migration, and right after it the record of its version. */
  function Rest<S>(r: Release<S>, j: nat): (ops: seq<Op>)
    requires j <= |r.migrations|
    ensures |ops| == 2 * (|r.migrations| - j)
    decreases |r.migrations| - j
  {
    if j == |r.migrations| then []
    else [Apply(|r.baseline| + j), Record(r.migrations[j].to)] + Rest(r, j + 1)
  }

  lemma {:induction false} PendingIsRest<S>(r: Release<S>, i: nat, j: nat)
    requires r.WellOrdered() && i <= j <= |r.migrations|
    ensures Pending(r, i, VersionAt(r, j)) == Rest(r, j)
    decreases |r.migrations| - i
  {
    if i < |r.migrations| {
      if i < j {
        PendingIsRest(r, i + 1, j);
      } else {
        PendingIsRest(r, i + 1, i + 1);
      }
    }
  }

  /** A script takes up the work right behind the recorded version and records each version after its step. */
  lemma ScriptInOrder<S>(r: Release<S>, j: nat)
    requires r.WellOrdered() && j <= |r.migrations|
    ensures Script(r, 0) == Baseline(|r.baseline|) + Rest(r, 0)
    ensures Script(r, VersionAt(r, j)) == Rest(r, j)
  {
    PendingIsRest(r, 0, 0);
    PendingIsRest(r, 0, j);
  }

  // ---------- runs ----------

  function Run<S>(x: S, steps: seq<S -> S>): S {
    if steps == [] then x else steps[|steps| - 1](Run(x, steps[..|steps| - 1]))
  }

  /** A later release only appends migrations. */
  ghost predicate Extends<S>(later: Release<S>, r: Release<S>) {
    later.baseline == r.baseline && r.migrations <= later.migrations
  }

  /** The database after a run of `r` that got `n` statements far; a refused run changes nothing. */
  ghost function AfterRun<S>(r: Release<S>, st: Store<S>, n: nat): Store<S>
    requires Stored(st.versions) <= r.current ==> n <= |Script(r, Stored(st.versions))|
  {
    if Stored(st.versions) > r.current then st else DoAll(r, st, Script(r, Stored(st.versions))[..n])
  }

  /** A run of some release that is stopped after so many statements, if it has as many. */
  datatype Attempt<!S> = Attempt(release: Release<S>, statements: nat) {

    ghost function Statements(st: Store<S>): nat {
      var script := Script(release, Stored(st.versions));
      if statements < |script| then statements else |script|
    }

    ghost function After(st: Store<S>): Store<S> {
      AfterRun(release, st, Statements(st))
    }
  }

  ghost function AfterAll<S>(st: Store<S>, attempts: seq<Attempt<S>>): Store<S> {
    if attempts == [] then st else attempts[|attempts| - 1].After(AfterAll(st, attempts[..|attempts| - 1]))
  }

  ghost predicate Releases<S>(later: Release<S>, attempts: seq<Attempt<S>>) {
    forall a :: a in attempts ==> a.release.WellOrdered() && Extends(later, a.release)
  }

  /** The schema after one more run of the release, this time a whole one. */
  ghost function AfterWholeRun<S>(r: Release<S>, st: Store<S>): S {
    AfterRun(r, st, |Script(r, Stored(st.versions))|).schema
  }

  // ---------- versions only grow ----------

  lemma {:induction false} VersionsGrow<S>(r: Release<S>, st: Store<S>, ops: seq<Op>)
    ensures forall v :: v in st.versions ==> v in DoAll(r, st, ops).versions
    ensures Stored(st.versions) <= Stored(DoAll(r, st, ops).versions)
  {
    if ops != [] {
      VersionsGrow(r, st, ops[..|ops| - 1]);
    }
    var after := DoAll(r, st, ops);
    assert Stored(st.versions) == 0 || Stored(st.versions) in after.versions;
    StoredNotNegative(after.versions);
  }

  lemma {:induction false} StoredNotNegative(versions: seq<int>)
    ensures Stored(versions) >= 0
  {
    if versions != [] { StoredNotNegative(versions[..|versions| - 1]); }
  }

  /** The recorded version never decreases, in any run of any release. */
  lemma VersionNeverDecreases<S(!new)>(r: Release<S>, st: Store<S>, n: nat)
    requires Stored(st.versions) <= r.current ==> n <= |Script(r, Stored(st.versions))|
    ensures Stored(AfterRun(r, st, n).versions) >= Stored(st.versions)
  {
    hide Stored, Script, DoAll;
    if Stored(st.versions) <= r.current {
      VersionsGrow(r, st, Script(r, Stored(st.versions))[..n]);
    }
  }
}
