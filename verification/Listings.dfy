/** Paged listings over a table: filter, sort by id, cut a page out; and the walk of a paging client. */
module Listings {
  import opened Sorting

  type Uint32 = n: int | 0 <= n < TWO_32
  const TWO_32 := 0x1_0000_0000

  /** `static_cast<std::uint32_t>`, and what uint32 arithmetic does. */
  function Wrap(n: int): Uint32 {
    n % TWO_32
  }

  // ---------- the order of ids ----------

  /** `std::string` comparison: byte by byte, and a prefix comes first. */
  predicate StrLeq(a: string, b: string) {
    a == "" || (b != "" && (a[0] < b[0] || (a[0] == b[0] && StrLeq(a[1..], b[1..]))))
  }

  lemma {:induction false} StrTotal(a: string, b: string)
    ensures StrLeq(a, b) || StrLeq(b, a)
  {
    if a != "" && b != "" { StrTotal(a[1..], b[1..]); }
  }

  lemma {:induction false} StrTransitive(a: string, b: string, c: string)
    requires StrLeq(a, b) && StrLeq(b, c)
    ensures StrLeq(a, c)
  {
    if a != "" && a[0] == b[0] == c[0] { StrTransitive(a[1..], b[1..], c[1..]); }
  }

  lemma {:induction false} StrAntisymmetric(a: string, b: string)
    requires StrLeq(a, b) && StrLeq(b, a)
    ensures a == b
  {
    if a != "" {
      StrAntisymmetric(a[1..], b[1..]);
      assert a == [a[0]] + a[1..] && b == [b[0]] + b[1..];
    }
  }

  /** The first byte in which two texts differ decides, and a text comes in front of what extends it. */
  lemma {:induction false} StrLeqExactly(a: string, b: string)
    ensures StrLeq(a, b) <==>
              a <= b || exists k: nat :: k < |a| && k < |b| && a[..k] == b[..k] && a[k] < b[k]
  {
    if a != "" && b != "" {
      StrLeqExactly(a[1..], b[1..]);
      if a[0] == b[0] {
        if k: nat :| k < |a| && k < |b| && a[..k] == b[..k] && a[k] < b[k] {
          assert k > 0;
          assert a[1..][..k - 1] == a[..k][1..] && b[1..][..k - 1] == b[..k][1..];
          assert a[1..][k - 1] < b[1..][k - 1];
        }
        if k: nat :| k < |a[1..]| && k < |b[1..]| && a[1..][..k] == b[1..][..k] && a[1..][k] < b[1..][k] {
          assert a[..k + 1] == [a[0]] + a[1..][..k] && b[..k + 1] == [b[0]] + b[1..][..k];
          assert a[k + 1] < b[k + 1];
        }
        assert a <= b <==> a[1..] <= b[1..];
      } else {
        assert a[..0] == b[..0];
        if k: nat :| k < |a| && k < |b| && a[..k] == b[..k] && a[k] < b[k] {
          assert k > 0 ==> a[..k][0] == b[..k][0];
        }
      }
    } else if a != "" {
      assert !(a <= b);
    }
  }

  function ById<T(!new)>(idOf: T -> string): (T, T) -> bool {
    (x: T, y: T) => StrLeq(idOf(x), idOf(y))
  }

  lemma ByIdIsPreorder<T(!new)>(idOf: T -> string)
    ensures TotalPreorder(ById(idOf))
  {
    hide StrLeq;
    var leq := ById(idOf);
    forall x, y ensures leq(x, y) || leq(y, x) { StrTotal(idOf(x), idOf(y)); }
    forall x, y, z | leq(x, y) && leq(y, z) ensures leq(x, z) { StrTransitive(idOf(x), idOf(y), idOf(z)); }
  }

  // ---------- the listing of a table ----------

  /** A table's rows are stored under their own ids. */
  ghost predicate Keyed<T(!new)>(table: map<string, T>, idOf: T -> string) {
    forall k :: k in table ==> idOf(table[k]) == k
  }

  /** Each kept row with a key in `keys`, once. */
  ghost predicate Enumerates<T(!new)>(rows: seq<T>, table: map<string, T>, keys: set<string>, keep: T -> bool,
                                      idOf: T -> string) {
    && (forall i, j :: 0 <= i < j < |rows| ==> idOf(rows[i]) != idOf(rows[j]))
    && (forall x :: x in rows ==> idOf(x) in keys && idOf(x) in table && table[idOf(x)] == x && keep(x))
    && (forall k :: k in keys && k in table && keep(table[k]) ==> table[k] in rows)
  }

  ghost predicate Ascending<T>(xs: seq<T>, idOf: T -> string) {
    forall i, j :: 0 <= i < j < |xs| ==> idOf(xs[i]) != idOf(xs[j]) && StrLeq(idOf(xs[i]), idOf(xs[j]))
  }

  ghost predicate IsListing<T(!new)>(xs: seq<T>, table: map<string, T>, keep: T -> bool, idOf: T -> string) {
    Enumerates(xs, table, table.Keys, keep, idOf) && Ascending(xs, idOf)
  }

  lemma {:induction false} CountAtMostOne<T(!new)>(rows: seq<T>, x: T, idOf: T -> string)
    requires forall i, j :: 0 <= i < j < |rows| ==> idOf(rows[i]) != idOf(rows[j])
    ensures multiset(rows)[x] <= 1
  {
    if rows != [] {
      CountAtMostOne(rows[1..], x, idOf);
      assert rows == [rows[0]] + rows[1..];
      forall j | 0 <= j < |rows| - 1 ensures rows[1..][j] != rows[0] {
        assert idOf(rows[0]) != idOf(rows[j + 1]);
      }
    }
  }

  lemma CountOfTwo<T>(xs: seq<T>, i: nat, j: nat)
    requires i < j < |xs| && xs[i] == xs[j]
    ensures multiset(xs)[xs[i]] >= 2
  {
    assert xs == xs[..j] + xs[j..];
    assert xs[..j][i] == xs[j..][0] == xs[i];
  }

  lemma SortedIsDistinct<T(!new)>(rows: seq<T>, sorted: seq<T>, table: map<string, T>, keep: T -> bool,
                                  idOf: T -> string)
    requires Enumerates(rows, table, table.Keys, keep, idOf) && multiset(sorted) == multiset(rows)
    ensures forall i, j :: 0 <= i < j < |sorted| ==> idOf(sorted[i]) != idOf(sorted[j])
  {
    SameMembers(rows, sorted);
    forall i, j | 0 <= i < j < |sorted| ensures idOf(sorted[i]) != idOf(sorted[j]) {
      if idOf(sorted[i]) == idOf(sorted[j]) {
        assert sorted[i] in rows && sorted[j] in rows;
        CountOfTwo(sorted, i, j);
        CountAtMostOne(rows, sorted[i], idOf);
      }
    }
  }

  lemma SameMembers<T>(xs: seq<T>, ys: seq<T>)
    requires multiset(xs) == multiset(ys)
    ensures forall x :: x in xs <==> x in ys
  {
    assert forall x :: x in xs <==> x in multiset(xs);
    assert forall x :: x in ys <==> x in multiset(ys);
  }

  lemma SortedIsOrdered<T(!new)>(sorted: seq<T>, idOf: T -> string)
    requires Sorted(sorted, ById(idOf))
    ensures forall i, j :: 0 <= i < j < |sorted| ==> StrLeq(idOf(sorted[i]), idOf(sorted[j]))
  {
    hide StrLeq;
    forall i, j | 0 <= i < j < |sorted| ensures StrLeq(idOf(sorted[i]), idOf(sorted[j])) {
      assert ById(idOf)(sorted[i], sorted[j]);
    }
  }

  /** Sorting an enumeration gives the listing. */
  lemma SortedIsListing<T(!new)>(rows: seq<T>, sorted: seq<T>, table: map<string, T>, keep: T -> bool,
                                 idOf: T -> string)
    requires Enumerates(rows, table, table.Keys, keep, idOf)
    requires Sorted(sorted, ById(idOf)) && multiset(sorted) == multiset(rows)
    ensures IsListing(sorted, table, keep, idOf)
  {
    hide StrLeq, Sorted;
    SameMembers(rows, sorted);
    SortedIsDistinct(rows, sorted, table, keep, idOf);
    SortedIsOrdered(sorted, idOf);
  }

  lemma FirstIsMember<T>(xs: seq<T>)
    requires xs != []
    ensures xs[0] in xs
  {}

  lemma {:induction false} AscendingUnique<T(!new)>(xs: seq<T>, ys: seq<T>, idOf: T -> string)
    requires Ascending(xs, idOf) && Ascending(ys, idOf)
    requires forall x :: x in xs <==> x in ys
    ensures xs == ys
  {
    hide StrLeq;
    if xs == [] {
      if ys != [] { FirstIsMember(ys); }
    } else {
      assert xs[0] in ys;
      var j :| 0 <= j < |ys| && ys[j] == xs[0];
      assert ys[0] in xs;
      var i :| 0 <= i < |xs| && xs[i] == ys[0];
      if i > 0 && j > 0 {
        StrAntisymmetric(idOf(xs[0]), idOf(ys[0]));
      }
      assert xs[0] == ys[0];
      forall x ensures x in xs[1..] <==> x in ys[1..] {
        HeadApart(xs, x, idOf);
        HeadApart(ys, x, idOf);
      }
      AscendingUnique(xs[1..], ys[1..], idOf);
      assert xs == [xs[0]] + xs[1..] && ys == [ys[0]] + ys[1..];
    }
  }

  lemma HeadApart<T(!new)>(xs: seq<T>, x: T, idOf: T -> string)
    requires xs != [] && Ascending(xs, idOf)
    ensures x in xs[1..] <==> x in xs && x != xs[0]
  {
    hide StrLeq;
    assert xs == [xs[0]] + xs[1..];
    if x in xs[1..] {
      var j :| 0 <= j < |xs| - 1 && xs[1..][j] == x;
      assert idOf(xs[0]) != idOf(xs[j + 1]);
    }
  }

  /** A table has one listing, whatever order its rows are enumerated in and whatever sorts them. */
  lemma ListingUnique<T(!new)>(xs: seq<T>, ys: seq<T>, table: map<string, T>, keep: T -> bool, idOf: T -> string)
    requires IsListing(xs, table, keep, idOf) && IsListing(ys, table, keep, idOf)
    ensures xs == ys
  {
    AscendingUnique(xs, ys, idOf);
  }

  lemma {:induction false} SomeEnumeration<T(!new)>(table: map<string, T>, keys: set<string>, keep: T -> bool,
                                                    idOf: T -> string) returns (rows: seq<T>)
    requires Keyed(table, idOf) && keys <= table.Keys
    ensures Enumerates(rows, table, keys, keep, idOf)
  {
    if keys == {} {
      rows := [];
    } else {
      var k :| k in keys;
      rows := SomeEnumeration(table, keys - {k}, keep, idOf);
      if keep(table[k]) { rows := rows + [table[k]]; }
    }
  }

  lemma ListingExists<T(!new)>(table: map<string, T>, keep: T -> bool, idOf: T -> string)
    requires Keyed(table, idOf)
    ensures exists xs :: IsListing(xs, table, keep, idOf)
  {
    hide StrLeq, Enumerates;
    var rows := SomeEnumeration(table, table.Keys, keep, idOf);
    ByIdIsPreorder(idOf);
    SortPermutes(rows, ById(idOf));
    SortSorts(rows, ById(idOf));
    SortedIsListing(rows, Sort(rows, ById(idOf)), table, keep, idOf);
  }

  /** The rows that are kept, in order of their ids. */
  ghost function Listing<T(!new)>(table: map<string, T>, keep: T -> bool, idOf: T -> string): (xs: seq<T>)
    requires Keyed(table, idOf)
    ensures IsListing(xs, table, keep, idOf)
  {
    ListingExists(table, keep, idOf);
    var xs :| IsListing(xs, table, keep, idOf);
    xs
  }

  // ---------- pages ----------

  datatype Page<+T> = Page(rows: seq<T>, total: Uint32)

  const MAX_PAGE: Uint32 := 1024

  function Min(a: Uint32, b: Uint32): Uint32 {
    if a < b then a else b
  }

  /** The number of rows on a page that starts in front of `remaining` rows; 0 asks for a full page. */
  function Take(count: Uint32, remaining: Uint32): (n: Uint32)
    ensures n <= remaining && n <= MAX_PAGE && (n == 0 <==> remaining == 0)
  {
    Min(if count == 0 then MAX_PAGE else Min(count, MAX_PAGE), remaining)
  }

  /** `start + i` in uint32 arithmetic stays inside the listing, even one longer than uint32 can count. */
  lemma RowInside(n: nat, start: Uint32, i: nat)
    requires start < n && i < Wrap(Wrap(n) - start)
    ensures Wrap(start + i) < n
  {
    if n < TWO_32 { assert Wrap(n) == n; }
  }

  function PageOf<T>(xs: seq<T>, start: Uint32, count: Uint32): Page<T> {
    if start >= |xs| then Page([], Wrap(|xs|))
    else
      var take := Take(count, Wrap(Wrap(|xs|) - start));
      Page(seq(take, i requires 0 <= i < take => RowInside(|xs|, start, i); xs[Wrap(start + i)]), Wrap(|xs|))
  }

  method SortById<T(!new)>(rows: seq<T>, idOf: T -> string) returns (sorted: seq<T>)
    ensures Sorted(sorted, ById(idOf)) && multiset(sorted) == multiset(rows)
  {
    hide StrLeq;
    ByIdIsPreorder(idOf);
    SortSorts(rows, ById(idOf));
    SortPermutes(rows, ById(idOf));
    sorted := Sort(rows, ById(idOf));
  }

  /** The pass over an unordered table, in any order of its keys. */
  method Filter<T(!new)>(table: map<string, T>, keep: T -> bool, ghost idOf: T -> string) returns (rows: seq<T>)
    requires Keyed(table, idOf)
    ensures Enumerates(rows, table, table.Keys, keep, idOf)
  {
    rows := [];
    var left := table.Keys;
    while left != {}
      invariant left <= table.Keys && Enumerates(rows, table, table.Keys - left, keep, idOf)
      decreases left
    {
      var k :| k in left;
      left := left - {k};
      if keep(table[k]) {
        rows := rows + [table[k]];
      }
    }
    assert table.Keys - left == table.Keys;
  }

  method Paginate<T(!new)>(table: map<string, T>, start: Uint32, count: Uint32, keep: T -> bool, idOf: T -> string)
    returns (page: Page<T>)
    requires Keyed(table, idOf)
    ensures page == PageOf(Listing(table, keep, idOf), start, count)
  {
    hide StrLeq, Enumerates, IsListing;
    var filtered := Filter(table, keep, idOf);
    var sorted := SortById(filtered, idOf);
    SortedIsListing(filtered, sorted, table, keep, idOf);
    ListingUnique(sorted, Listing(table, keep, idOf), table, keep, idOf);
    page := CutPage(sorted, start, count);
  }

  method CutPage<T>(filtered: seq<T>, start: Uint32, count: Uint32) returns (page: Page<T>)
    ensures page == PageOf(filtered, start, count)
  {
    var total := Wrap(|filtered|);
    if start >= |filtered| {
      return Page([], total);
    }
    var remaining := Wrap(Wrap(|filtered|) - start);
    var requested := if count == 0 then MAX_PAGE else Min(count, MAX_PAGE);
    var take := Min(requested, remaining);
    var rows := [];
    for i := 0 to take
      invariant rows == PageOf(filtered, start, count).rows[..i]
    {
      RowInside(|filtered|, start, i);
      rows := rows + [filtered[Wrap(start + i)]];
    }
    return Page(rows, total);
  }

  // ---------- the walk of a paging client ----------

  /**
   What a client collects that asks from `start` on and moves on by the number of rows it was given, until
   it is given none. `answer(s)` is the page it gets when it asks at `s`.
   */
  ghost function Walk<T>(answer: Uint32 -> seq<T>, start: Uint32): seq<T>
    decreases TWO_32 - start
  {
    var rows := answer(start);
    if rows == [] then []
    else rows + if start + |rows| < TWO_32 then Walk(answer, start + |rows|) else []
  }

  /** The answers are pages of one listing; how many rows are asked for may differ each time. */
  ghost predicate Serves<T(!new)>(answer: Uint32 -> seq<T>, xs: seq<T>, counts: Uint32 -> Uint32) {
    forall s: Uint32 :: answer(s) == PageOf(xs, s, counts(s)).rows
  }

  lemma {:induction false} WalkFrom<T(!new)>(answer: Uint32 -> seq<T>, xs: seq<T>, counts: Uint32 -> Uint32,
                          start: Uint32)
    requires Serves(answer, xs, counts) && start <= Wrap(|xs|)
    ensures Walk(answer, start) == xs[start..Wrap(|xs|)]
    decreases TWO_32 - start
  {
    hide PageOf, Take, Wrap;
    var len := Wrap(|xs|);
    var n := Take(counts(start), len - start);
    PageIsSlice(xs, start, counts(start));
    LengthFits(|xs|);
    assert answer(start) == xs[start..start + n];
    if start < len {
      WalkFrom(answer, xs, counts, start + n);
      assert xs[start..len] == xs[start..start + n] + xs[start + n..len];
    }
  }

  lemma LengthFits(n: nat)
    ensures Wrap(n) <= n
  {}

  /** Up to where uint32 counts the listing, a page is a slice, and it is empty only at the end. */
  lemma PageIsSlice<T>(xs: seq<T>, start: Uint32, count: Uint32)
    requires start <= Wrap(|xs|)
    ensures var n := Take(count, Wrap(|xs|) - start);
            PageOf(xs, start, count).rows == xs[start..start + n] && (n == 0 <==> start == Wrap(|xs|))
    ensures var left, size := Wrap(|xs|) - start, |PageOf(xs, start, count).rows|;
            && size <= left && size <= 1024 && (0 < count ==> size <= count)
            && (size == left || size == 1024 || (0 < count && size == count))
  {
    var n := Take(count, Wrap(|xs|) - start);
    if start < |xs| {
      assert Wrap(Wrap(|xs|) - start) == Wrap(|xs|) - start;
      forall i | 0 <= i < n ensures PageOf(xs, start, count).rows[i] == xs[start..start + n][i] {
        assert Wrap(start + i) == start + i;
      }
    }
  }

  /**
   The walk ends and yields the listing, each row once and in order, whatever counts it asks for, exactly
   when uint32 can count the rows; a longer listing is cut down to its length modulo 2^32.
   */
  lemma WalkYieldsListing<T(!new)>(answer: Uint32 -> seq<T>, xs: seq<T>, counts: Uint32 -> Uint32)
    requires Serves(answer, xs, counts)
    ensures Walk(answer, 0) == xs[..Wrap(|xs|)]
    ensures Walk(answer, 0) == xs <==> |xs| < TWO_32
  {
    hide Walk;
    WalkFrom(answer, xs, counts, 0);
    if |xs| < TWO_32 {
      assert xs[..Wrap(|xs|)] == xs;
    }
  }
}
