/**
 The sales table loaded from the uploaded CSV, restricted to the integer columns the
 dashboard aggregates: `Sucursal` (branch), `Producto` (product), `Año` (year),
 `Mes` (month) and `Unidades_vendidas` (units sold). Row selection with a boolean
 mask (`datos[datos[col] == v]`) and the units sum live here.
 */
module Sales {
  import opened Seqs

  /** One row of the sales table. */
  datatype Sale = Sale(branch: string, product: string, year: int, month: int, units: nat)

  type Table = seq<Sale>

  /** An equality mask on one column (or, for months, on the `Año`/`Mes` pair). */
  datatype Criterion =
    | BranchIs(branch: string)
    | ProductIs(product: string)
    | YearIs(year: int)
    | MonthIs(year: int, month: int)

  predicate Matches(r: Sale, c: Criterion) {
    match c
    case BranchIs(b) => r.branch == b
    case ProductIs(p) => r.product == p
    case YearIs(y) => r.year == y
    case MonthIs(y, m) => r.year == y && r.month == m
  }

  /** The rows of `t` that satisfy `c`, in their original order. */
  function Where(t: Table, c: Criterion): (r: Table)
    ensures forall x :: multiset(r)[x] == if Matches(x, c) then multiset(t)[x] else 0
    ensures forall x :: x in r <==> x in t && Matches(x, c)
    ensures IsSubsequence(r, t)
  {
    if |t| == 0 then []
    else
      assert t == [t[0]] + t[1..];
      if Matches(t[0], c) then [t[0]] + Where(t[1..], c) else Where(t[1..], c)
  }

  /** The `Unidades_vendidas` column summed over `t`. */
  function TotalUnits(t: Table): nat {
    if |t| == 0 then 0 else t[0].units + TotalUnits(t[1..])
  }

  /** Every row's units are part of the sum, and the sum is zero exactly when every row sold zero units. */
  lemma {:induction false} TotalUnitsBounds(t: Table)
    ensures forall i :: 0 <= i < |t| ==> t[i].units <= TotalUnits(t)
    ensures TotalUnits(t) == 0 <==> forall i :: 0 <= i < |t| ==> t[i].units == 0
    decreases |t|
  {
    if |t| > 0 {
      TotalUnitsBounds(t[1..]);
      assert forall i :: 1 <= i < |t| ==> t[i] == t[1..][i - 1];
    }
  }

  lemma {:induction false} TotalUnitsAppend(a: Table, b: Table)
    ensures TotalUnits(a + b) == TotalUnits(a) + TotalUnits(b)
    decreases |a|
  {
    if |a| == 0 {
      assert a + b == b;
    } else {
      assert (a + b)[1..] == a[1..] + b;
      TotalUnitsAppend(a[1..], b);
    }
  }

  /** Taking row `i` out of `b` leaves the other rows. */
  lemma {:induction false} RemoveRowMultiset(b: Table, i: nat)
    requires i < |b|
    ensures multiset(b[..i] + b[i + 1..]) == multiset(b) - multiset{b[i]}
  {
    var front, x, back := b[..i], b[i], b[i + 1..];
    assert b == front + [x] + back;
    assert multiset(b) == multiset(front) + multiset{x} + multiset(back);
  }

  /** Taking row `i` out of `b` takes its units out of the sum. */
  lemma {:induction false} RemoveRowUnits(b: Table, i: nat)
    requires i < |b|
    ensures TotalUnits(b) == b[i].units + TotalUnits(b[..i] + b[i + 1..])
  {
    var front, x, back := b[..i], b[i], b[i + 1..];
    assert b == front + ([x] + back);
    TotalUnitsAppend(front, [x] + back);
    assert ([x] + back)[1..] == back;
    TotalUnitsAppend(front, back);
  }

  /** The units sum depends only on which rows occur how often, not on their order. */
  lemma {:induction false} TotalUnitsPermutation(a: Table, b: Table)
    requires multiset(a) == multiset(b)
    ensures TotalUnits(a) == TotalUnits(b)
    decreases |a|
  {
    if |a| == 0 {
      assert |multiset(b)| == 0;
    } else {
      var x := a[0];
      assert a == [x] + a[1..];
      assert x in multiset(b);
      var i :| 0 <= i < |b| && b[i] == x;
      RemoveRowMultiset(b, i);
      RemoveRowUnits(b, i);
      assert multiset(a[1..]) == multiset(a) - multiset{x};
      TotalUnitsPermutation(a[1..], b[..i] + b[i + 1..]);
    }
  }

  /** Selecting rows never increases the units sum. */
  lemma {:induction false} WhereUnitsBound(t: Table, c: Criterion)
    ensures TotalUnits(Where(t, c)) <= TotalUnits(t)
    decreases |t|
  {
    if |t| > 0 {
      WhereUnitsBound(t[1..], c);
    }
  }

  /** Two masks applied one after the other give the same rows in either order. */
  lemma {:induction false} WhereCommutes(t: Table, c1: Criterion, c2: Criterion)
    ensures Where(Where(t, c1), c2) == Where(Where(t, c2), c1)
    decreases |t|
  {
    if |t| > 0 {
      WhereCommutes(t[1..], c1, c2);
    }
  }

  /** Selecting from two tables with the same rows gives selections with the same rows. */
  lemma {:induction false} WherePermutation(a: Table, b: Table, c: Criterion)
    requires multiset(a) == multiset(b)
    ensures multiset(Where(a, c)) == multiset(Where(b, c))
  {
    assert forall x :: multiset(Where(a, c))[x] == multiset(Where(b, c))[x];
  }
}
