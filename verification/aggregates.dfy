/**
 The two unit aggregates the dashboard draws from one product's rows: units per
 (`Año`, `Mes`) for the sales chart (`crear_grafico_ventas`, ejercicio.py line 8) and
 units per `Año` for the yearly change of units sold (ejercicio.py line 98). Both are
 sorted group-by sums.
 */
module Aggregates {
  import opened Sales
  import opened GroupBy

  datatype MonthKey = MonthKey(year: int, month: int)

  /** Lexicographic order on (`Año`, `Mes`): the order the grouped keys come out in. */
  predicate MonthBefore(a: MonthKey, b: MonthKey) {
    a.year < b.year || (a.year == b.year && a.month < b.month)
  }

  predicate YearBefore(a: int, b: int) {
    a < b
  }

  lemma {:induction false} MonthOrderIsStrictTotal()
    ensures StrictTotalOrder(MonthBefore)
  {
  }

  lemma {:induction false} YearOrderIsStrictTotal()
    ensures StrictTotalOrder(YearBefore)
  {
  }

  function MonthOf(r: Sale): MonthKey {
    MonthKey(r.year, r.month)
  }

  /** The (`Año`, `Mes`) pairs occurring in `t`. */
  function MonthsOf(t: Table): set<MonthKey> {
    set i | 0 <= i < |t| :: MonthOf(t[i])
  }

  /** The years occurring in `t`. */
  function YearsOf(t: Table): set<int> {
    set i | 0 <= i < |t| :: t[i].year
  }

  /** Each row reduced to its (`Año`, `Mes`) key and its units: the input of the monthly group-by. */
  function MonthObs(t: Table): seq<Keyed<MonthKey>> {
    if |t| == 0 then [] else [Keyed(MonthOf(t[0]), t[0].units)] + MonthObs(t[1..])
  }

  /** Each row reduced to its `Año` key and its units: the input of the annual group-by. */
  function YearObs(t: Table): seq<Keyed<int>> {
    if |t| == 0 then [] else [Keyed(t[0].year, t[0].units)] + YearObs(t[1..])
  }

  lemma {:induction false} MonthsOfCons(t: Table)
    requires |t| > 0
    ensures MonthsOf(t) == {MonthOf(t[0])} + MonthsOf(t[1..])
    ensures YearsOf(t) == {t[0].year} + YearsOf(t[1..])
  {
    forall k | k in MonthsOf(t[1..]) ensures k in MonthsOf(t) {
      var i :| 0 <= i < |t[1..]| && MonthOf(t[1..][i]) == k;
      assert MonthOf(t[i + 1]) == k;
    }
    forall y | y in YearsOf(t[1..]) ensures y in YearsOf(t) {
      var i :| 0 <= i < |t[1..]| && t[1..][i].year == y;
      assert t[i + 1].year == y;
    }
    forall k | k in MonthsOf(t) ensures k in {MonthOf(t[0])} + MonthsOf(t[1..]) {
      var i :| 0 <= i < |t| && MonthOf(t[i]) == k;
      if i > 0 {
        assert MonthOf(t[1..][i - 1]) == k;
      }
    }
    forall y | y in YearsOf(t) ensures y in {t[0].year} + YearsOf(t[1..]) {
      var i :| 0 <= i < |t| && t[i].year == y;
      if i > 0 {
        assert t[1..][i - 1].year == y;
      }
    }
  }

  /** Units of a row sequence restricted to one leading element. */
  lemma {:induction false} WhereCons(t: Table, c: Criterion)
    requires |t| > 0
    ensures TotalUnits(Where(t, c)) == (if Matches(t[0], c) then t[0].units else 0) + TotalUnits(Where(t[1..], c))
  {
    if Matches(t[0], c) {
      assert ([t[0]] + Where(t[1..], c))[1..] == Where(t[1..], c);
    }
  }

  /** The monthly group-by input has the table's months as keys and the matching rows' units at each key. */
  lemma {:induction false} MonthObsFacts(t: Table)
    ensures KeySet(MonthObs(t)) == MonthsOf(t)
    ensures forall k :: UnitsAt(MonthObs(t), k) == TotalUnits(Where(t, MonthIs(k.year, k.month)))
    ensures Total(MonthObs(t)) == TotalUnits(t)
    decreases |t|
  {
    if |t| > 0 {
      var o := Keyed(MonthOf(t[0]), t[0].units);
      var rest := MonthObs(t[1..]);
      MonthObsFacts(t[1..]);
      MonthsOfCons(t);
      KeySetCons(o, rest);
      assert ([o] + rest)[1..] == rest;
      forall k ensures UnitsAt(MonthObs(t), k) == TotalUnits(Where(t, MonthIs(k.year, k.month))) {
        WhereCons(t, MonthIs(k.year, k.month));
      }
    }
  }

  /** The annual group-by input has the table's years as keys and the matching rows' units at each key. */
  lemma {:induction false} YearObsFacts(t: Table)
    ensures KeySet(YearObs(t)) == YearsOf(t)
    ensures forall y :: UnitsAt(YearObs(t), y) == TotalUnits(Where(t, YearIs(y)))
    ensures Total(YearObs(t)) == TotalUnits(t)
    decreases |t|
  {
    if |t| > 0 {
      var o := Keyed(t[0].year, t[0].units);
      var rest := YearObs(t[1..]);
      YearObsFacts(t[1..]);
      MonthsOfCons(t);
      KeySetCons(o, rest);
      assert ([o] + rest)[1..] == rest;
      forall y ensures UnitsAt(YearObs(t), y) == TotalUnits(Where(t, YearIs(y))) {
        WhereCons(t, YearIs(y));
      }
    }
  }

  /**
   `groupby(['Año', 'Mes'])['Unidades_vendidas'].sum()`: one entry per month present,
   in ascending (`Año`, `Mes`) order, each holding the units of that month's rows.
   */
  function MonthlyUnits(t: Table): (r: seq<Keyed<MonthKey>>)
    ensures forall i, j :: 0 <= i < j < |r| ==> MonthBefore(r[i].key, r[j].key)
    ensures KeySet(r) == MonthsOf(t)
    ensures forall i :: 0 <= i < |r| ==> r[i].units == TotalUnits(Where(t, MonthIs(r[i].key.year, r[i].key.month)))
    ensures forall k :: UnitsAt(r, k) == TotalUnits(Where(t, MonthIs(k.year, k.month)))
    ensures Total(r) == TotalUnits(t)
  {
    MonthOrderIsStrictTotal();
    MonthObsFacts(t);
    GroupSum(MonthObs(t), MonthBefore)
  }

  /**
   `groupby('Año')['Unidades_vendidas'].sum()`: one entry per year present, in
   ascending order, each holding the units of that year's rows.
   */
  function AnnualUnits(t: Table): (r: seq<Keyed<int>>)
    ensures forall i, j :: 0 <= i < j < |r| ==> r[i].key < r[j].key
    ensures KeySet(r) == YearsOf(t)
    ensures forall i :: 0 <= i < |r| ==> r[i].units == TotalUnits(Where(t, YearIs(r[i].key)))
    ensures forall y :: UnitsAt(r, y) == TotalUnits(Where(t, YearIs(y)))
    ensures Total(r) == TotalUnits(t)
  {
    YearOrderIsStrictTotal();
    YearObsFacts(t);
    var r := GroupSum(YearObs(t), YearBefore);
    assert forall i, j :: 0 <= i < j < |r| ==> YearBefore(r[i].key, r[j].key);
    r
  }

  lemma {:induction false} MonthsOfPermutation(t1: Table, t2: Table)
    requires multiset(t1) == multiset(t2)
    ensures MonthsOf(t1) == MonthsOf(t2)
    ensures YearsOf(t1) == YearsOf(t2)
  {
    forall k | k in MonthsOf(t1) ensures k in MonthsOf(t2) {
      var i :| 0 <= i < |t1| && MonthOf(t1[i]) == k;
      assert t1[i] in multiset(t2);
      var j :| 0 <= j < |t2| && t2[j] == t1[i];
    }
    forall k | k in MonthsOf(t2) ensures k in MonthsOf(t1) {
      var i :| 0 <= i < |t2| && MonthOf(t2[i]) == k;
      assert t2[i] in multiset(t1);
      var j :| 0 <= j < |t1| && t1[j] == t2[i];
    }
    forall y | y in YearsOf(t1) ensures y in YearsOf(t2) {
      var i :| 0 <= i < |t1| && t1[i].year == y;
      assert t1[i] in multiset(t2);
      var j :| 0 <= j < |t2| && t2[j] == t1[i];
    }
    forall y | y in YearsOf(t2) ensures y in YearsOf(t1) {
      var i :| 0 <= i < |t2| && t2[i].year == y;
      assert t2[i] in multiset(t1);
      var j :| 0 <= j < |t1| && t1[j] == t2[i];
    }
  }

  /** Reordering the rows of the table does not change the monthly aggregate. */
  lemma {:induction false} MonthlyUnitsIgnoresRowOrder(t1: Table, t2: Table)
    requires multiset(t1) == multiset(t2)
    ensures MonthlyUnits(t1) == MonthlyUnits(t2)
  {
    MonthOrderIsStrictTotal();
    MonthsOfPermutation(t1, t2);
    forall k ensures UnitsAt(MonthlyUnits(t1), k) == UnitsAt(MonthlyUnits(t2), k) {
      var c := MonthIs(k.year, k.month);
      WherePermutation(t1, t2, c);
      TotalUnitsPermutation(Where(t1, c), Where(t2, c));
    }
    AscendingAggregateUnique(MonthlyUnits(t1), MonthlyUnits(t2), MonthBefore);
  }

  /** Reordering the rows of the table does not change the annual aggregate. */
  lemma {:induction false} AnnualUnitsIgnoresRowOrder(t1: Table, t2: Table)
    requires multiset(t1) == multiset(t2)
    ensures AnnualUnits(t1) == AnnualUnits(t2)
  {
    YearOrderIsStrictTotal();
    MonthsOfPermutation(t1, t2);
    forall y ensures UnitsAt(AnnualUnits(t1), y) == UnitsAt(AnnualUnits(t2), y) {
      WherePermutation(t1, t2, YearIs(y));
      TotalUnitsPermutation(Where(t1, YearIs(y)), Where(t2, YearIs(y)));
    }
    var a1, a2 := AnnualUnits(t1), AnnualUnits(t2);
    assert StrictlyAscending(a1, YearBefore) && StrictlyAscending(a2, YearBefore);
    AscendingAggregateUnique(a1, a2, YearBefore);
  }

  /** Units of the entries of `g` that fall in year `y`. */
  function UnitsInYear(g: seq<Keyed<MonthKey>>, y: int): nat {
    if |g| == 0 then 0 else (if g[0].key.year == y then g[0].units else 0) + UnitsInYear(g[1..], y)
  }

  lemma {:induction false} UnitsInYearAddUnits(g: seq<Keyed<MonthKey>>, e: Keyed<MonthKey>, y: int)
    requires StrictTotalOrder(MonthBefore) && StrictlyAscending(g, MonthBefore)
    ensures UnitsInYear(AddUnits(g, e, MonthBefore), y) == UnitsInYear(g, y) + (if e.key.year == y then e.units else 0)
    decreases |g|
  {
    var r := AddUnits(g, e, MonthBefore);
    if |g| > 0 {
      var head, tail := g[0], g[1..];
      if head.key == e.key {
        assert r[1..] == tail;
      } else if MonthBefore(e.key, head.key) {
        assert r[1..] == g;
      } else {
        assert StrictlyAscending(tail, MonthBefore);
        UnitsInYearAddUnits(tail, e, y);
        assert r[1..] == AddUnits(tail, e, MonthBefore);
      }
    }
  }

  lemma {:induction false} UnitsInYearGroupSum(obs: seq<Keyed<MonthKey>>, y: int)
    requires StrictTotalOrder(MonthBefore)
    ensures UnitsInYear(GroupSum(obs, MonthBefore), y) == UnitsInYear(obs, y)
    decreases |obs|
  {
    if |obs| > 0 {
      UnitsInYearGroupSum(obs[1..], y);
      UnitsInYearAddUnits(GroupSum(obs[1..], MonthBefore), obs[0], y);
    }
  }

  lemma {:induction false} UnitsInYearOfRows(t: Table, y: int)
    ensures UnitsInYear(MonthObs(t), y) == TotalUnits(Where(t, YearIs(y)))
    decreases |t|
  {
    if |t| > 0 {
      var o := Keyed(MonthOf(t[0]), t[0].units);
      assert ([o] + MonthObs(t[1..]))[1..] == MonthObs(t[1..]);
      UnitsInYearOfRows(t[1..], y);
      WhereCons(t, YearIs(y));
    }
  }

  /**
   The annual aggregate is the monthly aggregate summed per year: its years are the
   years of the monthly keys and each year's units are that year's monthly units.
   */
  lemma {:induction false} AnnualIsSumOfMonthly(t: Table)
    ensures KeySet(AnnualUnits(t)) == set k | k in KeySet(MonthlyUnits(t)) :: k.year
    ensures forall y :: UnitsAt(AnnualUnits(t), y) == UnitsInYear(MonthlyUnits(t), y)
    ensures forall i :: 0 <= i < |AnnualUnits(t)| ==>
      AnnualUnits(t)[i].units == UnitsInYear(MonthlyUnits(t), AnnualUnits(t)[i].key)
    ensures Total(AnnualUnits(t)) == Total(MonthlyUnits(t))
  {
    MonthOrderIsStrictTotal();
    var years := set k | k in MonthsOf(t) :: k.year;
    forall y | y in YearsOf(t) ensures y in years {
      var i :| 0 <= i < |t| && t[i].year == y;
      assert MonthOf(t[i]) in MonthsOf(t);
    }
    forall y ensures UnitsAt(AnnualUnits(t), y) == UnitsInYear(MonthlyUnits(t), y) {
      UnitsInYearGroupSum(MonthObs(t), y);
      UnitsInYearOfRows(t, y);
    }
  }
}
