/**
 The script's main flow once a CSV has been loaded (ejercicio.py lines 51-113), as a
 pure function of the table and the branch chosen in the sidebar: the branch
 options, the branch filter, the product list, one subset per product, and for
 each product its units sold and the data behind its chart.
 */
module Dashboard {
  import opened Options
  import opened Seqs
  import opened Sales
  import opened GroupBy
  import opened Aggregates
  import opened Chart

  /** The sidebar option that stands for every branch. */
  const AllBranches: string := "Todas"

  /** The `Sucursal` column. */
  function BranchColumn(t: Table): seq<string> {
    seq(|t|, i requires 0 <= i < |t| => t[i].branch)
  }

  /** The `Producto` column. */
  function ProductColumn(t: Table): seq<string> {
    seq(|t|, i requires 0 <= i < |t| => t[i].product)
  }

  /**
   The sidebar's branch options: `"Todas"` followed by each branch of the table once,
   in order of first appearance.
   */
  function BranchOptions(t: Table): (r: seq<string>)
    ensures |r| >= 1 && r[0] == AllBranches
    ensures ListsFirstAppearances(r[1..], BranchColumn(t))
  {
    var branches := Distinct(BranchColumn(t));
    assert ([AllBranches] + branches)[1..] == branches;
    [AllBranches] + branches
  }

  /**
   The table the rest of the page works on: unchanged for `"Todas"`, otherwise the
   rows of the chosen branch in their original order.
   */
  function FilterBranch(t: Table, choice: string): (r: Table)
    ensures choice == AllBranches ==> r == t
    ensures choice != AllBranches ==>
      forall x :: multiset(r)[x] == if x.branch == choice then multiset(t)[x] else 0
    ensures choice != AllBranches ==> forall x :: x in r <==> x in t && x.branch == choice
    ensures IsSubsequence(r, t)
  {
    if choice != AllBranches then Where(t, BranchIs(choice))
    else
      SubsequenceReflexive(t);
      t
  }

  /** `datos['Producto'].unique()`: each product of the table once, in order of first appearance. */
  function ProductList(t: Table): (r: seq<string>)
    ensures ListsFirstAppearances(r, ProductColumn(t))
  {
    Distinct(ProductColumn(t))
  }

  /** `datos[datos['Producto'] == p]` for each product `p` of `ps`, in the order of `ps`. */
  function ProductSubsets(t: Table, ps: seq<string>): (r: seq<Table>)
    ensures |r| == |ps|
    ensures forall k :: 0 <= k < |ps| ==> r[k] == Where(t, ProductIs(ps[k]))
  {
    seq(|ps|, k requires 0 <= k < |ps| => Where(t, ProductIs(ps[k])))
  }

  /** The subsets one after the other. */
  function Flatten(ss: seq<Table>): Table {
    if |ss| == 0 then [] else ss[0] + Flatten(ss[1..])
  }

  lemma {:induction false} FlattenUnits(ss: seq<Table>)
    ensures TotalUnits(Flatten(ss)) == SumOfUnits(ss)
    decreases |ss|
  {
    if |ss| > 0 {
      FlattenUnits(ss[1..]);
      TotalUnitsAppend(ss[0], Flatten(ss[1..]));
    }
  }

  /** The units of each subset, added up. */
  function SumOfUnits(ss: seq<Table>): nat {
    if |ss| == 0 then 0 else TotalUnits(ss[0]) + SumOfUnits(ss[1..])
  }

  /** With distinct products, a row of a listed product lands in the subsets exactly as often as in the table, any other row never. */
  lemma {:induction false} FlattenSubsetsCount(t: Table, ps: seq<string>, x: Sale)
    requires NoDuplicates(ps)
    ensures multiset(Flatten(ProductSubsets(t, ps)))[x] == if x.product in ps then multiset(t)[x] else 0
    decreases |ps|
  {
    if |ps| > 0 {
      var ss := ProductSubsets(t, ps);
      var head := Where(t, ProductIs(ps[0]));
      assert ss[0] == head && ss[1..] == ProductSubsets(t, ps[1..]);
      assert NoDuplicates(ps[1..]);
      FlattenSubsetsCount(t, ps[1..], x);
      assert multiset(Flatten(ss)) == multiset(head) + multiset(Flatten(ss[1..]));
      assert ps == [ps[0]] + ps[1..];
      assert ps[0] !in ps[1..];
      assert Matches(x, ProductIs(ps[0])) <==> x.product == ps[0];
    }
  }

  /** Every row of the table lies in exactly one of the product subsets. */
  lemma {:induction false} RowInOneSubset(t: Table, x: Sale)
    requires x in t
    ensures exists k :: 0 <= k < |ProductList(t)| && x in ProductSubsets(t, ProductList(t))[k]
    ensures forall k, k' ::
      (0 <= k < |ProductList(t)| && 0 <= k' < |ProductList(t)| &&
       x in ProductSubsets(t, ProductList(t))[k] && x in ProductSubsets(t, ProductList(t))[k']) ==> k == k'
  {
    var ps := ProductList(t);
    var ss := ProductSubsets(t, ps);
    var i :| 0 <= i < |t| && t[i] == x;
    assert ProductColumn(t)[i] == x.product;
    var k := IndexOf(ps, x.product);
    assert x in ss[k];
    forall k1, k2 | 0 <= k1 < |ps| && 0 <= k2 < |ps| && x in ss[k1] && x in ss[k2] ensures k1 == k2 {
      assert ps[k1] == x.product == ps[k2];
    }
  }

  /**
   Laid end to end, the product subsets hold every row of the table exactly as often
   as the table does, so their units add up to the table's units.
   */
  lemma {:induction false} ProductSubsetsPartition(t: Table)
    ensures multiset(Flatten(ProductSubsets(t, ProductList(t)))) == multiset(t)
    ensures SumOfUnits(ProductSubsets(t, ProductList(t))) == TotalUnits(t)
  {
    var ps := ProductList(t);
    var ss := ProductSubsets(t, ps);
    forall x ensures multiset(Flatten(ss))[x] == multiset(t)[x] {
      FlattenSubsetsCount(t, ps, x);
      if x in t {
        var i :| 0 <= i < |t| && t[i] == x;
        assert ProductColumn(t)[i] == x.product;
      }
    }
    assert multiset(Flatten(ss)) == multiset(t);
    TotalUnitsPermutation(Flatten(ss), t);
    FlattenUnits(ss);
  }

  /**
   Filtering by branch before taking a product's subset keeps only that product's
   rows of that branch: a subsequence of the unfiltered subset, never longer and
   never holding more units.
   */
  lemma {:induction false} BranchFilterThenProduct(t: Table, choice: string, p: string)
    ensures choice != AllBranches ==>
      Where(FilterBranch(t, choice), ProductIs(p)) == Where(Where(t, ProductIs(p)), BranchIs(choice))
    ensures IsSubsequence(Where(FilterBranch(t, choice), ProductIs(p)), Where(t, ProductIs(p)))
    ensures |Where(FilterBranch(t, choice), ProductIs(p))| <= |Where(t, ProductIs(p))|
    ensures TotalUnits(Where(FilterBranch(t, choice), ProductIs(p))) <= TotalUnits(Where(t, ProductIs(p)))
  {
    var subset := Where(t, ProductIs(p));
    var filtered := Where(FilterBranch(t, choice), ProductIs(p));
    if choice != AllBranches {
      WhereCommutes(t, BranchIs(choice), ProductIs(p));
      WhereUnitsBound(subset, BranchIs(choice));
    } else {
      SubsequenceReflexive(subset);
    }
    SubsequenceLength(filtered, subset);
  }

  /** Everything the page shows for one product, apart from the floating-point metrics and the trend fit. */
  datatype ProductPanel = ProductPanel(
    product: string,
    rows: Table,
    totalUnits: nat,
    monthly: seq<Keyed<MonthKey>>,
    annual: seq<Keyed<int>>,
    xPositions: seq<int>,
    tickLabels: seq<Option<int>>)

  /** The panel of product `p` of the (already branch-filtered) table `t`. */
  function Panel(t: Table, p: string): (r: ProductPanel)
    ensures r.product == p
    ensures forall x :: multiset(r.rows)[x] == if x.product == p then multiset(t)[x] else 0
    ensures forall x :: x in r.rows <==> x in t && x.product == p
    ensures IsSubsequence(r.rows, t)
    ensures r.totalUnits == TotalUnits(r.rows)
    ensures r.monthly == MonthlyUnits(r.rows) && r.annual == AnnualUnits(r.rows)
    ensures Total(r.monthly) == r.totalUnits && Total(r.annual) == r.totalUnits
    ensures r.xPositions == XPositions(|r.monthly|) && r.tickLabels == TickLabels(r.monthly)
  {
    var rows := Where(t, ProductIs(p));
    var monthly := MonthlyUnits(rows);
    ProductPanel(p, rows, TotalUnits(rows), monthly, AnnualUnits(rows), XPositions(|monthly|), TickLabels(monthly))
  }

  /** The panels of the products `ps`, in that order. */
  function Panels(t: Table, ps: seq<string>): (r: seq<ProductPanel>)
    ensures |r| == |ps|
    ensures forall k :: 0 <= k < |ps| ==> r[k].product == ps[k]
    ensures forall k :: 0 <= k < |ps| ==> r[k] == Panel(t, ps[k])
  {
    seq(|ps|, k requires 0 <= k < |ps| => Panel(t, ps[k]))
  }

  /** The units shown on the panels add up to the units of the product subsets. */
  lemma {:induction false} PanelsUnits(t: Table, ps: seq<string>)
    ensures SumOfTotals(Panels(t, ps)) == SumOfUnits(ProductSubsets(t, ps))
    decreases |ps|
  {
    if |ps| > 0 {
      var r, ss := Panels(t, ps), ProductSubsets(t, ps);
      assert r[1..] == Panels(t, ps[1..]);
      assert ss[1..] == ProductSubsets(t, ps[1..]);
      assert r[0] == Panel(t, ps[0]);
      PanelsUnits(t, ps[1..]);
    }
  }

  lemma {:induction false} PanelRows(t: Table, ps: seq<string>)
    ensures forall k, x :: 0 <= k < |ps| ==> (x in Panels(t, ps)[k].rows <==> x in t && x.product == Panels(t, ps)[k].product)
  {
    var r := Panels(t, ps);
    forall k, x | 0 <= k < |ps| ensures x in r[k].rows <==> x in t && x.product == r[k].product {
      var panel := Panel(t, ps[k]);
      assert r[k] == panel;
    }
  }

  lemma {:induction false} PanelsShown(t: Table, ps: seq<string>)
    ensures ProductsShown(Panels(t, ps)) == ps
  {
    var r := Panels(t, ps);
    assert forall k :: 0 <= k < |ps| ==> ProductsShown(r)[k] == r[k].product == ps[k];
  }

  function SumOfTotals(panels: seq<ProductPanel>): nat {
    if |panels| == 0 then 0 else panels[0].totalUnits + SumOfTotals(panels[1..])
  }

  function ProductsShown(panels: seq<ProductPanel>): seq<string> {
    seq(|panels|, k requires 0 <= k < |panels| => panels[k].product)
  }

  /**
   One recomputation of the page for the chosen branch: one panel per product of the
   filtered table, in order of first appearance, each over exactly that product's
   filtered rows; the panels' units add up to the filtered table's units.
   */
  function Dashboard(t: Table, choice: string): (r: seq<ProductPanel>)
    ensures ListsFirstAppearances(ProductsShown(r), ProductColumn(FilterBranch(t, choice)))
    ensures forall k, x :: 0 <= k < |r| ==>
      (x in r[k].rows <==> x in FilterBranch(t, choice) && x.product == r[k].product)
    ensures forall k :: 0 <= k < |r| ==> r[k] == Panel(FilterBranch(t, choice), r[k].product)
    ensures SumOfTotals(r) == TotalUnits(FilterBranch(t, choice))
  {
    var ft := FilterBranch(t, choice);
    var ps := ProductList(ft);
    var r := Panels(ft, ps);
    PanelsShown(ft, ps);
    PanelRows(ft, ps);
    PanelsUnits(ft, ps);
    ProductSubsetsPartition(ft);
    r
  }
}
