# Sales dashboard: the integer data pipeline

This project models the integer-valued data path of the sales dashboard script
`ejercicio.py`, written with Streamlit and pandas. The UI and the floating-point
metrics are left out. The model is a set of pure functions over a sequence of sales
rows `Sale(branch, product, year, month, units)`. These are the CSV columns
`Sucursal`, `Producto`, `Año`, `Mes` and `Unidades_vendidas`. The functions cover:

- the sidebar's branch options: `"Todas"` followed by `datos['Sucursal'].unique()`;
- the branch filter `datos[datos['Sucursal'] == sucursal]`, skipped for `"Todas"`;
- the product list `datos['Producto'].unique()` and one subset per product;
- the units sold per product (`.sum()`);
- the monthly aggregate `groupby(['Año', 'Mes'])['Unidades_vendidas'].sum()` and the
  annual aggregate `groupby('Año')['Unidades_vendidas'].sum()`. A pandas group-by
  sorts its keys by default. Here it is a sorted association list built by inserting
  each row (`GroupBy.AddUnits`, `GroupBy.GroupSum`);
- the chart's x positions (`range(len(...))`, `np.arange(len(...))`) and its tick
  labels: the year on a January entry, blank otherwise. A label is an `Option<int>`
  instead of a formatted string;
- one recomputation of the page for a chosen branch (`Dashboard.Dashboard`). It
  returns one panel per product.

Modules: `Seqs` (distinct values in first-appearance order, subsequences), `Sales`
(the row type, equality masks, units sum), `GroupBy` (the sorted group-by sum for any
key type with a strict total order), `Aggregates` (monthly and annual units), `Chart`
(x positions and tick labels), `Dashboard` (the script's main flow), `Options`.

Behaviour of the code that the model keeps as written:

- The code does not check that `Mes` lies in 1..12, so the model accepts any month.
- `"Todas"` is added in front of the branch list without checking it. A branch really
  named `"Todas"` would be listed twice, and choosing it would still select every row.
- Lines 77 and 86 divide by `Unidades_vendidas` and `Ingreso_total` without a zero
  guard. `pct_change()` over a single year yields NaN (lines 82, 91, 99). Both belong
  to the floating-point metrics, which are left out.

## Model

| member | source | states |
|---|---|---|
| Dashboard.BranchOptions | ejercicio.py:55 | The options start with `"Todas"`. After it, each branch of the table appears exactly once: no duplicates, no branch missing, nothing that is not a branch, ordered by each branch's first row. |
| Seqs.Distinct | ejercicio.py:55 | `unique()`: lists every value of the column exactly once, ordered by first occurrence. |
| Seqs.DistinctIsUnique | ejercicio.py:68 | Any list that has each value once, in first-occurrence order, equals `Distinct`. So the option list and the product list are determined by that description. |
| Dashboard.FilterBranch | ejercicio.py:61-62 | `"Todas"` returns the table unchanged. Any other choice keeps exactly the rows of that branch, each as often as in the table. The result is a subsequence of the table, so the original order is kept. |
| Sales.Where | ejercicio.py:74 | The boolean-mask selection keeps every matching row with its full multiplicity and no other row. It keeps the original order (a subsequence). |
| Dashboard.ProductList | ejercicio.py:68 | Each product of the filtered table appears once, in order of first appearance. Nothing else is listed. |
| Dashboard.ProductSubsets | ejercicio.py:70-74 | One subset per listed product, in list order. Subset k is the product mask applied for the k-th product. By the contract of `Sales.Where`, it therefore holds exactly the rows of that product, in table order. |
| Dashboard.RowInOneSubset | ejercicio.py:68-74 | Every row of the table lies in at least one product subset and in at most one. |
| Dashboard.ProductSubsetsPartition | ejercicio.py:68-74 | Concatenated, the product subsets are a permutation of the table. Their units add up to the table's units. |
| Dashboard.FlattenSubsetsCount | ejercicio.py:70-74 | For a duplicate-free product list, a row occurs in the concatenated subsets as often as in the table if its product is listed, and never otherwise. |
| Dashboard.Panels | ejercicio.py:70-73 | One panel per listed product, and panel k is the panel of the k-th product. |
| Dashboard.PanelsUnits | ejercicio.py:70-95 | The units sold shown on the panels add up to the units of the product subsets. |
| Dashboard.BranchFilterThenProduct | ejercicio.py:61-74 | Filtering by branch and then by product gives that product's rows of that branch. The result is a subsequence of the unfiltered product subset, never has more rows, and never has more units. |
| Dashboard.Panel | ejercicio.py:74-98 | A product's panel holds exactly that product's rows, each as often as in the table, in table order. Its units sold are the sum over those rows. Its monthly and annual aggregates are those of its rows, and both add up to its units sold. Its x positions and tick labels are those of its monthly aggregate. |
| Dashboard.Dashboard | ejercicio.py:51-113 | One panel per product of the filtered table, in first-appearance order. Each panel is the panel of its product over the filtered table, so it holds exactly that product's filtered rows with their units and chart data. The panels' units add up to the filtered table's units. |
| GroupBy.AddUnits | ejercicio.py:8 | Adding one keyed row to a sorted aggregate keeps it strictly ascending. The key set gains that key. Only that key's units grow, and they grow by the row's units. |
| GroupBy.GroupSum | ejercicio.py:8 | The sorted group-by sum: keys strictly ascending, exactly the input's keys. Each group's units are the units of the input rows with that key. The grand total is preserved. |
| GroupBy.AscendingAggregateUnique | ejercicio.py:8 | Two strictly ascending aggregates with the same keys and the same units at every key are equal. |
| Aggregates.MonthlyUnits | ejercicio.py:8 | Strictly ascending (`Año`, `Mes`) keys, one per month present. Each entry's units are the sum over that month's rows. The entries add up to the table's units. |
| Aggregates.MonthlyUnitsIgnoresRowOrder | ejercicio.py:7-8 | Two tables with the same rows in any order give the same monthly aggregate. |
| Aggregates.AnnualUnits | ejercicio.py:98 | Strictly ascending years, one per year present. Each year's units are the sum over that year's rows. The entries add up to the table's units. |
| Aggregates.AnnualUnitsIgnoresRowOrder | ejercicio.py:98 | Two tables with the same rows in any order give the same annual aggregate. |
| Aggregates.AnnualIsSumOfMonthly | ejercicio.py:98 | The annual years are the years of the monthly keys. Each year's units are the sum of that year's monthly entries. Both aggregates have the same total. |
| Aggregates.MonthObsFacts | ejercicio.py:8 | The rows reduced to (`Año`, `Mes`) keys have the table's months as keys. The units at a key are the units of that month's rows. |
| Chart.XPositions | ejercicio.py:12-15 | The plotted series and the trend fit use positions 0..N-1. |
| Chart.TickLabels | ejercicio.py:25-33 | There is one label per monthly entry. A label is present exactly when the entry's month is 1, and then it is the entry's year. |
| Chart.JanuaryLabelsAscending | ejercicio.py:27-33 | On a chronologically ordered aggregate, the labelled years strictly increase, so each year is shown at most once. A year is shown exactly when its January is present. |
| Sales.TotalUnitsBounds | ejercicio.py:95 | The `.sum()` of `Unidades_vendidas` is at least each row's units. It is zero exactly when every row sold zero units. |
| Sales.TotalUnitsAppend | ejercicio.py:95 | The sum over two tables laid end to end is the sum of their sums. |
| Sales.TotalUnitsPermutation | ejercicio.py:95 | The units sum depends only on which rows occur and how often, not on their order. |
| Sales.WhereUnitsBound | ejercicio.py:95 | Selecting rows never increases the units sum. |
| Sales.WhereCommutes | ejercicio.py:61-74 | Applying the branch mask and then the product mask gives the same rows as the reverse order. The same holds for any two masks. |

## Left out

- Streamlit UI: the sidebar, the file uploader, containers, titles, `st.metric`, `st.pyplot` and `mostrar_informacion_alumno` (ejercicio.py lines 41-51, 57-58, 63-65, 71-73, 102-116). These are presentation and I/O.
- CSV parsing with `pd.read_csv` (line 52). This is a foreign library and I/O. The model starts from parsed rows. `Ingreso_total` and `Costo_total` are not carried because only the float metrics read them.
- Float metrics: average price, profit and margin (lines 77-91), `unidades_promedio` (line 94), and the `pct_change().mean()` year-over-year deltas (lines 82, 91, 99). They are floating point and rely on pandas' NaN and infinity behaviour for division by zero and for a single year.
- Trend line and chart drawing: `np.polyfit`, `np.poly1d` and all matplotlib calls (lines 11-23, 34-39). These are float numerics and rendering in foreign libraries. Only the x positions and the tick labels are modelled.
- Thousands-separator formatting of the metric strings (lines 106-108). This is display formatting of floats.
- Chart.TickLabels: a label is the year as an integer, not the f-string `f"{row.Año}"`. A blank label is `None` instead of `""`.
- Sales.WhereUnitsBound: `Unidades_vendidas` is modelled as a `nat`, so negative units (returns) are not covered. The code accepts them. This lemma, and the units bound of `Dashboard.BranchFilterThenProduct`, hold only because units are never negative.
- Sales.TotalUnits: pandas sums an int64 column and wraps around silently on overflow (lines 8, 95, 98). The model's sums are unbounded integers, so the aggregates and totals do not model wrap-around.
- Dashboard.RowInOneSubset: a missing `Sucursal` or `Producto` value is read as NaN. `unique()` lists NaN (lines 55, 68), but `datos['Producto'] == nan` matches no row (line 74). Such a row lies in no subset, so this lemma and `Dashboard.ProductSubsetsPartition` do not hold for it. `np.polyfit` on that empty subset then raises an error (line 17), and the later panels are not drawn. The model has no missing values: every branch and product is a string.
- Group keys are never missing values here. pandas' dropping of NaN group keys therefore does not arise and is not modelled.
