/**
 The integer parts of the monthly sales chart built by `crear_grafico_ventas`
 (ejercicio.py lines 6-39): the x positions shared by the plotted series and the
 trend fit, and the x-axis tick labels. The least-squares fit and the drawing
 itself are floating point and rendering, and are not modelled.
 */
module Chart {
  import opened Options
  import opened GroupBy
  import opened Aggregates

  /** `range(n)` / `np.arange(n)`: the index of each monthly entry on the x axis. */
  function XPositions(n: nat): (x: seq<int>)
    ensures |x| == n
    ensures forall i :: 0 <= i < n ==> x[i] == i
  {
    seq(n, i => i)
  }

  /**
   One tick label per monthly entry: the entry's year on a January (`Mes == 1`)
   and blank otherwise. A blank label is `None`.
   */
  function TickLabels(m: seq<Keyed<MonthKey>>): (labels: seq<Option<int>>)
    ensures |labels| == |m|
    ensures forall i :: 0 <= i < |m| ==> (labels[i].Some? <==> m[i].key.month == 1)
    ensures forall i :: 0 <= i < |m| && labels[i].Some? ==> labels[i].value == m[i].key.year
  {
    seq(|m|, i requires 0 <= i < |m| => if m[i].key.month == 1 then Some(m[i].key.year) else None)
  }

  /**
   On a chronologically ordered monthly aggregate, the labelled years strictly
   increase from left to right, so each year is shown at most once, and a year is
   shown exactly when its January is present.
   */
  lemma {:induction false} JanuaryLabelsAscending(m: seq<Keyed<MonthKey>>)
    requires forall i, j :: 0 <= i < j < |m| ==> MonthBefore(m[i].key, m[j].key)
    ensures forall i, j :: 0 <= i < j < |m| && TickLabels(m)[i].Some? && TickLabels(m)[j].Some? ==>
      TickLabels(m)[i].value < TickLabels(m)[j].value
    ensures forall y :: Some(y) in TickLabels(m) <==> MonthKey(y, 1) in KeySet(m)
  {
    var labels := TickLabels(m);
    forall y ensures Some(y) in labels <==> MonthKey(y, 1) in KeySet(m) {
      if Some(y) in labels {
        var i :| 0 <= i < |labels| && labels[i] == Some(y);
        assert m[i].key == MonthKey(y, 1);
      }
      if MonthKey(y, 1) in KeySet(m) {
        var i :| 0 <= i < |m| && m[i].key == MonthKey(y, 1);
        assert labels[i] == Some(y);
      }
    }
  }
}
