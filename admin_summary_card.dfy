/**
 * The admin summary over `{ name, marks }` records: the student count, the
 * three best by marks (from a sorted copy, so the dataset keeps its order),
 * the class average to two decimals, and how many students are below it.
 */
module AdminSummaryCard {
  import opened Wrappers
  import opened Rounding
  import opened Stats
  import opened Sorting
  import opened MarkedStudents

  /** `getTotalStudents`. */
  function GetTotalStudents(dataset: seq<MarkedStudent>): (r: nat)
    ensures r == |dataset|
  {
    |dataset|
  }

  function MarksKey(s: MarkedStudent): real
  {
    s.marks
  }

  /** How many top performers the card lists: three, or all of a smaller class. */
  function TopCount(n: nat): nat
  {
    if n < 3 then n else 3
  }

  /**
   * `getTopPerformers`: the first three of a copy sorted by `b.marks - a.marks`.
   * They are the best marks in order, taken from the dataset, and nobody left
   * out scores above any of them.
   */
  function GetTopPerformers(dataset: seq<MarkedStudent>): (r: seq<MarkedStudent>)
    ensures |r| == TopCount(|dataset|)
    ensures r == SortDescBy(dataset, MarksKey)[..|r|]
    ensures SortedDesc(r, MarksKey)
    ensures multiset(r) <= multiset(dataset)
    ensures forall x, y :: x in multiset(dataset) - multiset(r) && y in r ==> x.marks <= y.marks
  {
    var sorted := SortDescBy(dataset, MarksKey);
    var k := TopCount(|dataset|);
    SortDescBySorted(dataset, MarksKey);
    SortedPrefixDominates(sorted, MarksKey, k);
    sorted[..k]
  }

  /** `getClassAverage`: 0 for an empty dataset, else the mean of the marks to two decimals. */
  function GetClassAverage(dataset: seq<MarkedStudent>): (r: real)
    ensures dataset == [] ==> r == 0.0
    ensures dataset != [] ==> -0.005 <= r - Mean(Marks(dataset)).value <= 0.005
    ensures IsCents(r)
  {
    if dataset == [] then
      RoundWholeCents(0);
      0.0
    else
      var mean := Mean(Marks(dataset)).value;
      Round2Idempotent(mean);
      Round2(mean)
  }

  /** `getCountBelowAverage`: the students whose marks are strictly below the (rounded) class average. */
  function GetCountBelowAverage(dataset: seq<MarkedStudent>): (r: nat)
    ensures r <= |dataset|
    ensures dataset == [] ==> r == 0
    ensures r == CountLess(Marks(dataset), GetClassAverage(dataset))
  {
    CountLess(Marks(dataset), GetClassAverage(dataset))
  }

  /** When every mark has at most two decimals, at least one student is at or above the class average. */
  lemma CentsMarksNotAllBelow(dataset: seq<MarkedStudent>)
    requires dataset != []
    requires forall i :: 0 <= i < |dataset| ==> IsCents(dataset[i].marks)
    ensures GetCountBelowAverage(dataset) < |dataset|
  {
    var marks := Marks(dataset);
    var mean := Mean(marks).value;
    MeanAttained(marks);
    var k :| 0 <= k < |marks| && marks[k] >= mean;
    Round2BelowCentsAbove(mean, marks[k]);
    CountLessMissesWitness(marks, GetClassAverage(dataset), k);
  }

  /** Marks with more decimals can all fall below the rounded average: one student with 66.666 is counted below 66.67. */
  lemma RoundedAverageCanExceedEveryone()
    ensures GetClassAverage([MarkedStudent("A", 66.666)]) == 66.67
    ensures GetCountBelowAverage([MarkedStudent("A", 66.666)]) == 1
  {
    var ds := [MarkedStudent("A", 66.666)];
    assert Marks(ds) == [66.666];
    assert Sum([66.666]) == 66.666;
    assert Cents(66.666) == 6667;
  }

  /** The four figures the card shows. */
  datatype AdminSummary = AdminSummary(
    totalStudents: nat, topPerformers: seq<MarkedStudent>, classAverage: real, countBelowAverage: nat)

  /** The card's figures for `dataset`; an empty dataset shows zeros and no top performers. */
  function RenderAdminSummary(dataset: seq<MarkedStudent>): (r: AdminSummary)
    ensures r.totalStudents == |dataset|
    ensures |r.topPerformers| == TopCount(|dataset|) && multiset(r.topPerformers) <= multiset(dataset)
    ensures r.countBelowAverage <= r.totalStudents
    ensures dataset == [] ==> r == AdminSummary(0, [], 0.0, 0)
    ensures r.topPerformers == GetTopPerformers(dataset)
    ensures r.classAverage == GetClassAverage(dataset) && r.countBelowAverage == GetCountBelowAverage(dataset)
  {
    AdminSummary(GetTotalStudents(dataset), GetTopPerformers(dataset),
      GetClassAverage(dataset), GetCountBelowAverage(dataset))
  }
}
