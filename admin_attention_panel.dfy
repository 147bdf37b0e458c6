/**
 * The admin attention panel: the students whose average is below the class
 * average, lowest first, each with its weakest subject and the gap to close.
 */
module AdminAttentionPanel {
  import opened Wrappers
  import opened Rounding
  import opened Stats
  import opened Sorting
  import opened PerformanceHelpers

  /** `subjects[a] < subjects[b]` on raw fields: false as soon as either side is not a number (NaN). */
  predicate LessField(a: Field, b: Field)
  {
    a.Number? && b.Number? && a.value < b.value
  }

  /** One step of the reduce: the challenger replaces the current weakest only when strictly lower. */
  function Weaker(student: Student, weak: Subject, subject: Subject): Subject
  {
    if LessField(Mark(student, subject), Mark(student, weak)) then subject else weak
  }

  /** The position of a subject in Math, Biology, Physics. */
  function Order(subject: Subject): nat
  {
    match subject
    case Math => 0
    case Biology => 1
    case Physics => 2
  }

  /**
   * `getWeakestSubject`: reduces Math, Biology, Physics from Math. With three
   * numeric marks it is a lowest one and the earliest among equals; a
   * non-numeric Math mark is never replaced.
   */
  function GetWeakestSubject(student: Student): (r: Subject)
    ensures (student.math.Number? && student.biology.Number? && student.physics.Number?) ==>
      forall s: Subject :: Score(student, r) <= Score(student, s)
    ensures (student.math.Number? && student.biology.Number? && student.physics.Number?) ==>
      forall s: Subject :: Order(s) < Order(r) ==> Score(student, s) > Score(student, r)
    ensures student.math.NonNumeric? ==> r == Math
  {
    Weaker(student, Weaker(student, Math, Biology), Physics)
  }

  /** One row of the panel; `improvementNeeded` is the absolute rounded gap to the class average. */
  datatype AttentionEntry = AttentionEntry(name: string, average: real, weakestSubject: Subject, improvementNeeded: real)

  /** The row built for one student against the class average. */
  function Entry(student: Student, classAverage: real): AttentionEntry
  {
    var average := CalculateStudentAverage(Some(student));
    var gap := Round2(classAverage - average);
    AttentionEntry(student.name, Round2(average), GetWeakestSubject(student), if gap < 0.0 then -gap else gap)
  }

  /** `dataset.map(...)`. */
  function Entries(dataset: seq<Student>, classAverage: real): (r: seq<AttentionEntry>)
    ensures |r| == |dataset|
    ensures forall i :: 0 <= i < |r| ==> r[i] == Entry(dataset[i], classAverage)
  {
    seq(|dataset|, i requires 0 <= i < |dataset| => Entry(dataset[i], classAverage))
  }

  /** `.filter(s => s.average < classAverage)`, in order. */
  function BelowAverage(entries: seq<AttentionEntry>, classAverage: real): (r: seq<AttentionEntry>)
    ensures |r| <= |entries|
    ensures forall e :: e in r ==> e in entries && e.average < classAverage
    ensures forall e :: e in entries && e.average < classAverage ==> e in r
  {
    if entries == [] then []
    else
      var rest := BelowAverage(entries[1..], classAverage);
      if entries[0].average < classAverage then [entries[0]] + rest else rest
  }

  /** The ascending sort of the panel, as the descending sort by the negated average. */
  function NegatedAverage(e: AttentionEntry): real
  {
    -e.average
  }

  /**
   * `getStudentsNeedingAttention`: nothing for a missing or empty dataset;
   * otherwise the rows of the students whose average is strictly below the
   * class average, lowest average first, ties in dataset order.
   */
  function GetStudentsNeedingAttention(dataset: Option<seq<Student>>): (r: seq<AttentionEntry>)
    ensures dataset.None? || dataset.value == [] ==> r == []
    ensures dataset.Some? ==> |r| <= |dataset.value|
    ensures dataset.Some? ==> var classAverage := CalculateClassAverage(dataset.value);
      && multiset(r) == multiset(BelowAverage(Entries(dataset.value, classAverage), classAverage))
      && (forall i :: 0 <= i < |r| ==> r[i].average < classAverage)
    ensures forall i, j :: 0 <= i < j < |r| ==> r[i].average <= r[j].average
  {
    if dataset.None? || dataset.value == [] then []
    else
      var classAverage := CalculateClassAverage(dataset.value);
      var below := BelowAverage(Entries(dataset.value, classAverage), classAverage);
      var r := SortDescBy(below, NegatedAverage);
      SortDescBySorted(below, NegatedAverage);
      assert forall i :: 0 <= i < |r| ==> r[i] in multiset(below);
      r
  }

  /** Rows with the same average appear in the panel in dataset order. */
  lemma TiesInDatasetOrder(dataset: seq<Student>, average: real)
    requires dataset != []
    ensures var classAverage := CalculateClassAverage(dataset);
      WithKey(GetStudentsNeedingAttention(Some(dataset)), NegatedAverage, -average)
        == WithKey(BelowAverage(Entries(dataset, classAverage), classAverage), NegatedAverage, -average)
  {
    var classAverage := CalculateClassAverage(dataset);
    var below := BelowAverage(Entries(dataset, classAverage), classAverage);
    var r := GetStudentsNeedingAttention(Some(dataset));
    assert r == SortDescBy(below, NegatedAverage);
    SortedTiesKept(below, r, average);
  }

  lemma SortedTiesKept(below: seq<AttentionEntry>, r: seq<AttentionEntry>, average: real)
    requires r == SortDescBy(below, NegatedAverage)
    ensures WithKey(r, NegatedAverage, -average) == WithKey(below, NegatedAverage, -average)
  {
    SortDescByStable(below, NegatedAverage, -average);
  }

  /** Every row names a dataset student and carries that student's own row. */
  lemma EntriesComeFromDataset(dataset: seq<Student>, e: AttentionEntry)
    requires e in GetStudentsNeedingAttention(Some(dataset))
    ensures exists j :: 0 <= j < |dataset| && e == Entry(dataset[j], CalculateClassAverage(dataset))
  {
    var classAverage := CalculateClassAverage(dataset);
    var entries := Entries(dataset, classAverage);
    assert e in multiset(BelowAverage(entries, classAverage));
    var j :| 0 <= j < |entries| && entries[j] == e;
  }

  /**
   * A row's average is the student's two-decimal average, and its
   * `improvementNeeded` is exactly the gap from it to the class average,
   * which is positive.
   */
  lemma EntryGap(student: Student, classAverage: real)
    requires IsCents(classAverage) && CalculateStudentAverage(Some(student)) < classAverage
    ensures Entry(student, classAverage).average == CalculateStudentAverage(Some(student))
    ensures Entry(student, classAverage).improvementNeeded == classAverage - Entry(student, classAverage).average > 0.0
  {
    var average := CalculateStudentAverage(Some(student));
    CentsDifference(classAverage, average);
  }

  /** The panel lists exactly as many students as have an average strictly below the class average. */
  lemma AttentionCount(dataset: seq<Student>)
    ensures |GetStudentsNeedingAttention(Some(dataset))| == CountLess(Averages(dataset), CalculateClassAverage(dataset))
  {
    var classAverage := CalculateClassAverage(dataset);
    if dataset != [] {
      BelowAverageCount(dataset, classAverage);
    }
  }

  lemma {:induction false} BelowAverageCount(dataset: seq<Student>, classAverage: real)
    ensures |BelowAverage(Entries(dataset, classAverage), classAverage)| == CountLess(Averages(dataset), classAverage)
  {
    if dataset != [] {
      var entries := Entries(dataset, classAverage);
      assert entries[1..] == Entries(dataset[1..], classAverage);
      assert Averages(dataset)[1..] == Averages(dataset[1..]);
      BelowAverageCount(dataset[1..], classAverage);
      var average := CalculateStudentAverage(Some(dataset[0]));
      Round2Idempotent(average);
      assert Round2(average) == average;
    }
  }

  /** Because student averages have two decimals, someone is always at or above the class average, so the panel never lists everybody. */
  lemma NotEveryoneNeedsAttention(dataset: seq<Student>)
    requires dataset != []
    ensures |GetStudentsNeedingAttention(Some(dataset))| < |dataset|
  {
    AttentionCount(dataset);
    NotEveryoneBelowClassAverage(dataset);
  }
}
