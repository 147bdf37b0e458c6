/**
 * The standing of one student in a dataset of `{ name, marks }` records: the
 * case-insensitive lookup, the competition rank (one more than the number of
 * students with strictly higher marks, so ties share a rank), the percentile
 * of students ahead, and the four-tier badge.
 */
module StudentSummaryCard {
  import opened Wrappers
  import opened Text
  import opened Stats
  import opened MarkedStudents

  /** `dataset.find(...)` by lower-cased name: the first record whose name matches, if any. */
  function FindStudent(dataset: seq<MarkedStudent>, studentName: string): (r: Option<MarkedStudent>)
    ensures r.None? ==> forall j :: 0 <= j < |dataset| ==> !SameIgnoringCase(dataset[j].name, studentName)
    ensures r.Some? ==> exists k :: (
      && 0 <= k < |dataset| && dataset[k] == r.value
      && SameIgnoringCase(dataset[k].name, studentName)
      && forall j :: 0 <= j < k ==> !SameIgnoringCase(dataset[j].name, studentName))
  {
    match FindIgnoringCase(Names(dataset), studentName)
    case None => None
    case Some(k) => Some(dataset[k])
  }

  /** `findStudentRank`: 1 plus the number of students with strictly higher marks, `None` (null) for an unknown name. */
  function FindStudentRank(dataset: seq<MarkedStudent>, studentName: string): (r: Option<nat>)
    ensures r.None? <==> FindStudent(dataset, studentName).None?
    ensures r.Some? ==> 1 <= r.value <= |dataset|
    ensures r.Some? ==> r.value - 1 == CountGreater(Marks(dataset), FindStudent(dataset, studentName).value.marks)
  {
    match FindIgnoringCase(Names(dataset), studentName)
    case None => None
    case Some(k) =>
      CountGreaterThanMember(Marks(dataset), k);
      Some(CountGreater(Marks(dataset), dataset[k].marks) + 1)
  }

  /** Students with equal marks share a rank. */
  lemma EqualMarksEqualRank(dataset: seq<MarkedStudent>, a: string, b: string)
    requires FindStudent(dataset, a).Some? && FindStudent(dataset, b).Some?
    requires FindStudent(dataset, a).value.marks == FindStudent(dataset, b).value.marks
    ensures FindStudentRank(dataset, a) == FindStudentRank(dataset, b)
  {
  }

  /** A student with strictly higher marks has a strictly better (smaller) rank. */
  lemma HigherMarksBetterRank(dataset: seq<MarkedStudent>, a: string, b: string)
    requires FindStudent(dataset, a).Some? && FindStudent(dataset, b).Some?
    requires FindStudent(dataset, a).value.marks > FindStudent(dataset, b).value.marks
    ensures FindStudentRank(dataset, a).value < FindStudentRank(dataset, b).value
  {
    var hi, lo := FindStudent(dataset, a).value, FindStudent(dataset, b).value;
    var k :| 0 <= k < |dataset| && dataset[k] == hi;
    CountGreaterDrops(Marks(dataset), lo.marks, hi.marks, k);
  }

  /**
   * `computePercentile`: the share of students ahead, `(rank - 1) / total * 100`;
   * 0 when the rank is missing (or the falsy 0, which no lookup returns).
   */
  function ComputePercentile(rank: Option<nat>, totalStudents: nat): (r: real)
    requires rank.Some? && rank.value != 0 ==> totalStudents > 0
    ensures rank.None? || rank.value == 0 ==> r == 0.0
    ensures rank.Some? && 1 <= rank.value <= totalStudents ==> 0.0 <= r < 100.0
    ensures rank.Some? && rank.value != 0 ==> r * totalStudents as real == (rank.value - 1) as real * 100.0
  {
    if rank.None? || rank.value == 0 then 0.0
    else
      var ahead, total := (rank.value - 1) as real, totalStudents as real;
      PercentageBelowHundred(ahead, total);
      ahead / total * 100.0
  }

  lemma PercentageBelowHundred(ahead: real, total: real)
    requires total > 0.0
    ensures (ahead / total * 100.0) * total == ahead * 100.0
    ensures 0.0 <= ahead < total ==> 0.0 <= ahead / total * 100.0 < 100.0
  {
    var q := ahead / total;
    assert q * total == ahead;
    if 0.0 <= ahead < total {
      if q >= 1.0 {
        assert false;
      }
      if q < 0.0 {
        assert false;
      }
    }
  }

  /** A status badge: its label text and its colour. */
  datatype Badge = Badge(text: string, color: string)

  const TopPerformer := Badge("Top Performer", "#238636")
  const AboveAverage := Badge("Above Average", "#1F6FEB")
  const Average := Badge("Average", "#FF9800")
  const NeedsImprovement := Badge("Needs Improvement", "#F44336")

  /** `getStatusBadge`: the first tier whose upper bound (10, 50, 75) the percentile does not exceed. */
  function GetStatusBadge(percentile: real): (r: Badge)
    ensures r == TopPerformer <==> percentile <= 10.0
    ensures r == AboveAverage <==> 10.0 < percentile <= 50.0
    ensures r == Average <==> 50.0 < percentile <= 75.0
    ensures r == NeedsImprovement <==> 75.0 < percentile
  {
    if percentile <= 10.0 then TopPerformer
    else if percentile <= 50.0 then AboveAverage
    else if percentile <= 75.0 then Average
    else NeedsImprovement
  }

  /** What the card shows: "Status unavailable." for an unknown name, else the standing. */
  datatype SummaryCard =
    | Unavailable
    | Standing(rank: nat, totalStudents: nat, percentile: real, status: Badge)

  /** The card for `studentName`, as the component renders it. */
  function RenderSummaryCard(dataset: seq<MarkedStudent>, studentName: string): (r: SummaryCard)
    ensures r.Unavailable? <==> FindStudent(dataset, studentName).None?
    ensures r.Standing? ==> r.totalStudents == |dataset| && 1 <= r.rank <= r.totalStudents
    ensures r.Standing? ==> 0.0 <= r.percentile < 100.0 && r.status == GetStatusBadge(r.percentile)
    ensures r.Standing? ==> r.rank == 1 + CountGreater(Marks(dataset), FindStudent(dataset, studentName).value.marks)
    ensures r.Standing? ==> r.percentile == ComputePercentile(Some(r.rank), r.totalStudents)
  {
    var rank := FindStudentRank(dataset, studentName);
    var percentile := ComputePercentile(rank, |dataset|);
    if rank.None? then Unavailable
    else Standing(rank.value, |dataset|, percentile, GetStatusBadge(percentile))
  }

  /** The student with no one ahead, rank 1, always gets "Top Performer". */
  lemma RankOneIsTopPerformer(dataset: seq<MarkedStudent>, studentName: string)
    requires FindStudentRank(dataset, studentName) == Some(1)
    ensures RenderSummaryCard(dataset, studentName).status == TopPerformer
  {
  }

  /** A student holding the highest marks in the dataset has rank 1. */
  lemma BestMarksRankFirst(dataset: seq<MarkedStudent>, studentName: string)
    requires FindStudent(dataset, studentName).Some?
    requires forall j :: 0 <= j < |dataset| ==> dataset[j].marks <= FindStudent(dataset, studentName).value.marks
    ensures FindStudentRank(dataset, studentName) == Some(1)
  {
    var m := FindStudent(dataset, studentName).value.marks;
    NoneGreater(Marks(dataset), m);
  }

  lemma {:induction false} NoneGreater(s: seq<real>, t: real)
    requires forall j :: 0 <= j < |s| ==> s[j] <= t
    ensures CountGreater(s, t) == 0
  {
    if s != [] {
      NoneGreater(s[1..], t);
    }
  }
}
