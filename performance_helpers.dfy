/**
 * Per-student and class statistics over students with three subject marks:
 * averages, the above/at/below status, the strengths and improvements
 * split, the positional ranking, the top three and the admin bundle.
 */
module PerformanceHelpers {
  import opened Wrappers
  import opened Rounding
  import opened Stats
  import opened Sorting

  /** A subject mark as read from a student record: a number, or something `parseFloat` turns into NaN. */
  datatype Field = Number(value: real) | NonNumeric

  /** `parseFloat(x) || 0`: non-numeric marks count as 0. */
  function NumberOrZero(f: Field): (r: real)
    ensures f.NonNumeric? ==> r == 0.0
    ensures f.Number? ==> r == f.value
  {
    match f
    case Number(v) => v
    case NonNumeric => 0.0
  }

  datatype Student = Student(name: string, math: Field, biology: Field, physics: Field)

  /** The subjects, in the order `Object.entries` lists them. */
  datatype Subject = Math | Biology | Physics

  const Subjects: seq<Subject> := [Math, Biology, Physics]

  /** The capitalised subject name shown to users. */
  function Label(subject: Subject): string
  {
    match subject
    case Math => "Math"
    case Biology => "Biology"
    case Physics => "Physics"
  }

  /** The raw field a subject reads. */
  function Mark(student: Student, subject: Subject): Field
  {
    match subject
    case Math => student.math
    case Biology => student.biology
    case Physics => student.physics
  }

  /** A subject's mark as a number. */
  function Score(student: Student, subject: Subject): real
  {
    NumberOrZero(Mark(student, subject))
  }

  /** The exact mean of the three subject scores. */
  function SubjectMean(student: Student): real
  {
    (Score(student, Math) + Score(student, Biology) + Score(student, Physics)) / 3.0
  }

  /** `calculateStudentAverage`: a missing student averages 0, any other the mean of its three scores to two decimals. */
  function CalculateStudentAverage(student: Option<Student>): (r: real)
    ensures student.None? ==> r == 0.0
    ensures student.Some? ==> -0.005 <= r - SubjectMean(student.value) <= 0.005
    ensures IsCents(r)
  {
    if student.None? then
      RoundWholeCents(0);
      0.0
    else
      var mean := SubjectMean(student.value);
      Round2Idempotent(mean);
      Round2(mean)
  }

  /** Every student's average, in dataset order. */
  function Averages(students: seq<Student>): (r: seq<real>)
    ensures |r| == |students|
    ensures forall i :: 0 <= i < |r| ==> r[i] == CalculateStudentAverage(Some(students[i]))
  {
    seq(|students|, i requires 0 <= i < |students| => CalculateStudentAverage(Some(students[i])))
  }

  /** `calculateClassAverage`: 0 for no students, else the mean of the student averages to two decimals. */
  function CalculateClassAverage(students: seq<Student>): (r: real)
    ensures students == [] ==> r == 0.0
    ensures students != [] ==> -0.005 <= r - Mean(Averages(students)).value <= 0.005
    ensures IsCents(r)
  {
    if students == [] then
      RoundWholeCents(0);
      0.0
    else
      var mean := Mean(Averages(students)).value;
      Round2Idempotent(mean);
      Round2(mean)
  }

  /** Because student averages already have two decimals, the class average never exceeds the best of them. */
  lemma ClassAverageAtMostBest(students: seq<Student>)
    requires students != []
    ensures CalculateClassAverage(students) <= Max(Averages(students))
  {
    var avgs := Averages(students);
    var best := Max(avgs);
    var k :| 0 <= k < |avgs| && avgs[k] == best;
    MeanAtMostMax(avgs);
    Round2BelowCentsAbove(Mean(avgs).value, best);
  }

  datatype SubjectAverages = SubjectAverages(math: real, biology: real, physics: real)

  /** The class average stored for one subject. */
  function AverageFor(averages: SubjectAverages, subject: Subject): real
  {
    match subject
    case Math => averages.math
    case Biology => averages.biology
    case Physics => averages.physics
  }

  /** One subject's scores across the class. */
  function SubjectScores(students: seq<Student>, subject: Subject): (r: seq<real>)
    ensures |r| == |students|
    ensures forall i :: 0 <= i < |r| ==> r[i] == Score(students[i], subject)
  {
    seq(|students|, i requires 0 <= i < |students| => Score(students[i], subject))
  }

  function SubjectAverage(students: seq<Student>, subject: Subject): (r: real)
    requires students != []
    ensures IsCents(r)
  {
    Round2Idempotent(Sum(SubjectScores(students, subject)) / |students| as real);
    Round2(Sum(SubjectScores(students, subject)) / |students| as real)
  }

  /** `calculateSubjectAverages`: all 0 for no students, else each subject's sum over the count, to two decimals. */
  function CalculateSubjectAverages(students: seq<Student>): (r: SubjectAverages)
    ensures students == [] ==> r == SubjectAverages(0.0, 0.0, 0.0)
    ensures students != [] ==> forall subject: Subject ::
      -0.005 <= AverageFor(r, subject) - Mean(SubjectScores(students, subject)).value <= 0.005
    ensures IsCents(r.math) && IsCents(r.biology) && IsCents(r.physics)
  {
    if students == [] then
      RoundWholeCents(0);
      SubjectAverages(0.0, 0.0, 0.0)
    else SubjectAverages(SubjectAverage(students, Math), SubjectAverage(students, Biology), SubjectAverage(students, Physics))
  }

  datatype Status = Above | At | Below

  datatype Comparison = Comparison(studentAverage: real, classAverage: real, status: Status, difference: real)

  /** `compareStudentWithClass`: "above" past +0.01, "below" past -0.01, "at" in between. */
  function CompareStudentWithClass(student: Option<Student>, classAverage: real): (r: Comparison)
    ensures r.studentAverage == CalculateStudentAverage(student) && r.classAverage == classAverage
    ensures -0.005 <= r.difference - (r.studentAverage - classAverage) <= 0.005
    ensures r.status == Above <==> r.difference > 0.01
    ensures r.status == Below <==> r.difference < -0.01
    ensures r.status == At <==> -0.01 <= r.difference <= 0.01
  {
    var studentAverage := CalculateStudentAverage(student);
    var difference := Round2(studentAverage - classAverage);
    var status := if difference > 0.01 then Above else if difference < -0.01 then Below else At;
    Comparison(studentAverage, classAverage, status, difference)
  }

  /** In terms of the unrounded gap: "above" from +0.015 on, "below" from -0.015 down. */
  lemma StatusByGap(student: Option<Student>, classAverage: real)
    ensures var r := CompareStudentWithClass(student, classAverage);
      var gap := r.studentAverage - classAverage;
      && (r.status == Above <==> gap >= 0.015)
      && (r.status == Below <==> gap <= -0.015)
      && (r.status == At <==> -0.015 < gap < 0.015)
  {
    var gap := CalculateStudentAverage(student) - classAverage;
    Round2AboveOneCent(gap);
    Round2BelowMinusOneCent(gap);
  }

  /** One entry of the strengths or improvements list. */
  datatype SubjectInsight = SubjectInsight(
    subject: string, studentScore: real, classAverage: real, difference: real, relation: string)

  /** The entry built for one subject; `relation` is the word the insight sentence uses. */
  function InsightFor(student: Student, averages: SubjectAverages, subject: Subject): SubjectInsight
  {
    var score := Score(student, subject);
    var classAvg := AverageFor(averages, subject);
    SubjectInsight(Label(subject), score, classAvg, Round2(score - classAvg),
      if score > classAvg then "above" else if score < classAvg then "below" else "at")
  }

  /** The entries, in the order of `subjects`, of the subjects scored strictly above the class average. */
  function AboveAmong(student: Student, averages: SubjectAverages, subjects: seq<Subject>): (r: seq<SubjectInsight>)
    ensures |r| <= |subjects|
  {
    if subjects == [] then []
    else
      var s := subjects[|subjects| - 1];
      AboveAmong(student, averages, subjects[..|subjects| - 1])
      + (if Score(student, s) > AverageFor(averages, s) then [InsightFor(student, averages, s)] else [])
  }

  /** The entries, in the order of `subjects`, of the subjects scored strictly below the class average. */
  function BelowAmong(student: Student, averages: SubjectAverages, subjects: seq<Subject>): (r: seq<SubjectInsight>)
    ensures |r| <= |subjects|
  {
    if subjects == [] then []
    else
      var s := subjects[|subjects| - 1];
      BelowAmong(student, averages, subjects[..|subjects| - 1])
      + (if Score(student, s) < AverageFor(averages, s) then [InsightFor(student, averages, s)] else [])
  }

  /**
   * `generateSubjectInsights`: walks Math, Biology, Physics and pushes each
   * subject to strengths (score above the class average) or improvements
   * (below); a subject at the average goes to neither. A missing student or
   * missing averages give two empty lists.
   */
  method GenerateSubjectInsights(student: Option<Student>, averages: Option<SubjectAverages>)
    returns (strengths: seq<SubjectInsight>, improvements: seq<SubjectInsight>)
    ensures student.None? || averages.None? ==> strengths == [] && improvements == []
    ensures student.Some? && averages.Some? ==>
      && strengths == AboveAmong(student.value, averages.value, Subjects)
      && improvements == BelowAmong(student.value, averages.value, Subjects)
  {
    strengths, improvements := [], [];
    if student.None? || averages.None? {
      return;
    }
    var s, avgs := student.value, averages.value;
    for i := 0 to |Subjects|
      invariant strengths == AboveAmong(s, avgs, Subjects[..i])
      invariant improvements == BelowAmong(s, avgs, Subjects[..i])
    {
      var subject := Subjects[i];
      assert Subjects[..i + 1][..i] == Subjects[..i];
      var entry := InsightFor(s, avgs, subject);
      var score, classAvg := Score(s, subject), AverageFor(avgs, subject);
      if score > classAvg {
        strengths := strengths + [entry];
      } else if score < classAvg {
        improvements := improvements + [entry];
      }
    }
    assert Subjects[..|Subjects|] == Subjects;
  }

  /** The strengths list spelled out: Math, then Biology, then Physics, each kept when scored above its average. */
  lemma StrengthsInSubjectOrder(student: Student, averages: SubjectAverages)
    ensures AboveAmong(student, averages, Subjects) ==
      (if Score(student, Math) > averages.math then [InsightFor(student, averages, Math)] else [])
      + (if Score(student, Biology) > averages.biology then [InsightFor(student, averages, Biology)] else [])
      + (if Score(student, Physics) > averages.physics then [InsightFor(student, averages, Physics)] else [])
  {
    assert Subjects[..2] == [Math, Biology];
    assert [Math, Biology][..1] == [Math];
    assert [Math][..0] == [];
    var m := AboveAmong(student, averages, [Math]);
    var mb := AboveAmong(student, averages, [Math, Biology]);
    assert mb == m + (if Score(student, Biology) > averages.biology then [InsightFor(student, averages, Biology)] else []);
  }

  /** The improvements list spelled out: Math, then Biology, then Physics, each kept when scored below its average. */
  lemma ImprovementsInSubjectOrder(student: Student, averages: SubjectAverages)
    ensures BelowAmong(student, averages, Subjects) ==
      (if Score(student, Math) < averages.math then [InsightFor(student, averages, Math)] else [])
      + (if Score(student, Biology) < averages.biology then [InsightFor(student, averages, Biology)] else [])
      + (if Score(student, Physics) < averages.physics then [InsightFor(student, averages, Physics)] else [])
  {
    assert Subjects[..2] == [Math, Biology];
    assert [Math, Biology][..1] == [Math];
    assert [Math][..0] == [];
    var m := BelowAmong(student, averages, [Math]);
    var mb := BelowAmong(student, averages, [Math, Biology]);
    assert mb == m + (if Score(student, Biology) < averages.biology then [InsightFor(student, averages, Biology)] else []);
  }

  /** A subject is a strength iff scored above its average, an improvement iff below, never both, and each list has at most three entries. */
  lemma StrengthsAndImprovementsPartition(student: Student, averages: SubjectAverages, subject: Subject)
    ensures InsightFor(student, averages, subject) in AboveAmong(student, averages, Subjects)
      <==> Score(student, subject) > AverageFor(averages, subject)
    ensures InsightFor(student, averages, subject) in BelowAmong(student, averages, Subjects)
      <==> Score(student, subject) < AverageFor(averages, subject)
    ensures forall e :: e in AboveAmong(student, averages, Subjects) ==> e !in BelowAmong(student, averages, Subjects)
    ensures |AboveAmong(student, averages, Subjects)| + |BelowAmong(student, averages, Subjects)| <= 3
  {
    StrengthsInSubjectOrder(student, averages);
    ImprovementsInSubjectOrder(student, averages);
    var m, b, p := InsightFor(student, averages, Math), InsightFor(student, averages, Biology), InsightFor(student, averages, Physics);
    assert m.subject == "Math" && b.subject == "Biology" && p.subject == "Physics";
  }

  /** A student's name with its average, before ranking. */
  datatype Scored = Scored(name: string, average: real)

  function AverageKey(s: Scored): real
  {
    s.average
  }

  /** `students.map(s => ({ name, average }))`. */
  function Scores(students: seq<Student>): (r: seq<Scored>)
    ensures |r| == |students|
    ensures forall i :: 0 <= i < |r| ==> r[i] == Scored(students[i].name, CalculateStudentAverage(Some(students[i])))
  {
    seq(|students|, i requires 0 <= i < |students| => Scored(students[i].name, CalculateStudentAverage(Some(students[i]))))
  }

  datatype RankedStudent = RankedStudent(name: string, average: real, rank: nat)

  /** The ranked entries without their ranks. */
  function Unranked(ranked: seq<RankedStudent>): (r: seq<Scored>)
    ensures |r| == |ranked|
    ensures forall i :: 0 <= i < |r| ==> r[i] == Scored(ranked[i].name, ranked[i].average)
  {
    seq(|ranked|, i requires 0 <= i < |ranked| => Scored(ranked[i].name, ranked[i].average))
  }

  /**
   * `generateRankedStudents`: the (name, average) pairs sorted by average,
   * highest first, each given its position plus one as rank. Students with
   * equal averages get different ranks here.
   */
  function GenerateRankedStudents(students: seq<Student>): (r: seq<RankedStudent>)
    ensures |r| == |students|
    ensures forall i :: 0 <= i < |r| ==> r[i].rank == i + 1
    ensures forall i, j :: 0 <= i < j < |r| ==> r[i].average >= r[j].average
    ensures multiset(Unranked(r)) == multiset(Scores(students))
  {
    if students == [] then []
    else
      var sorted := SortDescBy(Scores(students), AverageKey);
      SortDescBySorted(Scores(students), AverageKey);
      var r := seq(|sorted|, i requires 0 <= i < |sorted| => RankedStudent(sorted[i].name, sorted[i].average, i + 1));
      assert Unranked(r) == sorted;
      assert forall i :: 0 <= i < |r| ==> r[i].average == AverageKey(sorted[i]);
      r
  }

  /** `getTopThreePerformers`: the first three entries of the ranking, or all of them when there are fewer. */
  function GetTopThreePerformers(students: seq<Student>): (r: seq<RankedStudent>)
    ensures |r| == if |students| < 3 then |students| else 3
    ensures r == GenerateRankedStudents(students)[..|r|]
    ensures forall i, j :: 0 <= i < |r| <= j < |students| ==>
      r[i].average >= GenerateRankedStudents(students)[j].average
  {
    if students == [] then []
    else
      var ranked := GenerateRankedStudents(students);
      ranked[..if |ranked| < 3 then |ranked| else 3]
  }

  /** `countStudentsBelowAverage`: the students whose average is strictly below the given value. */
  function CountStudentsBelowAverage(students: seq<Student>, classAverage: real): (r: nat)
    ensures r <= |students|
    ensures r == CountLess(Averages(students), classAverage)
  {
    if students == [] then 0 else CountLess(Averages(students), classAverage)
  }

  /** Measured against the class average, at least one student of a non-empty class is not below it. */
  lemma NotEveryoneBelowClassAverage(students: seq<Student>)
    requires students != []
    ensures CountStudentsBelowAverage(students, CalculateClassAverage(students)) < |students|
  {
    var avgs := Averages(students);
    ClassAverageAtMostBest(students);
    var k :| 0 <= k < |avgs| && avgs[k] == Max(avgs);
    CountLessMissesWitness(avgs, CalculateClassAverage(students), k);
  }

  datatype AdminAnalytics = AdminAnalytics(
    rankedStudents: seq<RankedStudent>,
    topThree: seq<RankedStudent>,
    classAverage: real,
    belowAverageCount: nat,
    totalStudents: nat)

  /** `generateAdminAnalytics`: the ranking, its top three, the class average and the below-average count together. */
  function GenerateAdminAnalytics(students: seq<Student>): (r: AdminAnalytics)
    ensures students == [] ==> r == AdminAnalytics([], [], 0.0, 0, 0)
    ensures r.totalStudents == |students| == |r.rankedStudents|
    ensures |r.topThree| == if |students| < 3 then |students| else 3
    ensures r.topThree == r.rankedStudents[..|r.topThree|]
    ensures r.classAverage == CalculateClassAverage(students)
    ensures r.belowAverageCount == CountLess(Averages(students), r.classAverage)
    ensures students != [] ==> r.belowAverageCount < r.totalStudents
    ensures r.rankedStudents == GenerateRankedStudents(students) && r.topThree == GetTopThreePerformers(students)
  {
    if students == [] then AdminAnalytics([], [], 0.0, 0, 0)
    else
      var classAverage := CalculateClassAverage(students);
      NotEveryoneBelowClassAverage(students);
      AdminAnalytics(
        GenerateRankedStudents(students),
        GetTopThreePerformers(students),
        classAverage,
        CountStudentsBelowAverage(students, classAverage),
        |students|)
  }
}
