/**
 * The subject insights card: the student looked up by name, the class's
 * subject averages over the whole dataset (the student included), and the
 * strengths and improvements lists, each replaced by a fixed sentence when
 * empty.
 */
module SubjectInsightsCard {
  import opened Wrappers
  import opened Rounding
  import opened Stats
  import opened Text
  import opened PerformanceHelpers

  function StudentNames(dataset: seq<Student>): (r: seq<string>)
    ensures |r| == |dataset|
    ensures forall i :: 0 <= i < |r| ==> r[i] == dataset[i].name
  {
    seq(|dataset|, i requires 0 <= i < |dataset| => dataset[i].name)
  }

  /** `findStudent`: nothing without a dataset or a name, else the first record whose name matches ignoring case. */
  function FindStudent(dataset: Option<seq<Student>>, studentName: string): (r: Option<Student>)
    ensures dataset.None? || studentName == [] ==> r.None?
    ensures dataset.Some? && studentName != [] && r.None? ==>
      forall j :: 0 <= j < |dataset.value| ==> !SameIgnoringCase(dataset.value[j].name, studentName)
    ensures r.Some? ==> dataset.Some? && exists k :: (
      && 0 <= k < |dataset.value| && dataset.value[k] == r.value
      && SameIgnoringCase(dataset.value[k].name, studentName)
      && forall j :: 0 <= j < k ==> !SameIgnoringCase(dataset.value[j].name, studentName))
  {
    if dataset.None? || studentName == [] then None
    else
      match FindIgnoringCase(StudentNames(dataset.value), studentName)
      case None => None
      case Some(k) => Some(dataset.value[k])
  }

  /** `getSubjectAverages`: all 0 without students, else the class's subject averages. */
  function GetSubjectAverages(dataset: Option<seq<Student>>): (r: SubjectAverages)
    ensures dataset.None? || dataset.value == [] ==> r == SubjectAverages(0.0, 0.0, 0.0)
    ensures dataset.Some? && dataset.value != [] ==> forall subject: Subject ::
      -0.005 <= AverageFor(r, subject) - Mean(SubjectScores(dataset.value, subject)).value <= 0.005
    ensures IsCents(r.math) && IsCents(r.biology) && IsCents(r.physics)
  {
    if dataset.None? || dataset.value == [] then SubjectAverages(0.0, 0.0, 0.0)
    else CalculateSubjectAverages(dataset.value)
  }

  const NoStrengthsMessage := "No subjects above class average at this time."
  const NoImprovementsMessage := "Excellent! All subjects are at or above class average."

  /** One section of the card: its entries, or the sentence shown instead of an empty list. */
  datatype Section = Listed(entries: seq<SubjectInsight>) | Empty(message: string)

  function SectionOf(entries: seq<SubjectInsight>, emptyMessage: string): (r: Section)
    ensures r.Empty? <==> entries == []
    ensures r.Empty? ==> r.message == emptyMessage
    ensures r.Listed? ==> r.entries == entries
  {
    if entries == [] then Empty(emptyMessage) else Listed(entries)
  }

  datatype InsightsView = InsightsView(strengths: Section, improvements: Section)

  /**
   * The rendered card: nothing when no student is found; otherwise the
   * strengths and improvements against the averages of the whole dataset.
   */
  method RenderInsightsCard(dataset: Option<seq<Student>>, studentName: string) returns (card: Option<InsightsView>)
    ensures card.None? <==> FindStudent(dataset, studentName).None?
    ensures card.Some? ==>
      var student, averages := FindStudent(dataset, studentName).value, GetSubjectAverages(dataset);
      && card.value.strengths == SectionOf(AboveAmong(student, averages, Subjects), NoStrengthsMessage)
      && card.value.improvements == SectionOf(BelowAmong(student, averages, Subjects), NoImprovementsMessage)
  {
    var student := FindStudent(dataset, studentName);
    var averages := GetSubjectAverages(dataset);
    if student.None? {
      return None;
    }
    var strengths, improvements := GenerateSubjectInsights(student, Some(averages));
    card := Some(InsightsView(SectionOf(strengths, NoStrengthsMessage), SectionOf(improvements, NoImprovementsMessage)));
  }

  /** A subject's class average in a one-student class is that student's own score, when it has two decimals. */
  lemma SoleStudentAverage(student: Student, subject: Subject)
    requires IsCents(Score(student, subject))
    ensures AverageFor(GetSubjectAverages(Some([student])), subject) == Score(student, subject)
  {
    var scores := SubjectScores([student], subject);
    assert scores == [Score(student, subject)];
    assert Sum(scores) == Score(student, subject);
  }

  /** A student alone in the class, with two-decimal scores, has no strengths and nothing to improve. */
  lemma SoleStudentHasNeither(student: Student)
    requires forall subject: Subject :: IsCents(Score(student, subject))
    ensures AboveAmong(student, GetSubjectAverages(Some([student])), Subjects) == []
    ensures BelowAmong(student, GetSubjectAverages(Some([student])), Subjects) == []
  {
    var averages := GetSubjectAverages(Some([student]));
    SoleStudentAverage(student, Math);
    SoleStudentAverage(student, Biology);
    SoleStudentAverage(student, Physics);
    StrengthsInSubjectOrder(student, averages);
    ImprovementsInSubjectOrder(student, averages);
  }
}
