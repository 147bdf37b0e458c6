/** The `{ name, marks }` records the summary cards read, and their two columns. */
module MarkedStudents {

  /** A dataset record as the summary cards read it. */
  datatype MarkedStudent = MarkedStudent(name: string, marks: real)

  function Names(dataset: seq<MarkedStudent>): (r: seq<string>)
    ensures |r| == |dataset|
    ensures forall i :: 0 <= i < |r| ==> r[i] == dataset[i].name
  {
    seq(|dataset|, i requires 0 <= i < |dataset| => dataset[i].name)
  }

  function Marks(dataset: seq<MarkedStudent>): (r: seq<real>)
    ensures |r| == |dataset|
    ensures forall i :: 0 <= i < |r| ==> r[i] == dataset[i].marks
  {
    seq(|dataset|, i requires 0 <= i < |dataset| => dataset[i].marks)
  }
}
