/**
 * The student analysis screen: the valid names read from the uploaded CSV
 * cells, and the three pieces of state behind the name prompt (what was
 * typed, the name that was accepted, the error shown) with the "validate"
 * and "Change Student" transitions.
 */
module StudentAnalysis {
  import opened Wrappers
  import opened Text

  /** A header that names the name column: "name" or "student", in any case. */
  predicate IsNameHeader(h: string)
  {
    Lower(h) == "name" || Lower(h) == "student"
  }

  /** The first header naming the name column, if any. */
  function FindNameHeader(headers: seq<string>): (r: Option<nat>)
    ensures r.None? ==> forall j :: 0 <= j < |headers| ==> !IsNameHeader(headers[j])
    ensures r.Some? ==> r.value < |headers| && IsNameHeader(headers[r.value])
    ensures r.Some? ==> forall j :: 0 <= j < r.value ==> !IsNameHeader(headers[j])
  {
    if headers == [] then None
    else if IsNameHeader(headers[0]) then Some(0)
    else
      match FindNameHeader(headers[1..])
      case None => None
      case Some(k) => Some(k + 1)
  }

  /** The name column: the first "name"/"student" header, else column 0. */
  function NameColumn(headers: seq<string>): (r: nat)
    ensures (forall j :: 0 <= j < |headers| ==> !IsNameHeader(headers[j])) ==> r == 0
    ensures (exists j :: 0 <= j < |headers| && IsNameHeader(headers[j])) ==>
      r < |headers| && IsNameHeader(headers[r]) && forall j :: 0 <= j < r ==> !IsNameHeader(headers[j])
  {
    match FindNameHeader(headers)
    case None => 0
    case Some(k) => k
  }

  /** `rows.map(row => row[column]).filter(name => name)`: the non-empty cells present in that column, in row order. */
  function ColumnCells(rows: seq<seq<string>>, column: nat): (r: seq<string>)
    ensures |r| <= |rows|
    ensures forall i :: 0 <= i < |r| ==> r[i] != []
  {
    if rows == [] then []
    else
      var rest := ColumnCells(rows[1..], column);
      if column < |rows[0]| && rows[0][column] != [] then [rows[0][column]] + rest else rest
  }

  /** A cell of `rows` kept by the column extraction: present and non-empty. */
  lemma {:induction false} ColumnCellsKeep(rows: seq<seq<string>>, column: nat, i: nat)
    requires i < |rows| && column < |rows[i]| && rows[i][column] != []
    ensures rows[i][column] in ColumnCells(rows, column)
  {
    if i > 0 {
      ColumnCellsKeep(rows[1..], column, i - 1);
    }
  }

  /** Every extracted name is the cell of some row at that column. */
  lemma {:induction false} ColumnCellsFrom(rows: seq<seq<string>>, column: nat, name: string)
    requires name in ColumnCells(rows, column)
    ensures exists i :: 0 <= i < |rows| && column < |rows[i]| && rows[i][column] == name
  {
    var rest := ColumnCells(rows[1..], column);
    if column < |rows[0]| && rows[0][column] != [] && name == rows[0][column] {
      assert column < |rows[0]| && rows[0][column] == name;
    } else {
      ColumnCellsFrom(rows[1..], column, name);
      var i :| 0 <= i < |rows[1..]| && column < |rows[1..][i]| && rows[1..][i][column] == name;
      assert rows[i + 1] == rows[1..][i];
    }
  }

  /** The extraction keeps row order: the names of two blocks of rows are the names of the first, then those of the second. */
  lemma {:induction false} ColumnCellsAppend(a: seq<seq<string>>, b: seq<seq<string>>, column: nat)
    ensures ColumnCells(a + b, column) == ColumnCells(a, column) + ColumnCells(b, column)
  {
    if a == [] {
      assert a + b == b;
    } else {
      assert (a + b)[0] == a[0];
      assert (a + b)[1..] == a[1..] + b;
      ColumnCellsAppend(a[1..], b, column);
    }
  }

  /** One row gives its name cell when that cell is present and non-empty, and nothing otherwise. */
  lemma ColumnCellsSingle(row: seq<string>, column: nat)
    ensures ColumnCells([row], column) == if column < |row| && row[column] != [] then [row[column]] else []
  {
    assert [row][1..] == [];
  }

  /**
   * `getValidNames`: no names for missing or empty CSV data; otherwise the
   * non-empty cells of the name column in the rows after the header.
   */
  function GetValidNames(csvData: Option<seq<seq<string>>>): (r: seq<string>)
    ensures csvData.None? || csvData.value == [] ==> r == []
    ensures csvData.Some? && csvData.value != [] ==> |r| <= |csvData.value| - 1
    ensures forall i :: 0 <= i < |r| ==> r[i] != []
    ensures csvData.Some? && csvData.value != [] ==>
      r == ColumnCells(csvData.value[1..], NameColumn(csvData.value[0]))
  {
    if csvData.None? || csvData.value == [] then []
    else ColumnCells(csvData.value[1..], NameColumn(csvData.value[0]))
  }

  /** A name is valid exactly when it is a non-empty name-column cell of a row after the header. */
  lemma ValidNamesAreBodyCells(csvData: seq<seq<string>>, name: string)
    requires csvData != []
    ensures var column := NameColumn(csvData[0]);
      name in GetValidNames(Some(csvData)) <==>
        name != [] && exists i :: 1 <= i < |csvData| && column < |csvData[i]| && csvData[i][column] == name
  {
    var column := NameColumn(csvData[0]);
    var body := csvData[1..];
    if name in GetValidNames(Some(csvData)) {
      ColumnCellsFrom(body, column, name);
      var i :| 0 <= i < |body| && column < |body[i]| && body[i][column] == name;
      assert csvData[i + 1] == body[i];
    }
    if name != [] && exists i :: 1 <= i < |csvData| && column < |csvData[i]| && csvData[i][column] == name {
      var i :| 1 <= i < |csvData| && column < |csvData[i]| && csvData[i][column] == name;
      assert body[i - 1] == csvData[i];
      ColumnCellsKeep(body, column, i - 1);
    }
  }

  const EnterNameMessage := "Please enter a student name"
  const NotFoundMessage := "Student name not found in dataset"

  /** The state after validating: the accepted name and the error shown. */
  datatype Outcome = Outcome(validatedName: Option<string>, error: string)

  /**
   * `handleValidateStudent` as a function of the valid names, the typed name
   * and the currently accepted name: a blank entry only sets the error; a
   * case-insensitive match of the trimmed entry accepts the dataset's own
   * spelling of the first match; anything else is rejected.
   */
  function ValidateName(validNames: seq<string>, studentName: string, current: Option<string>): (r: Outcome)
    ensures Trim(studentName) == [] ==> r == Outcome(current, EnterNameMessage)
    ensures Trim(studentName) != [] ==>
      (r.validatedName.None? <==> forall j :: 0 <= j < |validNames| ==> !SameIgnoringCase(validNames[j], Trim(studentName)))
    ensures Trim(studentName) != [] && r.validatedName.None? ==> r.error == NotFoundMessage
    ensures Trim(studentName) != [] && r.validatedName.Some? ==> r.error == [] && exists k :: (
      && 0 <= k < |validNames| && r.validatedName.value == validNames[k]
      && SameIgnoringCase(validNames[k], Trim(studentName))
      && forall j :: 0 <= j < k ==> !SameIgnoringCase(validNames[j], Trim(studentName)))
  {
    var trimmed := Trim(studentName);
    if trimmed == [] then Outcome(current, EnterNameMessage)
    else
      match FindIgnoringCase(validNames, trimmed)
      case Some(k) => Outcome(Some(validNames[k]), [])
      case None => Outcome(None, NotFoundMessage)
  }

  /** Whatever is typed, a name that validation accepts is one of the valid names. */
  lemma AcceptedNameIsValid(validNames: seq<string>, studentName: string, current: Option<string>)
    requires current.Some? ==> current.value in validNames
    ensures var r := ValidateName(validNames, studentName, current);
      r.validatedName.Some? ==> r.validatedName.value in validNames
  {
  }

  /** Typing a valid name in another case, with spaces around it, accepts the dataset's spelling of it. */
  lemma ValidNameAccepted(validNames: seq<string>, k: nat, padding: string)
    requires k < |validNames| && IsTrimmed(validNames[k]) && validNames[k] != []
    requires forall j :: 0 <= j < k ==> !SameIgnoringCase(validNames[j], validNames[k])
    requires AllWhitespace(padding)
    ensures ValidateName(validNames, padding + Lower(validNames[k]) + padding, None)
      == Outcome(Some(validNames[k]), [])
  {
    var name := validNames[k];
    var typed := padding + Lower(name) + padding;
    LowerTrimmed(name);
    TrimPadded(padding, Lower(name));
    LowerIdempotent(name);
    assert SameIgnoringCase(name, Lower(name));
    var found := FindIgnoringCase(validNames, Lower(name));
    assert found.Some?;
    if found.value != k {
      assert false;
    }
  }

  /** The StudentAnalysis component's state. */
  class StudentAnalysis {
    const validNames: seq<string>
    var studentName: string
    var validatedName: Option<string>
    var error: string

    /** An accepted name is always one of the valid names. */
    ghost predicate Valid()
      reads this
    {
      validatedName.Some? ==> validatedName.value in validNames
    }

    /** The initial state: nothing typed, nothing accepted, no error. */
    constructor (csvData: Option<seq<seq<string>>>)
      ensures validNames == GetValidNames(csvData)
      ensures studentName == [] && validatedName == None && error == []
      ensures Valid()
    {
      validNames := GetValidNames(csvData);
      studentName := [];
      validatedName := None;
      error := [];
    }

    /** Typing into the input replaces the entry and nothing else. */
    method SetStudentName(name: string)
      modifies this
      ensures studentName == name
      ensures validatedName == old(validatedName) && error == old(error)
    {
      studentName := name;
    }

    /** `handleValidateStudent`: the entry stays, the accepted name and the error follow `ValidateName`. */
    method ValidateStudent()
      requires Valid()
      modifies this
      ensures Valid()
      ensures studentName == old(studentName)
      ensures Outcome(validatedName, error) == ValidateName(validNames, studentName, old(validatedName))
      ensures Trim(studentName) == [] ==> validatedName == old(validatedName) && error == EnterNameMessage
    {
      var trimmedName := Trim(studentName);
      if trimmedName == [] {
        error := EnterNameMessage;
        return;
      }
      var found := FindIgnoringCase(validNames, trimmedName);
      if found.Some? {
        validatedName := Some(validNames[found.value]);
        error := [];
      } else {
        error := NotFoundMessage;
        validatedName := None;
      }
    }

    /** "Change Student": back to the prompt with an empty entry and no error. */
    method ChangeStudent()
      modifies this
      ensures validatedName == None && studentName == [] && error == []
      ensures Valid()
    {
      validatedName := None;
      studentName := [];
      error := [];
    }
  }
}
