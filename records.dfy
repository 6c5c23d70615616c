/** The shape of one student record: the `students` table row and the request
    payload, which carry the same four fields in the same order, and the
    field-by-field assignment an update performs on a fetched row. */
module Records {

  datatype Option<T> = None | Some(value: T)

  /** A calendar day as the request validator hands it over: already parsed,
      so it is stored and compared as a value and never as text. */
  datatype Date = Date(year: int, month: int, day: int)

  /** A row of the `students` table (and, with the same fields, a request
      payload). `studentID` is the primary key. */
  datatype Student = Student(studentID: string, studentName: string, course: string, presentDate: Date)

  /** The declared fields, as names an attribute assignment can address. */
  datatype Field = StudentID | StudentName | Course | PresentDate

  /** What a field holds: the three text columns hold text, `presentDate` a day. */
  datatype Value = Text(text: string) | Day(date: Date)

  /** The fields in declaration order, the order the payload's items come in. */
  const FieldOrder: seq<Field> := [StudentID, StudentName, Course, PresentDate]

  /** `v` has the type that field `f` is declared with. */
  predicate Fits(f: Field, v: Value) {
    if f == PresentDate then v.Day? else v.Text?
  }

  /** Reading one attribute of a record. */
  function Get(s: Student, f: Field): (v: Value)
    ensures Fits(f, v)
  {
    match f
    case StudentID => Text(s.studentID)
    case StudentName => Text(s.studentName)
    case Course => Text(s.course)
    case PresentDate => Day(s.presentDate)
  }

  /** Assigning one attribute of a row: that attribute takes the new value and
      every other attribute keeps its old one. */
  function SetAttr(row: Student, f: Field, v: Value): (r: Student)
    requires Fits(f, v)
    ensures Get(r, f) == v
    ensures forall g :: g != f ==> Get(r, g) == Get(row, g)
  {
    match f
    case StudentID => row.(studentID := v.text)
    case StudentName => row.(studentName := v.text)
    case Course => row.(course := v.text)
    case PresentDate => row.(presentDate := v.date)
  }

  /** The payload's items: every declared field, in declaration order, paired
      with the payload's own value for it. */
  function Items(s: Student): (items: seq<(Field, Value)>)
    ensures |items| == |FieldOrder|
    ensures forall i :: 0 <= i < |items| ==> items[i].0 == FieldOrder[i]
    ensures forall i :: 0 <= i < |items| ==> items[i].1 == Get(s, items[i].0)
  {
    [(StudentID, Text(s.studentID)), (StudentName, Text(s.studentName)),
     (Course, Text(s.course)), (PresentDate, Day(s.presentDate))]
  }

  /** Two records that agree on every declared field are the same record. */
  lemma SameFields(a: Student, b: Student)
    requires forall f :: Get(a, f) == Get(b, f)
    ensures a == b
  {
    assert Get(a, StudentID) == Get(b, StudentID);
    assert Get(a, StudentName) == Get(b, StudentName);
    assert Get(a, Course) == Get(b, Course);
    assert Get(a, PresentDate) == Get(b, PresentDate);
  }

  /** The message body of a response: a handler's own JSON response carries
      `message`; a raised HTTP error carries `detail`. */
  datatype Body = Message(message: string) | Detail(detail: string)

  /** A handler's response: the HTTP status and the body. */
  datatype Outcome = Outcome(status: int, body: Body)

  const Created := Outcome(201, Message("Student created successfully"))
  const Conflict := Outcome(409, Message("Student already exists"))
  const Updated := Outcome(200, Message("Student updated successfully"))
  const NotFound := Outcome(404, Message("Student not found"))
  const BadInput := Outcome(400, Detail("Invalid data. Please check your input."))
  const ServerError := Outcome(500, Detail("An unexpected error occurred."))
}
