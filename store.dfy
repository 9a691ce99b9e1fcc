/**
 * The campus portal's record store (App.jsx): students keyed by
 * registration number, employees keyed by employee id, and the pure
 * updates each handler builds with object spreads before handing the new
 * store to `setDb`.
 */
module Store {
  import opened Wrappers
  import opened Selection

  datatype Payment = Unpaid | Paid

  datatype Student = Student(
    regNo: string,
    name: string,
    password: string,
    enrolled: seq<CourseId>,
    paymentStatus: Payment)

  datatype Employee = Employee(empId: string, name: string, password: string)

  datatype Db = Db(students: map<string, Student>, employees: map<string, Employee>)

  /** Which credential map the login form checks. */
  datatype Role = StudentRole | EmployeeRole

  /** The signed-in user, `{ type, id }` in the source. */
  datatype AuthUser = AuthUser(kind: Role, id: string)

  const FillAllFields := "Fill all fields!"
  const RegNoExists := "Register number exists!"
  const InvalidStudentLogin := "Invalid student login"
  const InvalidEmployeeLogin := "Invalid employee login"

  /** Every record sits under its own id. */
  ghost predicate KeysMatch(db: Db) {
    && (forall k :: k in db.students ==> db.students[k].regNo == k)
    && (forall k :: k in db.employees ==> db.employees[k].empId == k)
  }

  /**
   * Every stored enrollment list is a selection the enrollment view can
   * produce: bounded, without repeats, and made of catalogue ids.
   */
  ghost predicate WithinCapacity(db: Db) {
    forall k :: k in db.students ==>
      SelectionOk(db.students[k].enrolled) && FromCatalogue(db.students[k].enrolled)
  }

  ghost predicate WellFormed(db: Db) {
    KeysMatch(db) && WithinCapacity(db)
  }

  /** The store seeded on first run: no students and one default employee. */
  function InitialDb(): (db: Db)
    ensures WellFormed(db)
    ensures db.students == map[]
    ensures db.employees.Keys == {"E1001"}
    ensures db.employees["E1001"].password == "emp123"
  {
    Db(map[], map["E1001" := Employee("E1001", "Prof. Alice", "emp123")])
  }

  /**
   * `registerStudent`: empty fields are refused first, then a registration
   * number already in use; otherwise a fresh, unenrolled, unpaid student is
   * added under its number.
   */
  function Register(db: Db, regNo: string, name: string, password: string): (r: Result<Db, string>)
    ensures regNo == "" || name == "" || password == "" ==> r == Failure(FillAllFields)
    ensures regNo != "" && name != "" && password != "" && regNo in db.students ==> r == Failure(RegNoExists)
    ensures r.Success? <==> regNo != "" && name != "" && password != "" && regNo !in db.students
    ensures r.Success? ==> && r.value.employees == db.employees
                           && r.value.students.Keys == db.students.Keys + {regNo}
                           && r.value.students[regNo] == Student(regNo, name, password, [], Unpaid)
                           && forall k :: k in db.students ==> r.value.students[k] == db.students[k]
  {
    if regNo == "" || name == "" || password == "" then Failure(FillAllFields)
    else if regNo in db.students then Failure(RegNoExists)
    else
      var s := Student(regNo, name, password, [], Unpaid);
      Success(db.(students := db.students[regNo := s]))
  }

  /**
   * `login`: the role picks the credential map; the id must be present and
   * its stored password equal to the one entered.
   */
  function Login(db: Db, role: Role, id: string, password: string): (r: Result<AuthUser, string>)
    ensures r.Success? ==> r.value == AuthUser(role, id)
    ensures r.Success? <==> match role
                            case StudentRole => id in db.students && db.students[id].password == password
                            case EmployeeRole => id in db.employees && db.employees[id].password == password
    ensures r.Failure? ==> r.error == if role == StudentRole then InvalidStudentLogin else InvalidEmployeeLogin
  {
    match role
    case StudentRole =>
      if id !in db.students || db.students[id].password != password then Failure(InvalidStudentLogin)
      else Success(AuthUser(StudentRole, id))
    case EmployeeRole =>
      if id !in db.employees || db.employees[id].password != password then Failure(InvalidEmployeeLogin)
      else Success(AuthUser(EmployeeRole, id))
  }

  /**
   * `enroll(selected)`: the signed-in student's record is rewritten, under
   * the record's own registration number, with the new course list and the
   * payment status forced back to unpaid.
   */
  function Enroll(db: Db, id: string, selected: seq<CourseId>): (r: Db)
    requires id in db.students
    ensures r.employees == db.employees
    ensures KeysMatch(db) ==> && r.students.Keys == db.students.Keys
                              && r.students[id] == db.students[id].(enrolled := selected, paymentStatus := Unpaid)
                              && forall k :: k in db.students && k != id ==> r.students[k] == db.students[k]
  {
    var s := db.students[id];
    db.(students := db.students[s.regNo := s.(enrolled := selected, paymentStatus := Unpaid)])
  }

  /** `pay`: the signed-in student's record, under its own number, is marked paid. */
  function Pay(db: Db, id: string): (r: Db)
    requires id in db.students
    ensures r.employees == db.employees
    ensures KeysMatch(db) ==> && r.students.Keys == db.students.Keys
                              && r.students[id] == db.students[id].(paymentStatus := Paid)
                              && forall k :: k in db.students && k != id ==> r.students[k] == db.students[k]
  {
    var s := db.students[id];
    db.(students := db.students[s.regNo := s.(paymentStatus := Paid)])
  }

  /** `setPayment(reg, status)`: the employee overwrites one student's payment status. */
  function SetPayment(db: Db, reg: string, status: Payment): (r: Db)
    requires reg in db.students
    ensures r.employees == db.employees
    ensures r.students.Keys == db.students.Keys
    ensures r.students[reg] == db.students[reg].(paymentStatus := status)
    ensures forall k :: k in db.students && k != reg ==> r.students[k] == db.students[k]
  {
    db.(students := db.students[reg := db.students[reg].(paymentStatus := status)])
  }

  lemma RegisterPreservesWellFormed(db: Db, regNo: string, name: string, password: string)
    requires WellFormed(db)
    ensures Register(db, regNo, name, password).Success? ==> WellFormed(Register(db, regNo, name, password).value)
  {
  }

  /** The invariant survives an enrollment whenever the committed list is one `toggle` can build. */
  lemma EnrollPreservesWellFormed(db: Db, id: string, selected: seq<CourseId>)
    requires WellFormed(db) && id in db.students
    requires SelectionOk(selected) && FromCatalogue(selected)
    ensures WellFormed(Enroll(db, id, selected))
  {
  }

  lemma PayPreservesWellFormed(db: Db, id: string)
    requires WellFormed(db) && id in db.students
    ensures WellFormed(Pay(db, id))
  {
  }

  lemma SetPaymentPreservesWellFormed(db: Db, reg: string, status: Payment)
    requires WellFormed(db) && reg in db.students
    ensures WellFormed(SetPayment(db, reg, status))
  {
  }

  /** Marking a status twice is the same as marking it once. */
  lemma SetPaymentIdempotent(db: Db, reg: string, status: Payment)
    requires reg in db.students
    ensures reg in SetPayment(db, reg, status).students
    ensures SetPayment(SetPayment(db, reg, status), reg, status) == SetPayment(db, reg, status)
  {
  }

  /** With keys matching records, the student's own `pay` is the employee's "mark paid". */
  lemma PayIsMarkPaid(db: Db, id: string)
    requires KeysMatch(db) && id in db.students
    ensures Pay(db, id) == SetPayment(db, id, Paid)
  {
  }

  /** Re-enrolling after paying leaves the student unpaid again. */
  lemma EnrollAfterPayIsUnpaid(db: Db, id: string, selected: seq<CourseId>)
    requires KeysMatch(db) && id in db.students
    ensures id in Pay(db, id).students
    ensures Enroll(Pay(db, id), id, selected).students[id].paymentStatus == Unpaid
    ensures Enroll(Pay(db, id), id, selected).students[id].enrolled == selected
  {
    assert KeysMatch(Pay(db, id));
  }

  /** A freshly registered student can sign in with the same number and password. */
  lemma RegisterThenLogin(db: Db, regNo: string, name: string, password: string)
    requires Register(db, regNo, name, password).Success?
    ensures Login(Register(db, regNo, name, password).value, StudentRole, regNo, password)
            == Success(AuthUser(StudentRole, regNo))
  {
  }

  /**
   * The walk-through of the portal: register R1, sign in, enroll in two
   * courses, pay; the record then holds both courses and is paid.
   */
  lemma RegisterEnrollPayScenario()
    ensures var d0 := InitialDb();
            var r := Register(d0, "R1", "A", "p1");
            && r.Success?
            && Login(r.value, StudentRole, "R1", "p1").Success?
            && "R1" in Pay(Enroll(r.value, "R1", ["CS101", "CS102"]), "R1").students
            && Pay(Enroll(r.value, "R1", ["CS101", "CS102"]), "R1").students["R1"]
               == Student("R1", "A", "p1", ["CS101", "CS102"], Paid)
  {
    var d0 := InitialDb();
    var r := Register(d0, "R1", "A", "p1");
    assert KeysMatch(r.value);
    var d2 := Enroll(r.value, "R1", ["CS101", "CS102"]);
    assert KeysMatch(d2);
  }
}
