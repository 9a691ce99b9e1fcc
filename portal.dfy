/**
 * The portal component's state machine (App.jsx): the record store, the
 * current view, the role chosen on the login screen, the signed-in user and
 * the enrollment view's local selection, each replaced by a handler.
 */
module Portal {
  import opened Wrappers
  import opened Selection
  import opened Store

  datatype View = AuthView | RegisterView | StudentView | EnrollView | EmployeeView

  const RegisteredMessage := "Registered successfully. Now login."
  const MaxCoursesMessage := "Max 5 courses!"

  /**
   * The login and registration screens have nobody signed in; the student
   * screens belong to a stored student and the employee screen to a stored
   * employee.
   */
  ghost predicate SessionOk(db: Db, view: View, user: Option<AuthUser>) {
    match view
    case AuthView | RegisterView => user == None
    case StudentView | EnrollView =>
      user.Some? && user.value.kind == StudentRole && user.value.id in db.students
    case EmployeeView =>
      user.Some? && user.value.kind == EmployeeRole && user.value.id in db.employees
  }

  class App {
    var db: Db
    var view: View
    var role: Role
    var authUser: Option<AuthUser>
    /** The enrollment view's local selection; meaningful while view == EnrollView. */
    var selected: seq<CourseId>

    ghost predicate Valid()
      reads this
    {
      && WellFormed(db)
      && SessionOk(db, view, authUser)
      && (view == EnrollView ==> SelectionOk(selected) && FromCatalogue(selected))
    }

    /** The component's first render: seeded store, login screen, student role, nobody signed in. */
    constructor ()
      ensures Valid()
      ensures db == InitialDb() && view == AuthView && role == StudentRole
      ensures authUser == None && selected == []
    {
      db := InitialDb();
      view := AuthView;
      role := StudentRole;
      authUser := None;
      selected := [];
    }

    /** The Student / Employee buttons of the login screen. */
    method SetRole(r: Role)
      requires Valid() && view == AuthView
      modifies this
      ensures Valid()
      ensures role == r
      ensures db == old(db) && view == old(view) && authUser == old(authUser) && selected == old(selected)
    {
      role := r;
    }

    /** The Register button, shown on the login screen only for the student role. */
    method ShowRegister()
      requires Valid() && view == AuthView && role == StudentRole
      modifies this
      ensures Valid()
      ensures view == RegisterView
      ensures db == old(db) && role == old(role) && authUser == old(authUser) && selected == old(selected)
    {
      view := RegisterView;
    }

    /** The Back button of the registration screen. */
    method BackToLogin()
      requires Valid() && view == RegisterView
      modifies this
      ensures Valid()
      ensures view == AuthView
      ensures db == old(db) && role == old(role) && authUser == old(authUser) && selected == old(selected)
    {
      view := AuthView;
    }

    /**
     * `registerStudent`: on a refusal the alert names the reason and nothing
     * changes; on success the new store is installed and the login screen shown.
     */
    method RegisterStudent(regNo: string, name: string, password: string) returns (alert: string)
      requires Valid() && view == RegisterView
      modifies this
      ensures Valid()
      ensures match Register(old(db), regNo, name, password)
              case Failure(m) => alert == m && db == old(db) && view == old(view)
              case Success(d) => alert == RegisteredMessage && db == d && view == AuthView
      ensures role == old(role) && authUser == old(authUser) && selected == old(selected)
    {
      var r := Register(db, regNo, name, password);
      match r
      case Failure(m) =>
        alert := m;
      case Success(d) =>
        RegisterPreservesWellFormed(db, regNo, name, password);
        db := d;
        alert := RegisteredMessage;
        view := AuthView;
    }

    /**
     * `login`: on success the user is signed in and the dashboard for the
     * role is shown; on failure only the alert is raised.
     */
    method Login(id: string, password: string) returns (alert: Option<string>)
      requires Valid() && view == AuthView
      modifies this
      ensures Valid()
      ensures match Store.Login(old(db), old(role), id, password)
              case Failure(m) => alert == Some(m) && view == old(view) && authUser == old(authUser)
              case Success(u) =>
                && alert == None && authUser == Some(u)
                && view == (if old(role) == StudentRole then StudentView else EmployeeView)
      ensures db == old(db) && role == old(role) && selected == old(selected)
    {
      var r := Store.Login(db, role, id, password);
      match r
      case Failure(m) =>
        alert := Some(m);
      case Success(u) =>
        alert := None;
        authUser := Some(u);
        view := if role == StudentRole then StudentView else EmployeeView;
    }

    /** `logout`, from either dashboard. */
    method Logout()
      requires Valid() && (view == StudentView || view == EmployeeView)
      modifies this
      ensures Valid()
      ensures authUser == None && view == AuthView
      ensures db == old(db) && role == old(role) && selected == old(selected)
    {
      authUser := None;
      view := AuthView;
    }

    /** Enroll Courses: the enrollment view opens with the student's current courses selected. */
    method OpenEnroll()
      requires Valid() && view == StudentView
      modifies this
      ensures Valid()
      ensures view == EnrollView
      ensures selected == db.students[authUser.value.id].enrolled
      ensures db == old(db) && role == old(role) && authUser == old(authUser)
    {
      selected := db.students[authUser.value.id].enrolled;
      view := EnrollView;
    }

    /**
     * `toggle(id)` on a course checkbox; a refusal would raise the "Max 5
     * courses!" alert, but the checkboxes only send catalogue ids and the
     * catalogue has five courses, so it never happens.
     */
    method Toggle(id: CourseId) returns (alert: Option<string>)
      requires Valid() && view == EnrollView && id in CatalogueIds()
      modifies this
      ensures Valid()
      ensures match Selection.Toggle(old(selected), id)
              case None => alert == Some(MaxCoursesMessage) && selected == old(selected)
              case Some(s) => alert == None && selected == s
      ensures alert == None
      ensures db == old(db) && view == old(view) && role == old(role) && authUser == old(authUser)
    {
      ToggleKeepsSelectionOk(selected, id);
      ToggleNeverRefusedOnCatalogue(selected, id);
      var r := Selection.Toggle(selected, id);
      match r
      case None =>
        alert := Some(MaxCoursesMessage);
      case Some(s) =>
        alert := None;
        selected := s;
    }

    /** Save: `enroll(selected)` commits the selection and returns to the dashboard. */
    method Enroll()
      requires Valid() && view == EnrollView
      modifies this
      ensures Valid()
      ensures old(authUser).Some? && old(authUser).value.id in old(db).students
      ensures db == Store.Enroll(old(db), old(authUser).value.id, old(selected))
      ensures view == StudentView
      ensures role == old(role) && authUser == old(authUser) && selected == old(selected)
    {
      EnrollPreservesWellFormed(db, authUser.value.id, selected);
      db := Store.Enroll(db, authUser.value.id, selected);
      view := StudentView;
    }

    /** Cancel: the selection is discarded and the dashboard shown again. */
    method CancelEnroll()
      requires Valid() && view == EnrollView
      modifies this
      ensures Valid()
      ensures view == StudentView
      ensures db == old(db) && role == old(role) && authUser == old(authUser) && selected == old(selected)
    {
      view := StudentView;
    }

    /** Pay Now, offered only to an enrolled student who has not paid yet. */
    method Pay()
      requires Valid() && view == StudentView
      requires db.students[authUser.value.id].enrolled != []
      requires db.students[authUser.value.id].paymentStatus != Paid
      modifies this
      ensures Valid()
      ensures view == old(view) && role == old(role) && authUser == old(authUser) && selected == old(selected)
      ensures db == Store.Pay(old(db), authUser.value.id)
      ensures db.students[authUser.value.id].paymentStatus == Paid
    {
      PayPreservesWellFormed(db, authUser.value.id);
      db := Store.Pay(db, authUser.value.id);
    }

    /** Mark Paid / Mark Unpaid on a row of the employee dashboard. */
    method SetPayment(reg: string, status: Payment)
      requires Valid() && view == EmployeeView && reg in db.students
      modifies this
      ensures Valid()
      ensures db == Store.SetPayment(old(db), reg, status)
      ensures view == old(view) && role == old(role) && authUser == old(authUser) && selected == old(selected)
    {
      SetPaymentPreservesWellFormed(db, reg, status);
      db := Store.SetPayment(db, reg, status);
    }
  }

  /** The walk-through of the portal driven through the component's handlers. */
  method RegisterEnrollPayWalkthrough() returns (record: Student)
    ensures record == Student("R1", "A", "p1", ["CS101", "CS102"], Paid)
  {
    var app := new App();
    app.ShowRegister();
    var registered := app.RegisterStudent("R1", "A", "p1");
    var loginAlert := app.Login("R1", "p1");
    assert loginAlert == None;
    app.OpenEnroll();
    assert app.selected == [];
    assert "CS101" in CatalogueIds() && "CS102" in CatalogueIds() by { CatalogueListed(); }
    var a1 := app.Toggle("CS101");
    var a2 := app.Toggle("CS102");
    assert app.selected == ["CS101", "CS102"];
    app.Enroll();
    app.Pay();
    record := app.db.students["R1"];
  }
}
