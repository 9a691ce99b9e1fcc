/**
 * The login page's state machine (script.js): the click handler validates,
 * clears the message and moves to LOGIN, and schedules a delayed callback
 * that moves on according to the role.
 */
module LoginPage {
  import opened Wrappers
  import opened LoginValidation

  datatype FormState = Idle | LoggingIn | CourseRegistration | ExamEnrollment

  const InvalidRole := "Please select a valid role."

  /** A delayed callback not yet run, holding the trimmed role and id it captured. */
  datatype PendingLogin = PendingLogin(role: string, regId: string)

  /**
   * What the pending callbacks and the redirect can hold: every callback
   * carries a validated submission, and a redirect carries a student id.
   */
  predicate Consistent(timers: seq<PendingLogin>, redirect: Option<string>) {
    && (forall p :: p in timers ==> Accepted(p.role, p.regId))
    && (redirect.Some? ==> IsStudentId(redirect.value))
  }

  /** Scheduling a validated submission keeps the callbacks consistent. */
  lemma ScheduleKeepsConsistent(timers: seq<PendingLogin>, redirect: Option<string>, p: PendingLogin)
    requires Consistent(timers, redirect) && Accepted(p.role, p.regId)
    ensures Consistent(timers + [p], redirect)
  {
    forall q | q in timers + [p]
      ensures Accepted(q.role, q.regId)
    {
      if q != p {
        assert q in timers;
      }
    }
  }

  class LoginScreen {
    var currentState: FormState
    /** The inline error element's text. */
    var errorText: string
    /** Scheduled callbacks, in the order they fire (all share one delay). */
    var timers: seq<PendingLogin>
    /** The `regId` carried by the course-enrollment redirect, once one has happened. */
    var redirect: Option<string>

    /** Callbacks are consistent, and one is pending only once the page has left IDLE. */
    ghost predicate Valid()
      reads this
    {
      && Consistent(timers, redirect)
      && (timers != [] ==> currentState != Idle)
    }

    constructor ()
      ensures Valid()
      ensures currentState == Idle && errorText == "" && timers == [] && redirect == None
    {
      currentState := Idle;
      errorText := "";
      timers := [];
      redirect := None;
    }

    /**
     * The login button: a failed check sets its message and changes nothing
     * else; success clears the message, enters LOGIN and schedules the callback.
     */
    method Click(roleField: string, idField: string, passwordField: string)
      requires Valid()
      modifies this
      ensures Valid()
      ensures match Validate(roleField, idField, passwordField)
              case Fail(e) => errorText == Message(e) && currentState == old(currentState) && timers == old(timers)
              case Pass =>
                && errorText == "" && currentState == LoggingIn
                && timers == old(timers) + [PendingLogin(Trim(roleField), Trim(idField))]
      ensures redirect == old(redirect)
    {
      var outcome := Validate(roleField, idField, passwordField);
      match outcome
      case Fail(e) =>
        errorText := Message(e);
      case Pass =>
        var p := PendingLogin(Trim(roleField), Trim(idField));
        assert Accepted(p.role, p.regId) by { PassIsAccepted(roleField, idField, passwordField); }
        ScheduleKeepsConsistent(timers, redirect, p);
        errorText := "";
        currentState := LoggingIn;
        timers := timers + [p];
    }

    /**
     * The oldest pending callback fires: a student goes to course
     * registration and is redirected with the id, an admin goes to exam
     * enrollment, any other role only gets the "valid role" message.
     */
    method TimerFires()
      requires Valid() && timers != []
      modifies this
      ensures Valid()
      ensures old(currentState) != Idle && currentState != Idle
      ensures timers == old(timers)[1..]
      ensures old(timers)[0].role == "student" ==>
                && currentState == CourseRegistration
                && redirect == Some(old(timers)[0].regId)
                && errorText == old(errorText)
      ensures old(timers)[0].role == "admin" ==>
                && currentState == ExamEnrollment
                && redirect == old(redirect)
                && errorText == old(errorText)
      ensures old(timers)[0].role != "student" && old(timers)[0].role != "admin" ==>
                && currentState == old(currentState)
                && redirect == old(redirect)
                && errorText == InvalidRole
    {
      var p := timers[0];
      assert p in timers;
      timers := timers[1..];
      if p.role == "student" {
        currentState := CourseRegistration;
        redirect := Some(p.regId);
      } else if p.role == "admin" {
        currentState := ExamEnrollment;
      } else {
        errorText := InvalidRole;
      }
    }
  }
}
