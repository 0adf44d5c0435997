/** The home screen (app/Getdept.tsx): the "Get Courses" button checks the
    roll number, the department and the semester, in that order, and either
    shows an alert naming the first missing one or opens the GPA screen. */
module GetDept {
  import opened Wrappers
  import opened JsText
  import opened DeptInput
  import opened Getcgpa

  /** What pressing the button does: one alert, or one navigation. */
  datatype Outcome = Alert(message: string) | Navigate(route: string)

  const RollNoMessage: string := "Please provide your Roll Number."
  const DeptMessage: string := "Please select a department."
  const SemesterMessage: string := "Please select a semester."
  const GpaRoute: string := "/Getcgpa"

  /** JavaScript truthiness of a `string | null` context field: set and not
      the empty string. */
  predicate Present(field: Option<string>) {
    field.Some? && field.value != ""
  }

  /** `handleNavigation`'s decision: a roll number that trims to nothing
      comes first, then a missing department, then a missing semester;
      navigation happens exactly when all three are present. */
  function CheckInput(session: Session): (o: Outcome)
    ensures IsBlank(session.rollNo) ==> o == Alert(RollNoMessage)
    ensures !IsBlank(session.rollNo) && !Present(session.dept) ==> o == Alert(DeptMessage)
    ensures !IsBlank(session.rollNo) && Present(session.dept) && !Present(session.semester) ==>
              o == Alert(SemesterMessage)
    ensures o.Navigate? <==> !IsBlank(session.rollNo) && Present(session.dept) && Present(session.semester)
    ensures o.Navigate? ==> o.route == GpaRoute
  {
    TrimEmptyIffBlank(session.rollNo);
    if Trim(session.rollNo) == "" then Alert(RollNoMessage)
    else if !Present(session.dept) then Alert(DeptMessage)
    else if !Present(session.semester) then Alert(SemesterMessage)
    else Navigate(GpaRoute)
  }

  /** Right after the form is cleared, the button asks for the roll number. */
  lemma ClearedSessionAsksRollNo()
    ensures CheckInput(ClearedSession) == Alert(RollNoMessage)
  {
    assert IsBlank(ClearedSession.rollNo);
  }

  /** A roll number of spaces is refused whatever else is selected. */
  lemma SpacesAreNoRollNo(session: Session)
    requires |session.rollNo| > 0 && forall i :: 0 <= i < |session.rollNo| ==> session.rollNo[i] == ' '
    ensures CheckInput(session) == Alert(RollNoMessage)
  {
  }

  /** Whenever the button navigates, the GPA screen's guard passes, so its
      course-loading effect runs. */
  lemma NavigationPassesGuard(session: Session)
    requires CheckInput(session).Navigate?
    ensures ReadyToResolve(session)
  {
  }

  /** The screen's alert state and the navigation stack of pushed routes. */
  class HomeScreen {
    var alertVisible: bool
    var alertMessage: string
    var routes: seq<string>

    /** Mounting: no alert and nothing pushed. */
    constructor ()
      ensures !alertVisible && alertMessage == "" && routes == []
    {
      alertVisible := false;
      alertMessage := "";
      routes := [];
    }

    /** `showAlert`: set the message and show the alert. */
    method ShowAlert(message: string)
      modifies this`alertMessage, this`alertVisible
      ensures alertMessage == message && alertVisible
    {
      alertMessage := message;
      alertVisible := true;
    }

    /** Pressing "Get Courses": exactly one of an alert with the decided
        message, or a push of the GPA route; the other part of the state is
        left alone. */
    method HandleNavigation(session: Session)
      modifies this
      ensures match CheckInput(session)
              case Alert(m) => alertMessage == m && alertVisible && routes == old(routes)
              case Navigate(route) =>
                routes == old(routes) + [route] &&
                alertMessage == old(alertMessage) && alertVisible == old(alertVisible)
    {
      TrimEmptyIffBlank(session.rollNo);
      if Trim(session.rollNo) == "" {
        ShowAlert(RollNoMessage);
      } else if !Present(session.dept) {
        ShowAlert(DeptMessage);
      } else if !Present(session.semester) {
        ShowAlert(SemesterMessage);
      } else {
        routes := routes + [GpaRoute];
      }
    }

    /** The alert's OK button hides it; the message stays. */
    method DismissAlert()
      modifies this`alertVisible
      ensures !alertVisible
    {
      alertVisible := false;
    }
  }
}
