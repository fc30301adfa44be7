/** The top-level screen state machine: dashboard, instructions, exam and
    results, with the selected module, the finished attempt and the
    questions kept for the results review. */
module AppShell {
  import opened ExamTypes
  import Proctoring

  datatype Screen = DashboardScreen | InstructionsScreen | ExamScreen | ResultsScreen

  /** What the app renders. */
  datatype View =
    | LoadingView
    | AuthFormView
    | DashboardView
    | InstructionsView(examModule: Module)
    | ExamView(examModule: Module)
    | ResultsView(examModule: Module, attempt: UserAttempt, questions: seq<Question>)
    | NothingView

  class AppController {
    var currentState: Screen
    var selectedModule: Option<Module>
    var examAttempt: Option<UserAttempt>
    var examQuestions: seq<Question>
    /** `useProctoring(false)`: the monitor the app wires up. */
    const proctoring: Proctoring.ViolationMonitor

    constructor ()
      ensures currentState == DashboardScreen && selectedModule == None
      ensures examAttempt == None && examQuestions == []
      ensures fresh(proctoring) && !proctoring.isActive
      ensures proctoring.violations == [] && !proctoring.isFullscreen
    {
      currentState := DashboardScreen;
      selectedModule := None;
      examAttempt := None;
      examQuestions := [];
      proctoring := new Proctoring.ViolationMonitor(false);
    }

    /** `handleModuleSelect`, up to its question fetch: remember the module
        and show its instructions. */
    method ModuleSelect(m: Module)
      modifies this
      ensures currentState == InstructionsScreen && selectedModule == Some(m)
      ensures examAttempt == old(examAttempt) && examQuestions == old(examQuestions)
    {
      selectedModule := Some(m);
      currentState := InstructionsScreen;
    }

    /** The end of `handleModuleSelect`: the fetch's data, when there is
        any, becomes the review questions; a failed fetch changes nothing. */
    method QuestionsFetched(data: Option<seq<Question>>)
      modifies this`examQuestions
      ensures examQuestions == if data.Some? then data.value else old(examQuestions)
    {
      if data.Some? {
        examQuestions := data.value;
      }
    }

    /** `handleStartExam`: the full-screen request is best effort; the exam
        screen is shown whether or not it succeeded. */
    method StartExam(fullscreenGranted: bool)
      modifies this`currentState
      ensures currentState == ExamScreen
    {
      currentState := ExamScreen;
    }

    /** `handleExamComplete`: keep the stored attempt and show the results. */
    method ExamComplete(attempt: UserAttempt)
      modifies this
      ensures currentState == ResultsScreen && examAttempt == Some(attempt)
      ensures selectedModule == old(selectedModule) && examQuestions == old(examQuestions)
    {
      examAttempt := Some(attempt);
      currentState := ResultsScreen;
    }

    /** `handleRetakeExam`: back to the instructions of the same module,
        with the attempt cleared. */
    method RetakeExam()
      modifies this
      ensures currentState == InstructionsScreen && examAttempt == None
      ensures selectedModule == old(selectedModule) && examQuestions == old(examQuestions)
    {
      currentState := InstructionsScreen;
      examAttempt := None;
    }

    /** `handleBackToDashboard`: everything the exam flow held is cleared. */
    method BackToDashboard()
      modifies this
      ensures currentState == DashboardScreen
      ensures selectedModule == None && examAttempt == None && examQuestions == []
    {
      currentState := DashboardScreen;
      selectedModule := None;
      examAttempt := None;
      examQuestions := [];
    }

    /** The render: the loading spinner and the sign-in form come first;
        then each screen renders only when what it needs is present. */
    function Render(authLoading: bool, signedIn: bool): (v: View)
      reads this
      ensures v == LoadingView <==> authLoading
      ensures v == AuthFormView <==> !authLoading && !signedIn
      ensures !authLoading && signedIn && currentState == InstructionsScreen && selectedModule.Some? ==>
        v == InstructionsView(selectedModule.value)
      ensures !authLoading && signedIn && currentState == ExamScreen && selectedModule.Some? ==>
        v == ExamView(selectedModule.value)
      ensures !authLoading && signedIn && currentState == ResultsScreen && selectedModule.Some? && examAttempt.Some? ==>
        v == ResultsView(selectedModule.value, examAttempt.value, examQuestions)
      ensures v.InstructionsView? ==> currentState == InstructionsScreen && selectedModule == Some(v.examModule)
      ensures v.ExamView? ==> currentState == ExamScreen && selectedModule == Some(v.examModule)
      ensures v.ResultsView? ==>
        currentState == ResultsScreen && selectedModule == Some(v.examModule)
        && examAttempt == Some(v.attempt) && v.questions == examQuestions
      ensures v.DashboardView? <==> !authLoading && signedIn && currentState == DashboardScreen
      ensures v == NothingView <==>
        !authLoading && signedIn &&
        ((currentState in {InstructionsScreen, ExamScreen} && selectedModule == None)
         || (currentState == ResultsScreen && (selectedModule == None || examAttempt == None)))
    {
      if authLoading then LoadingView
      else if !signedIn then AuthFormView
      else
        match currentState
        case InstructionsScreen =>
          if selectedModule.Some? then InstructionsView(selectedModule.value) else NothingView
        case ExamScreen =>
          if selectedModule.Some? then ExamView(selectedModule.value) else NothingView
        case ResultsScreen =>
          if selectedModule.Some? && examAttempt.Some?
          then ResultsView(selectedModule.value, examAttempt.value, examQuestions)
          else NothingView
        case DashboardScreen => DashboardView
    }
  }

  /** Select, start, complete, retake: the results give way to the
      instructions of the same module, which still render. */
  method RetakeKeepsModule(m: Module, attempt: UserAttempt) returns (before: View, after: View)
    ensures before.ResultsView? && before.examModule == m && before.attempt == attempt
    ensures after == InstructionsView(m)
  {
    var app := new AppController();
    app.ModuleSelect(m);
    app.StartExam(false);
    app.ExamComplete(attempt);
    before := app.Render(false, true);
    app.RetakeExam();
    after := app.Render(false, true);
  }

  /** In this wiring the monitor is inactive, so a full exam session with
      any browser events records no violation. */
  method AppRecordsNoViolations(m: Module, hidden: bool, key: string, keyCode: int, now: Timestamp)
    returns (count: nat)
    ensures count == 0
  {
    var app := new AppController();
    app.ModuleSelect(m);
    app.StartExam(true);
    app.proctoring.OnVisibilityChange(hidden, now);
    app.proctoring.OnFullscreenChange(false, now);
    var _ := app.proctoring.OnContextMenu(now);
    var _ := app.proctoring.OnKeyDown(true, false, key, keyCode, now);
    count := app.proctoring.ViolationCount();
  }
}
