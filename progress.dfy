/** The registration progress bar (frontend/js/progress.js): a step counter kept within
    [1, totalSteps], and the rendering of the step indicators and the two buttons. */
module Progress {

  const TotalSteps: int := 4

  predicate InRange(step: int) {
    1 <= step <= TotalSteps
  }

  /** The class a step indicator carries: `completed`, `active` or neither. */
  datatype StepMark = Completed | Active | Plain

  /** What the next button does when clicked: advance one step, or announce completion. */
  datatype NextAction = Advance | AnnounceCompletion

  /** The mark of the indicator numbered `stepNumber` (counting from 1). */
  function MarkFor(stepNumber: int, current: int): (m: StepMark)
    ensures m == Completed <==> stepNumber < current
    ensures m == Active <==> stepNumber == current
    ensures m == Plain <==> stepNumber > current
  {
    if stepNumber < current then Completed else if stepNumber == current then Active else Plain
  }

  /** The marks of `count` indicators numbered 1 to `count`. */
  function Marks(current: int, count: nat): (r: seq<StepMark>)
    ensures |r| == count
  {
    seq(count, i requires 0 <= i < count => MarkFor(i + 1, current))
  }

  /** Within range, the indicators before the current one are completed, the current one is the
      only active one, and those after it are plain. */
  lemma MarksShape(current: int, count: nat)
    requires 1 <= current <= count
    ensures var marks := Marks(current, count);
            && marks[current - 1] == Active
            && (forall i :: 0 <= i < current - 1 ==> marks[i] == Completed)
            && (forall i :: current <= i < count ==> marks[i] == Plain)
            && (forall i :: 0 <= i < count && marks[i] == Active ==> i == current - 1)
  {
  }

  /** The two groups of indicators are numbered as one list of `count`, the second group after the
      `first` indicators of the first: the first group is marked as if alone, and with at least
      `TotalSteps` indicators in it no indicator of the second group is ever marked. */
  lemma SecondGroupNumberedAfterFirst(current: int, first: nat, count: nat)
    requires InRange(current) && first <= count
    ensures Marks(current, count)[..first] == Marks(current, first)
    ensures first >= TotalSteps ==> forall i :: first <= i < count ==> Marks(current, count)[i] == Plain
  {
  }

  class ProgressBar {
    /** How many `.step1` and `.step2` indicators the page holds. */
    const firstGroup: nat
    const secondGroup: nat
    var currentStep: int
    /** The rendered page: the marks of the indicators and the state of the two buttons. */
    var stepMarks: seq<StepMark>
    var prevDisabled: bool
    var nextLabel: string
    var nextAction: NextAction

    ghost predicate Valid()
      reads this
    {
      InRange(currentStep)
    }

    /** The page shows the current step. */
    ghost predicate Rendered()
      reads this
    {
      && stepMarks == Marks(currentStep, firstGroup + secondGroup)
      && prevDisabled == (currentStep == 1)
      && nextLabel == (if currentStep == TotalSteps then "Complete" else "Next")
      && nextAction == (if currentStep == TotalSteps then AnnounceCompletion else Advance)
    }

    /** Page load: the step starts at 1 and the bar is drawn. */
    constructor (firstGroup: nat, secondGroup: nat)
      ensures this.firstGroup == firstGroup && this.secondGroup == secondGroup
      ensures currentStep == 1 && Valid() && Rendered()
    {
      this.firstGroup := firstGroup;
      this.secondGroup := secondGroup;
      currentStep := 1;
      stepMarks := [];
      prevDisabled := false;
      nextLabel := "";
      nextAction := Advance;
      new;
      UpdateProgressBar();
    }

    /** `updateProgressBar`: marks every indicator of the concatenated list and sets the buttons. */
    method UpdateProgressBar()
      modifies this
      ensures currentStep == old(currentStep)
      ensures Rendered()
    {
      var count := firstGroup + secondGroup;
      var marks: seq<StepMark> := [];
      var index := 0;
      while index < count
        invariant index <= count
        invariant |marks| == index
        invariant forall k :: 0 <= k < index ==> marks[k] == MarkFor(k + 1, currentStep)
      {
        var stepNumber := index + 1;
        var mark := Plain;
        if stepNumber < currentStep {
          mark := Completed;
        } else if stepNumber == currentStep {
          mark := Active;
        }
        marks := marks + [mark];
        index := index + 1;
      }
      stepMarks := marks;
      prevDisabled := currentStep == 1;
      if currentStep == TotalSteps {
        nextLabel := "Complete";
        nextAction := AnnounceCompletion;
      } else {
        nextLabel := "Next";
        nextAction := Advance;
      }
    }

    /** `setCurrentStep`: an in-range step is taken and drawn; any other value changes nothing. */
    method SetCurrentStep(step: int)
      requires Valid() && Rendered()
      modifies this
      ensures Valid() && Rendered()
      ensures InRange(step) ==> currentStep == step
      ensures !InRange(step) ==> currentStep == old(currentStep) && unchanged(this)
      ensures currentStep == After(old(currentStep), SetStep(step))
    {
      if 1 <= step && step <= TotalSteps {
        currentStep := step;
        UpdateProgressBar();
      }
    }

    /** `goToStep`, whose body is that of `setCurrentStep`. */
    method GoToStep(step: int)
      requires Valid() && Rendered()
      modifies this
      ensures Valid() && Rendered()
      ensures InRange(step) ==> currentStep == step
      ensures !InRange(step) ==> currentStep == old(currentStep) && unchanged(this)
      ensures currentStep == After(old(currentStep), GoTo(step))
    {
      SetCurrentStep(step);
    }

    /** `changeStep`: moves by `direction` when the new step is in range; otherwise nothing changes. */
    method ChangeStep(direction: int)
      requires Valid() && Rendered()
      modifies this
      ensures Valid() && Rendered()
      ensures InRange(old(currentStep) + direction) ==> currentStep == old(currentStep) + direction
      ensures !InRange(old(currentStep) + direction) ==> currentStep == old(currentStep) && unchanged(this)
      ensures currentStep == After(old(currentStep), Change(direction))
    {
      var newStep := currentStep + direction;
      if 1 <= newStep && newStep <= TotalSteps {
        currentStep := newStep;
        UpdateProgressBar();
      }
    }

    /** A click on the next button: before the last step it advances one step; on the last step it
        shows the completion alert and changes nothing. */
    method ClickNext() returns (alerted: bool)
      requires Valid() && Rendered()
      modifies this
      ensures Valid() && Rendered()
      ensures alerted <==> old(currentStep) == TotalSteps
      ensures alerted ==> unchanged(this)
      ensures !alerted ==> currentStep == old(currentStep) + 1
    {
      if nextAction == AnnounceCompletion {
        return true;
      }
      ChangeStep(1);
      alerted := false;
    }

    /** `autoProgress`: every tick of the interval advances one step until the last step, where
        the interval is cleared. Returns how many ticks advanced. */
    method AutoProgress() returns (ticks: nat)
      requires Valid() && Rendered()
      modifies this
      ensures Valid() && Rendered()
      ensures currentStep == TotalSteps
      ensures ticks == TotalSteps - old(currentStep)
    {
      ticks := 0;
      while currentStep < TotalSteps
        invariant Valid() && Rendered()
        invariant ticks == currentStep - old(currentStep)
        decreases TotalSteps - currentStep
      {
        ChangeStep(1);
        ticks := ticks + 1;
      }
    }
  }

  /** The calls the page can make on the counter: `setCurrentStep`, `goToStep` and `changeStep`,
      whose methods above each end on the step `After` gives. */
  datatype StepCall = SetStep(step: int) | GoTo(step: int) | Change(direction: int)

  /** The step after one call. */
  function After(current: int, call: StepCall): int {
    var target := match call
      case SetStep(step) => step
      case GoTo(step) => step
      case Change(direction) => current + direction;
    if InRange(target) then target else current
  }

  /** The step after a sequence of calls. */
  function AfterAll(current: int, calls: seq<StepCall>): int
    decreases |calls|
  {
    if calls == [] then current else AfterAll(After(current, calls[0]), calls[1..])
  }

  /** Whatever the calls, the counter never leaves [1, TotalSteps]; and a call that would leave it
      is ignored. */
  lemma {:induction false} StepAlwaysInRange(current: int, calls: seq<StepCall>)
    requires InRange(current)
    ensures InRange(AfterAll(current, calls))
    decreases |calls|
  {
    if calls != [] {
      StepAlwaysInRange(After(current, calls[0]), calls[1..]);
    }
  }
}
