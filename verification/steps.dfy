/**
  The step indicator: each of the four steps is completed, current or pending
  relative to the shell's step, with its icon and the connector after it.
 */
module Steps {
  import opened Types

  /** A step's status. */
  datatype Status = Completed | Current | Pending

  /** `getStatus`: by position in the step order, before, at or after the current step. */
  function GetStatus(current: AppStep, step: AppStep): (r: Status)
    ensures r == Completed <==> StepIndex(step) < StepIndex(current)
    ensures r == Current <==> step == current
    ensures r == Pending <==> StepIndex(step) > StepIndex(current)
  {
    if StepIndex(step) < StepIndex(current) then Completed
    else if StepIndex(step) == StepIndex(current) then Current
    else Pending
  }

  /** The statuses of the four steps, in display order. */
  function Statuses(current: AppStep): (r: seq<Status>)
    ensures |r| == 4
    ensures forall i :: 0 <= i < 4 ==> r[i] == GetStatus(current, StepOrder[i])
  {
    seq(4, i requires 0 <= i < 4 => GetStatus(current, StepOrder[i]))
  }

  /**
    The display is always completed steps, then exactly one current step (the
    shell's), then pending steps.
   */
  lemma StatusesShape(current: AppStep)
    ensures var r := Statuses(current);
            && r[StepIndex(current)] == Current
            && (forall i :: 0 <= i < StepIndex(current) ==> r[i] == Completed)
            && (forall i :: StepIndex(current) < i < 4 ==> r[i] == Pending)
  {
    forall i | 0 <= i < 4 ensures StepIndex(StepOrder[i]) == i {
      StepIndexIsPosition(StepOrder[i]);
    }
    StepIndexIsPosition(current);
  }

  /** The icon drawn above a step. */
  datatype Icon = GreenCheck | Spinner | FilledCircle | GreyCircle

  /** Completed steps get a check, pending ones a grey circle; the current one spins while work is under way. */
  function StepIcon(current: AppStep, step: AppStep): (r: Icon)
    ensures r == GreenCheck <==> GetStatus(current, step) == Completed
    ensures r == GreyCircle <==> GetStatus(current, step) == Pending
    ensures r == Spinner <==> step == current && (current == ANALYZING || current == GENERATING)
  {
    match GetStatus(current, step)
    case Completed => GreenCheck
    case Current => if current == ANALYZING || current == GENERATING then Spinner else FilledCircle
    case Pending => GreyCircle
  }

  /** A spinner shows somewhere exactly while the shell is analysing or generating. */
  lemma SpinnerWhileWorking(current: AppStep)
    ensures (exists step :: StepIcon(current, step) == Spinner) <==> current == ANALYZING || current == GENERATING
  {
    if current == ANALYZING || current == GENERATING {
      assert StepIcon(current, current) == Spinner;
    }
  }

  /** The three connectors between the steps; the one after a step is green exactly when that step is completed. */
  function Connectors(current: AppStep): (r: seq<bool>)
    ensures |r| == 3
    ensures forall i :: 0 <= i < 3 ==> (r[i] <==> GetStatus(current, StepOrder[i]) == Completed)
  {
    seq(3, i requires 0 <= i < 3 => GetStatus(current, StepOrder[i]) == Completed)
  }

  /** The green connectors are exactly the ones before the current step. */
  lemma GreenConnectorsLeadToCurrent(current: AppStep)
    ensures forall i :: 0 <= i < 3 ==> (Connectors(current)[i] <==> i < StepIndex(current))
  {
    forall i | 0 <= i < 3 ensures StepIndex(StepOrder[i]) == i {
      StepIndexIsPosition(StepOrder[i]);
    }
  }
}
