/** Start and stop of a stage's worker thread, driven from one controlling thread.

    Every worker ever launched is kept, so that exclusion is a statement about all of them. The
    controller and the workers interleave freely, one flag access or thread operation at a time. */
module Lifecycles {

  /** A worker: launched, in `run` with the running flag set, returned from `run`, finished. */
  datatype Phase = Launched | InRun | Returned | Finished

  datatype ControllerPc = Idle | Starting | Joining

  datatype Thread = Thread(workers: seq<Phase>, joinable: bool, running: bool, stopFlag: bool, controller: ControllerPc)

  datatype Step =
    | CallStart | Launch | CallStop | Join
    | EnterRun(id: nat) | LeaveRun(id: nat) | ClearRunning(id: nat)

  function Init(): Thread { Thread([], false, false, false, Idle) }

  predicate At(t: Thread, id: nat, phase: Phase) { id < |t.workers| && t.workers[id] == phase }

  predicate Enabled(t: Thread, s: Step) {
    match s
    case CallStart => t.controller.Idle?
    case Launch => t.controller.Starting?
    case CallStop => t.controller.Idle?
    case Join => t.controller.Joining? && (t.joinable ==> t.workers != [] && t.workers[|t.workers| - 1] == Finished)
    case EnterRun(id) => At(t, id, Launched)
    case LeaveRun(id) => At(t, id, InRun)
    case ClearRunning(id) => At(t, id, Returned)
  }

  function Next(t: Thread, s: Step): Thread
    requires Enabled(t, s)
  {
    match s
    case CallStart => if t.joinable then t else t.(stopFlag := false, controller := Starting)
    case Launch => t.(workers := t.workers + [Launched], joinable := true, controller := Idle)
    case CallStop => t.(stopFlag := true, controller := Joining)
    case Join => t.(joinable := false, controller := Idle)
    case EnterRun(id) => t.(workers := t.workers[id := InRun], running := true)
    case LeaveRun(id) => t.(workers := t.workers[id := Returned])
    case ClearRunning(id) => t.(workers := t.workers[id := Finished], running := false)
  }

  /** The worker is executing the body in which the running flag is set. */
  predicate Active(p: Phase) { p.InRun? || p.Returned? }

  ghost predicate Unfinished(t: Thread, i: nat) { i < |t.workers| && t.workers[i] != Finished }

  ghost predicate AllFinished(t: Thread) { forall i :: 0 <= i < |t.workers| ==> t.workers[i] == Finished }

  ghost predicate SomeoneActive(t: Thread) { exists i :: 0 <= i < |t.workers| && Active(t.workers[i]) }

  /** Only the newest worker can be unfinished, and only while the thread is joinable. */
  ghost predicate Inv(t: Thread) {
    && (forall i :: 0 <= i < |t.workers| && t.workers[i] != Finished ==> i == |t.workers| - 1 && t.joinable)
    && (t.joinable ==> t.workers != [] && !t.controller.Starting?)
    && (t.running <==> SomeoneActive(t))
    && (t.controller.Joining? ==> t.stopFlag)
    && (t.controller.Starting? || (t.joinable && !t.controller.Joining?) ==> !t.stopFlag)
  }

  lemma StepKeepsInv(t: Thread, s: Step)
    requires Inv(t) && Enabled(t, s)
    ensures Inv(Next(t, s))
  {
    var u := Next(t, s);
    match s
    case Launch =>
      forall i | 0 <= i < |u.workers| && Active(u.workers[i]) ensures Active(t.workers[i]) {}
    case EnterRun(id) =>
      assert Active(u.workers[id]);
    case LeaveRun(id) =>
      assert Active(t.workers[id]) && Active(u.workers[id]);
    case ClearRunning(id) =>
      assert forall i :: 0 <= i < |u.workers| && i != id ==> u.workers[i] == t.workers[i];
    case _ =>
  }

  ghost predicate IsHistory(states: seq<Thread>, steps: seq<Step>) {
    && |states| == |steps| + 1
    && states[0] == Init()
    && (forall i {:trigger steps[i]} :: 0 <= i < |steps| ==>
          Enabled(states[i], steps[i]) && states[i + 1] == Next(states[i], steps[i]))
  }

  lemma {:induction false} HistoryKeepsInv(states: seq<Thread>, steps: seq<Step>, i: nat)
    requires IsHistory(states, steps) && i < |states|
    ensures Inv(states[i])
  {
    if i > 0 {
      HistoryKeepsInv(states, steps, i - 1);
      StepKeepsInv(states[i - 1], steps[i - 1]);
    }
  }

  /** In every history of starts and stops at most one worker is ever unfinished, so `run` is never
      executed by two at once; the running flag is set exactly while one is executing; the stop flag an
      unfinished worker can read is set exactly while a stop is waiting for it; and when `stop`
      returns, every worker has finished and the running flag is clear. */
  lemma AtMostOneWorker(states: seq<Thread>, steps: seq<Step>, i: nat)
    requires IsHistory(states, steps) && i < |states|
    ensures forall j, k :: Unfinished(states[i], j) && Unfinished(states[i], k) ==> j == k
    ensures states[i].running <==> SomeoneActive(states[i])
    ensures forall j :: Unfinished(states[i], j) ==> (states[i].stopFlag <==> states[i].controller.Joining?)
    ensures i < |steps| && steps[i].Join? ==>
              !states[i + 1].running && !states[i + 1].joinable && AllFinished(states[i + 1])
  {
    HistoryKeepsInv(states, steps, i);
    if i < |steps| { HistoryKeepsInv(states, steps, i + 1); }
  }

  /** From a start that launches until the next call of `stop`, the stop flag stays clear. */
  lemma {:induction false} FlagStaysClear(states: seq<Thread>, steps: seq<Step>, i: nat, j: nat)
    requires IsHistory(states, steps) && i < j < |states|
    requires steps[i].CallStart? && !states[i].joinable && forall k :: i < k < j ==> !steps[k].CallStop?
    ensures !states[j].stopFlag
  {
    assert states[j] == Next(states[j - 1], steps[j - 1]);
    if i + 1 < j { FlagStaysClear(states, steps, i, j - 1); }
  }

  /** A second start is a no-op, and so is a start after `run` has returned by itself: only `stop`
      makes the stage startable again. */
  lemma StartNeedsStop(states: seq<Thread>, steps: seq<Step>, i: nat)
    requires IsHistory(states, steps) && i < |steps| && steps[i].CallStart?
    ensures states[i + 1] == states[i] <==> states[i].joinable
    ensures states[i + 1].controller.Starting? ==> AllFinished(states[i])
  {
    HistoryKeepsInv(states, steps, i);
  }
}
