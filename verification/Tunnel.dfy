// Starting and stopping the tunnel: one main thread and any number of stoppers around one atomic word.
module Tunnel {
  /** The main thread between its atomic steps; it calls init, run and fini in turn. */
  datatype Main =
    | Idle          // before init or after fini
    | Opening       // in init, before the event pair is open
    | Opened        // in init, the event pair is open
    | Ready         // init has returned, or run has
    | Testing       // in run, before it looks at STOP
    | Queued        // in run, tasks are queued
    | Running       // in run, the tasks run
    | Retrying      // in fini, before SEND and SENT are cleared without a waiting stopper
    | Closing       // in fini, behind that

  /** The event task: waiting for a byte, before "run = 0", before SENT is cleared, at its end. */
  datatype EventTask = Waiting | Read | Stopped | Done

  /** A stopper between its atomic steps; Leaving is before it releases WAIT. */
  datatype Stopper = Away | Taking | SawSend | Writing | SawClear | Leaving(sawSend: bool)

  /** tsync's four bits, the event pair with its unread bytes, the run flag, and where everybody is.
      holder is the stopper that took WAIT; strayWrite tells of a write to a pair that was not open. */
  datatype State = State(send: bool, sent: bool, stop: bool, wait: bool,
                         open: bool, unread: nat, run: bool, strayWrite: bool,
                         main: Main, event: EventTask, stoppers: seq<Stopper>, holder: int)

  datatype Action =
    | CallInit | Succeed | Fail       // init: it begins, a step of it works, a step of it fails
    | CallRun | CallFini
    | Proceed                         // the next atomic step of run or fini
    | EventStep(bytes: nat)           // the next step of the event task; a read takes 1 to 4 bytes
    | CallStop(i: nat) | StopStep(i: nat)

  predicate InCall(p: Stopper) { p.SawSend? || p.Writing? || p.SawClear? || p.Leaving? }

  /** An action that cannot happen in a state leaves it as it is. */
  function Step(s: State, a: Action): State {
    match a
    case CallInit => if s.main.Idle? then s.(main := Opening) else s
    case Succeed =>
      if s.main.Opening? then s.(main := Opened, open := true, unread := 0)
      else if s.main.Opened? then s.(main := Ready, send := true)
      else s
    case Fail => if s.main.Opening? || s.main.Opened? then s.(main := Retrying) else s
    case CallRun => if s.main.Ready? then s.(main := Testing) else s
    case CallFini => if s.main.Ready? then s.(main := Retrying) else s
    case Proceed =>
      (match s.main
       case Testing => if s.stop then s.(stop := false, main := Ready) else s.(main := Queued)
       case Queued => s.(run := true, main := Running, event := Waiting)
       case Retrying => s.(send := false, sent := false, main := if s.wait then Retrying else Closing)
       case Closing => s.(open := false, unread := 0, main := Idle)
       case _ => s)
    case EventStep(bytes) => if s.main.Running? then StepEvent(s, bytes) else s
    case CallStop(i) => if i < |s.stoppers| && s.stoppers[i].Away? then s.(stoppers := s.stoppers[i := Taking]) else s
    case StopStep(i) => if i < |s.stoppers| then StepStopper(s, i) else s
  }

  function StepEvent(s: State, bytes: nat): State {
    match s.event
    case Waiting => if 1 <= bytes <= 4 && bytes <= s.unread then s.(unread := s.unread - bytes, event := Read) else s
    case Read => s.(run := false, event := Stopped)
    case Stopped => s.(sent := false, event := Done)
    case Done => s.(main := Ready)
  }

  function StepStopper(s: State, i: nat): State
    requires i < |s.stoppers|
  {
    match s.stoppers[i]
    case Away => s
    case Taking =>
      if s.wait then s
      else s.(wait := true, holder := i, stoppers := s.stoppers[i := if s.send then SawSend else SawClear])
    case SawSend => s.(sent := true, stoppers := s.stoppers[i := if s.sent then Leaving(true) else Writing])
    case Writing =>
      var w := if s.open then s.(unread := s.unread + 1) else s.(strayWrite := true);
      w.(stoppers := s.stoppers[i := Leaving(true)])
    case SawClear => s.(stop := true, stoppers := s.stoppers[i := Leaving(false)])
    case Leaving(_) => s.(wait := false, holder := -1, stoppers := s.stoppers[i := Away])
  }

  function Initial(n: nat): State {
    State(false, false, false, false, false, 0, false, false, Idle, Waiting, seq(n, _ => Away), -1)
  }

  function Run(s: State, acts: seq<Action>): State
    decreases |acts|
  {
    if acts == [] then s else Run(Step(s, acts[0]), acts[1..])
  }

  // ----- what every step keeps -----

  /** A session: init has returned successfully and fini has not been called. */
  predicate InSession(m: Main) { m.Ready? || m.Testing? || m.Queued? || m.Running? }

  predicate HolderIs(s: State, p: Stopper) { 0 <= s.holder < |s.stoppers| && s.stoppers[s.holder] == p }

  /** Nobody but the holder is between taking and releasing WAIT. */
  ghost predicate Alone(stoppers: seq<Stopper>, holder: int) {
    forall i | 0 <= i < |stoppers| :: InCall(stoppers[i]) <==> i == holder
  }

  ghost predicate Inv(s: State) {
    && !s.strayWrite
    && -1 <= s.holder < |s.stoppers| && (s.wait <==> s.holder >= 0)
    && Alone(s.stoppers, s.holder)
    && (InSession(s.main) ==> s.send) && (s.send ==> s.open && (InSession(s.main) || s.main.Retrying?))
    && (InSession(s.main) || s.main.Opened? ==> s.open)
    && (HolderIs(s, SawSend) || HolderIs(s, Writing) ==> s.open && (InSession(s.main) || s.main.Retrying?))
    && (s.sent ==> InSession(s.main) || s.main.Retrying?)
    && (s.sent ==> s.unread > 0 || HolderIs(s, Writing) || (s.main.Running? && (s.event.Read? || s.event.Stopped?)) || s.main.Retrying?)
    && (!s.open ==> s.unread == 0) && (s.main.Idle? || s.main.Opening? ==> !s.open)
    && (s.main.Running? && (s.event.Stopped? || s.event.Done?) ==> !s.run)
  }

  lemma StopperInv(s: State, i: nat)
    requires Inv(s) && i < |s.stoppers|
    ensures Inv(StepStopper(s, i))
  {
    var s' := StepStopper(s, i);
    forall j | 0 <= j < |s'.stoppers| ensures InCall(s'.stoppers[j]) <==> j == s'.holder {
      assert InCall(s.stoppers[j]) <==> j == s.holder;
      assert InCall(s.stoppers[i]) <==> i == s.holder;
    }
  }

  lemma CallStopInv(s: State, i: nat)
    requires Inv(s) && i < |s.stoppers| && s.stoppers[i].Away?
    ensures Inv(Step(s, CallStop(i)))
  {
    assert InCall(s.stoppers[i]) <==> i == s.holder;
    var s' := Step(s, CallStop(i));
    forall j | 0 <= j < |s'.stoppers| ensures InCall(s'.stoppers[j]) <==> j == s'.holder {
      assert InCall(s.stoppers[j]) <==> j == s.holder;
    }
  }

  lemma MainInv(s: State, a: Action)
    requires Inv(s) && (a.CallInit? || a.Succeed? || a.Fail? || a.CallRun? || a.CallFini?)
    ensures Inv(Step(s, a))
  {}

  lemma ProceedInv(s: State)
    requires Inv(s)
    ensures Inv(Step(s, Proceed))
  {}

  lemma EventInv(s: State, bytes: nat)
    requires Inv(s) && s.main.Running?
    ensures Inv(StepEvent(s, bytes))
  {
    assert StepEvent(s, bytes).stoppers == s.stoppers && StepEvent(s, bytes).holder == s.holder;
  }

  lemma StepInv(s: State, a: Action)
    requires Inv(s)
    ensures Inv(Step(s, a))
  {
    match a
    case StopStep(i) => if i < |s.stoppers| { StopperInv(s, i); }
    case CallStop(i) => if i < |s.stoppers| && s.stoppers[i].Away? { CallStopInv(s, i); }
    case EventStep(bytes) => if s.main.Running? { EventInv(s, bytes); }
    case Proceed => ProceedInv(s);
    case _ => MainInv(s, a);
  }

  lemma {:induction false} RunInv(s: State, acts: seq<Action>)
    requires Inv(s)
    ensures Inv(Run(s, acts))
    decreases |acts|
  {
    if acts != [] {
      StepInv(s, acts[0]);
      RunInv(Step(s, acts[0]), acts[1..]);
    }
  }

  /** In every interleaving of any number of stoppers with init, run and fini, repeated at will: a stop
      writes to the event pair only while that is open, at most one stopper is between taking and
      releasing WAIT, and SEND is set throughout a session and nowhere else but at the start of fini. */
  lemma Safety(n: nat, acts: seq<Action>)
    ensures var s := Run(Initial(n), acts);
      && !s.strayWrite && (InSession(s.main) ==> s.send) && (s.send ==> InSession(s.main) || s.main.Retrying?)
      && (forall i, j | 0 <= i < |s.stoppers| && 0 <= j < |s.stoppers| && InCall(s.stoppers[i]) && InCall(s.stoppers[j]) :: i == j)
      && (forall i | 0 <= i < |s.stoppers| && s.stoppers[i].Writing? :: s.open)
  {
    RunInv(Initial(n), acts);
    var s := Run(Initial(n), acts);
    forall i | 0 <= i < |s.stoppers| && s.stoppers[i].Writing? ensures s.open {
      assert InCall(s.stoppers[i]);
      assert HolderIs(s, Writing);
    }
  }

  // ----- no stop is dropped -----

  /** The run that is going on, or the next one, is bound to end: a byte waits for the event task, or the
      task has read one. */
  predicate Woken(s: State) {
    s.unread > 0 || (s.main.Running? && !s.event.Waiting?)
  }

  /** A stop that saw SEND leaves with a byte written for the event task, by itself or by the stop that
      set SENT, or fini has begun. */
  lemma StopWakes(s: State, i: nat)
    requires Inv(s) && i < |s.stoppers| && (s.stoppers[i].SawSend? || s.stoppers[i].Writing?)
    ensures var s' := StepStopper(s, i);
      s'.stoppers[i] == Leaving(true) ==> Woken(s') || s'.main.Retrying?
  {
    assert InCall(s.stoppers[i]);
  }

  /** What a stop sees when it takes WAIT: SEND during a session, no SEND before init is done or behind
      fini's loop. */
  predicate Sees(s: State, p: Stopper) {
    (InSession(s.main) ==> p.SawSend?) && (!InSession(s.main) && !s.main.Retrying? ==> p.SawClear?)
  }

  /** The steps by which a run or a session ends. */
  predicate Ends(s: State, a: Action) {
    || (a.EventStep? && s.main.Running? && s.event.Done?)
    || (a.Proceed? && (s.main.Closing? || (s.main.Testing? && s.stop)))
  }

  lemma WokenKept(s: State, a: Action)
    requires Inv(s) && Woken(s) && !Ends(s, a)
    ensures Woken(Step(s, a))
  {}

  /** How many steps of the event task are left when it has been woken. */
  function Remaining(s: State): nat {
    match s.event case Waiting => 4 case Read => 3 case Stopped => 2 case Done => 1
  }

  ghost predicate SomeEnd(s: State, acts: seq<Action>)
    decreases |acts|
  {
    acts != [] && (Ends(s, acts[0]) || SomeEnd(Step(s, acts[0]), acts[1..]))
  }

  /** The event task's steps among the actions; each reads a byte if there is one to read. */
  function EventSteps(acts: seq<Action>): nat {
    if acts == [] then 0 else (if acts[0] == EventStep(1) then 1 else 0) + EventSteps(acts[1..])
  }

  /** A stopper leaves the main thread and the event task where they are, and takes nothing back. */
  lemma StopperLeaves(s: State, i: nat)
    requires i < |s.stoppers|
    ensures var s' := StepStopper(s, i);
      s'.main == s.main && s'.event == s.event && s'.unread >= s.unread && (s.stop ==> s'.stop)
  {
    var p := s.stoppers[i];
    if p.Writing? {
    } else if p.Taking? || p.Leaving? {
    } else {
    }
  }

  lemma WokenProgress(s: State, a: Action)
    requires Inv(s) && Woken(s) && s.main.Running? && !Ends(s, a)
    ensures var s' := Step(s, a);
      s'.main.Running? && Woken(s') && Remaining(s') <= Remaining(s) && (a == EventStep(1) ==> Remaining(s') < Remaining(s))
  {
    match a
    case StopStep(i) => if i < |s.stoppers| { StopperLeaves(s, i); }
    case _ =>
  }

  /** Once a running session is woken nothing can keep it: whatever else happens, after four steps of
      its event task the run has ended, and run was 0 before SENT was cleared. */
  lemma {:induction false} WokenRunEnds(s: State, acts: seq<Action>)
    requires Inv(s) && Woken(s) && s.main.Running? && EventSteps(acts) >= Remaining(s)
    ensures SomeEnd(s, acts)
    decreases |acts|
  {
    var a := acts[0];
    if !Ends(s, a) {
      StepInv(s, a);
      WokenProgress(s, a);
      WokenRunEnds(Step(s, a), acts[1..]);
    }
  }

  /** A session woken before its run stays woken until that run ends or the pair is closed. */
  lemma {:induction false} WokenStays(s: State, acts: seq<Action>)
    requires Inv(s) && Woken(s) && !SomeEnd(s, acts)
    ensures Woken(Run(s, acts))
    decreases |acts|
  {
    if acts != [] {
      StepInv(s, acts[0]);
      WokenKept(s, acts[0]);
      WokenStays(Step(s, acts[0]), acts[1..]);
    }
  }

  /** A stop that saw SEND clear sets STOP. */
  lemma StopSets(s: State, i: nat)
    requires i < |s.stoppers| && s.stoppers[i].SawClear?
    ensures StepStopper(s, i).stop && StepStopper(s, i).stoppers[i] == Leaving(false)
  {}

  /** STOP is cleared only by a run that returns without having started its tasks. */
  lemma StopConsumed(s: State, a: Action)
    requires s.stop && !Step(s, a).stop
    ensures a.Proceed? && s.main.Testing? && Step(s, a) == s.(stop := false, main := Ready)
  {
    match a
    case StopStep(i) => if i < |s.stoppers| { StopperLeaves(s, i); }
    case _ =>
  }

  /** A run finds STOP set, and returns. */
  ghost predicate Consumes(s: State, acts: seq<Action>)
    decreases |acts|
  {
    acts != [] && ((acts[0].Proceed? && s.main.Testing? && s.stop) || Consumes(Step(s, acts[0]), acts[1..]))
  }

  /** STOP stays until a run finds it, and that run does not start. */
  lemma {:induction false} StopWaits(s: State, acts: seq<Action>)
    requires s.stop && !Consumes(s, acts)
    ensures Run(s, acts).stop
    ensures Run(s, acts).main.Testing? ==> Step(Run(s, acts), Proceed).main.Ready?
    decreases |acts|
  {
    if acts != [] {
      if !Step(s, acts[0]).stop { StopConsumed(s, acts[0]); }
      StopWaits(Step(s, acts[0]), acts[1..]);
    }
  }

  /** SENT is cleared by the event task only behind "run = 0". */
  lemma SentCleared(s: State, a: Action)
    requires Inv(s) && s.sent && !Step(s, a).sent
    ensures (a.EventStep? && s.main.Running? && s.event.Stopped? && !s.run) || (a.Proceed? && s.main.Retrying?)
  {}

  /** fini goes on only when no stopper is in its call with SEND seen, and none can come to see it. */
  lemma CloseIsAlone(s: State, a: Action, i: nat)
    requires Inv(s) && s.main.Closing? && i < |s.stoppers|
    ensures !s.stoppers[i].SawSend? && !s.stoppers[i].Writing? && !s.send
    ensures !Step(s, a).stoppers[i].SawSend?
  {
    assert InCall(s.stoppers[i]) <==> i == s.holder;
  }

  /** No stop is dropped. In every run, a stop taken during a session sees SEND. One that saw SEND leaves
      with fini begun or a byte written, and then the session is bound to end: it stays woken until that,
      and four steps of the event task are enough once its tasks run. A stop that saw SEND clear leaves
      with STOP set, and STOP stays until a run finds it, which then does not start. */
  lemma NoStopDropped(n: nat, acts: seq<Action>, i: nat, later: seq<Action>)
    requires i < |Run(Initial(n), acts).stoppers|
    ensures var s := Run(Initial(n), acts); s.stoppers[i].Taking? && !s.wait ==> Sees(s, StepStopper(s, i).stoppers[i])
    ensures var s := Run(Initial(n), acts); var s' := StepStopper(s, i);
      !s.stoppers[i].Leaving? && s'.stoppers[i].Leaving? ==>
        if s'.stoppers[i].sawSend then s'.main.Retrying? || BoundToEnd(s', later) else s'.stop && StopFound(s', later)
  {
    var s := Run(Initial(n), acts);
    var s' := StepStopper(s, i);
    RunInv(Initial(n), acts);
    StopperInv(s, i);
    if s.stoppers[i].SawSend? || s.stoppers[i].Writing? {
      StopWakes(s, i);
      if s'.stoppers[i].Leaving? && !s'.main.Retrying? {
        if !SomeEnd(s', later) { WokenStays(s', later); }
        if s'.main.Running? && EventSteps(later) >= 4 { WokenRunEnds(s', later); }
      }
    } else if s.stoppers[i].SawClear? {
      StopSets(s, i);
      if !Consumes(s', later) { StopWaits(s', later); }
    }
  }

  ghost predicate BoundToEnd(s: State, later: seq<Action>) {
    && (SomeEnd(s, later) || Woken(Run(s, later)))
    && (s.main.Running? && EventSteps(later) >= 4 ==> SomeEnd(s, later))
  }

  ghost predicate StopFound(s: State, later: seq<Action>) {
    !Consumes(s, later) ==> var t := Run(s, later); t.stop && (t.main.Testing? ==> Step(t, Proceed).main.Ready?)
  }

  // ----- what is not promised -----

  /** While STOP is set and not found, no run gets as far as its tasks. */
  lemma {:induction false} StopHolds(s: State, acts: seq<Action>)
    requires s.stop && !s.main.Queued? && !s.main.Running? && !Consumes(s, acts)
    ensures !Run(s, acts).main.Running?
    decreases |acts|
  {
    if acts != [] {
      HeldStep(s, acts[0]);
      StopHolds(Step(s, acts[0]), acts[1..]);
    }
  }

  lemma HeldStep(s: State, a: Action)
    requires s.stop && !s.main.Queued? && !s.main.Running? && !(a.Proceed? && s.main.Testing?)
    ensures var s' := Step(s, a); s'.stop && !s'.main.Queued? && !s'.main.Running?
  {
    if a.StopStep? && a.i < |s.stoppers| { StopperLeaves(s, a.i); }
  }

  /** A stop that saw SEND clear and sets STOP during a session keeps that session from running, unless
      and until a run uses STOP up, exactly if run has not yet looked at STOP. */
  lemma StopIsTimely(s: State, i: nat)
    requires Inv(s) && InSession(s.main) && i < |s.stoppers| && s.stoppers[i].SawClear?
    ensures var s' := StepStopper(s, i);
      (forall acts :: !Consumes(s', acts) ==> !Run(s', acts).main.Running?) <==> s.main.Ready? || s.main.Testing?
  {
    var s' := StepStopper(s, i);
    StopperLeaves(s, i);
    StopSets(s, i);
    if s.main.Ready? || s.main.Testing? {
      forall acts | !Consumes(s', acts) ensures !Run(s', acts).main.Running? { StopHolds(s', acts); }
    } else {
      var acts := RunsOn(s');
      assert !Consumes(s', acts) && Run(s', acts).main.Running?;
    }
  }

  lemma RunsOn(s: State) returns (acts: seq<Action>)
    requires s.main.Queued? || s.main.Running?
    ensures !Consumes(s, acts) && Run(s, acts).main.Running?
  {
    acts := if s.main.Running? then [] else [Proceed];
    assert [Proceed][1..] == [];
  }

  /** Without the stop nothing of the kind holds: with STOP clear a run that looks at it goes on. */
  lemma ClearRuns(s: State) returns (acts: seq<Action>)
    requires !s.stop && InSession(s.main)
    ensures !Consumes(s, acts) && Run(s, acts).main.Running?
  {
    if s.main.Ready? || s.main.Testing? {
      var before := if s.main.Ready? then [CallRun] else [];
      acts := before + [Proceed, Proceed];
      var t := s.(main := Testing);
      assert [Proceed, Proceed][1..] == [Proceed] && [Proceed][1..] == [];
      assert acts[|before|..] == [Proceed, Proceed];
      assert Run(t, [Proceed, Proceed]).main.Running? && !Consumes(t, [Proceed, Proceed]);
    } else {
      acts := RunsOn(s);
    }
  }

  /** A stop that takes WAIT before init has set SEND, and sets STOP after run has looked at it. */
  function LateStop(): seq<Action> {
    [CallStop(0), StopStep(0), CallInit, Succeed, Succeed, CallRun, Proceed, StopStep(0), StopStep(0), Proceed]
  }

  /** A stop need not end the session that is going on when it returns: after the late one the session
      runs, its event task waits, and only the following run will find STOP. */
  lemma LateStopIsLate()
    ensures Run(Initial(1), LateStop())
      == State(true, false, true, false, true, 0, true, false, Running, Waiting, [Away], -1)
    ensures !Woken(Run(Initial(1), LateStop()))
  {
    LateBegins();
    LateEnds();
  }

  /** The late stop holds WAIT, and run is about to look at STOP. */
  function LateState(): State {
    State(true, false, false, true, true, 0, false, false, Testing, Waiting, [SawClear], 0)
  }

  lemma LateBegins()
    ensures Run(Initial(1), LateStop()) == Run(LateState(), LateStop()[6..])
  {
    var acts := LateStop();
    var taken := State(false, false, false, true, false, 0, false, false, Idle, Waiting, [SawClear], 0);
    StopTaken();
    RunTwo(Initial(1), acts);
    RunTwo(taken, acts[2..]);
    RunTwo(taken.(main := Opened, open := true), acts[4..]);
  }

  lemma LateEnds()
    ensures Run(LateState(), LateStop()[6..])
      == State(true, false, true, false, true, 0, true, false, Running, Waiting, [Away], -1)
  {
    var acts := LateStop();
    RunTwo(LateState(), acts[6..]);
    StopLeft(LateState().(main := Queued));
    RunTwo(LateState().(main := Queued, stop := true, stoppers := [Leaving(false)]), acts[8..]);
    assert acts[10..] == [];
  }

  lemma StopTaken()
    ensures Step(Step(Initial(1), CallStop(0)), StopStep(0))
      == State(false, false, false, true, false, 0, false, false, Idle, Waiting, [SawClear], 0)
  {
    assert Initial(1).stoppers == [Away];
    assert [Away][0 := Taking] == [Taking] && [Taking][0 := SawClear] == [SawClear];
  }

  lemma StopLeft(s: State)
    requires s.stoppers == [SawClear]
    ensures Step(s, StopStep(0)) == s.(stop := true, stoppers := [Leaving(false)])
    ensures Step(s.(stop := true, stoppers := [Leaving(false)]), StopStep(0))
      == s.(stop := true, wait := false, holder := -1, stoppers := [Away])
  {
    assert [SawClear][0 := Leaving(false)] == [Leaving(false)] && [Leaving(false)][0 := Away] == [Away];
  }

  lemma RunTwo(s: State, acts: seq<Action>)
    requires |acts| >= 2
    ensures Run(s, acts) == Run(Step(Step(s, acts[0]), acts[1]), acts[2..])
  {
    assert acts[1..][1..] == acts[2..];
  }
}
