/** The debug engine's stop discipline: interpreter threads, the adapter's commands,
    and the one condition variable between them. */
module DebugEngine {
  import opened Options

  type Tid = nat

  datatype Verb = Continue | In | Over | Out
  datatype Cmd = Cmd(verb: Verb, depth: nat)
  datatype Mode = Running | Paused
  datatype Reason = Entry | Breakpoint | StepDone | PauseAsked | Exception

  datatype Frame = Frame(fn: string, file: Option<string>, line: nat, env: nat)

  datatype ThreadState = ThreadState(mode: Mode, cmd: Option<Cmd>, snap: seq<Frame>, reason: Option<Reason>,
                                     entryPending: bool, pauseReq: bool)

  const NEW_THREAD := ThreadState(Running, None, [], None, false, false)

  /** Where a blocked thread waits: at a statement, or parked dead after a panic. */
  datatype Wait = AtStatement | AfterPanic

  /** The engine's shared state, each thread's frame stack, and who is blocked on the
      condition variable; `finished` threads have left the program. */
  datatype Engine = Engine(
    noDebug: bool,
    breakpoints: map<string, set<nat>>,
    states: map<Tid, ThreadState>,
    frames: map<Tid, seq<Frame>>,
    waiting: map<Tid, Wait>,
    finished: set<Tid>
  )

  /** One atomic step: a hook of an interpreter thread, a return from the condition
      variable's wait, or a command of the adapter. */
  datatype Action =
    | Enter(tid: Tid, frame: Frame)
    | Leave(tid: Tid)
    | Statement(tid: Tid, line: nat, env: nat)
    | Wake(tid: Tid)
    | PanicStop(tid: Tid, at: seq<Frame>)
    | ContinueAll
    | StepThread(tid: Tid, verb: Verb)
    | PauseThread(tid: Tid)
    | StopOnEntry(tid: Tid)
    | SetBreakpoints(file: string, lines: set<nat>)

  datatype Event = Nothing | Executed(tid: Tid) | Stopped(tid: Tid, why: Reason) | Resumed(tid: Tid)

  function FramesOf(e: Engine, t: Tid): seq<Frame> {
    if t in e.frames then e.frames[t] else []
  }

  function StateOf(e: Engine, t: Tid): ThreadState {
    if t in e.states then e.states[t] else NEW_THREAD
  }

  predicate IsPaused(e: Engine, t: Tid) {
    t in e.states && e.states[t].mode == Paused
  }

  /** A thread blocked in a wait, or gone, runs none of its own code. */
  predicate Free(e: Engine, t: Tid) {
    t !in e.waiting && t !in e.finished
  }

  // ---------------------------------------------------------------------
  // The stop decision.
  // ---------------------------------------------------------------------

  /** Does a thread under command `cmd` stop at a statement of this depth? */
  predicate StepReached(cmd: Option<Cmd>, depth: nat) {
    cmd.Some? &&
    match cmd.value.verb
    case Continue => false
    case In => true
    case Over => depth <= cmd.value.depth
    case Out => depth < cmd.value.depth
  }

  function StopReason(noDebug: bool, atBreakpoint: bool, st: ThreadState, depth: nat): Option<Reason> {
    if st.entryPending then Some(Entry)
    else if noDebug then None
    else if atBreakpoint then Some(Breakpoint)
    else if StepReached(st.cmd, depth) then Some(StepDone)
    else if st.pauseReq then Some(PauseAsked)
    else None
  }

  function GoPaused(st: ThreadState, frames: seq<Frame>, why: Reason): ThreadState {
    ThreadState(Paused, None, frames, Some(why), st.entryPending && why != Entry, st.pauseReq && why != PauseAsked)
  }

  predicate AtBreakpoint(e: Engine, f: Frame, line: nat) {
    f.file.Some? && f.file.value in e.breakpoints && line in e.breakpoints[f.file.value]
  }

  function WithTop(frames: seq<Frame>, line: nat, env: nat): seq<Frame>
    requires frames != []
  {
    frames[|frames| - 1 := frames[|frames| - 1].(line := line, env := env)]
  }

  /** What `continue` does to a thread. */
  function Told(st: ThreadState): ThreadState {
    if st.mode == Paused then st.(cmd := Some(Cmd(Continue, 0))) else st
  }

  // ---------------------------------------------------------------------
  // The atomic steps.
  // ---------------------------------------------------------------------

  function Step(e: Engine, a: Action): (Engine, Event) {
    match a
    case Enter(t, frame) =>
      if !Free(e, t) then (e, Nothing)
      else (e.(frames := e.frames[t := FramesOf(e, t) + [frame]], states := e.states[t := StateOf(e, t)]), Nothing)
    case Leave(t) =>
      var fs := FramesOf(e, t);
      if !Free(e, t) || fs == [] then (e, Nothing) else (e.(frames := e.frames[t := fs[..|fs| - 1]]), Nothing)
    case Statement(t, line, env) => if Free(e, t) then StepStatement(e, t, line, env) else (e, Nothing)
    case Wake(t) => if t in e.waiting && t in e.states then StepWake(e, t) else (e, Nothing)
    case PanicStop(t, at) =>
      if !Free(e, t) then (e, Nothing)
      else
        var st := StateOf(e, t).(mode := Paused, cmd := None, snap := at, reason := Some(Exception));
        (e.(states := e.states[t := st], waiting := e.waiting[t := AfterPanic], finished := e.finished + {t}),
         Stopped(t, Exception))
    case ContinueAll =>
      (e.(states := map t | t in e.states :: Told(e.states[t])), Nothing)
    case StepThread(t, verb) =>
      var st := StateOf(e, t);
      var st' := if st.mode == Paused then st.(cmd := Some(Cmd(verb, |st.snap|))) else st;
      (e.(states := e.states[t := st']), Nothing)
    case PauseThread(t) => (e.(states := e.states[t := StateOf(e, t).(pauseReq := true)]), Nothing)
    case StopOnEntry(t) => (e.(states := e.states[t := StateOf(e, t).(entryPending := true)]), Nothing)
    case SetBreakpoints(file, lines) => (e.(breakpoints := e.breakpoints[file := lines]), Nothing)
  }

  function StepStatement(e: Engine, t: Tid, line: nat, env: nat): (Engine, Event) {
    if FramesOf(e, t) == [] then (e, Executed(t))
    else
      var fs := WithTop(FramesOf(e, t), line, env);
      var e1 := e.(frames := e.frames[t := fs]);
      if t !in e.states || e.states[t].mode != Running then (e1, Executed(t))
      else
        var why := StopReason(e.noDebug, AtBreakpoint(e, fs[|fs| - 1], line), e.states[t], |fs|);
        if why == None then (e1, Executed(t))
        else
          (e1.(states := e.states[t := GoPaused(e.states[t], fs, why.value)], waiting := e.waiting[t := AtStatement]),
           Stopped(t, why.value))
  }

  /** Returning from the wait: without a command the thread waits again; with one, a
      stopped thread goes on to execute its statement. */
  function StepWake(e: Engine, t: Tid): (Engine, Event)
    requires t in e.waiting && t in e.states
  {
    var st := e.states[t];
    if st.cmd == None then (e, Nothing)
    else if e.waiting[t] == AtStatement then
      (e.(states := e.states[t := st.(mode := Running)], waiting := e.waiting - {t}), Executed(t))
    else
      (e.(states := e.states[t := st.(mode := Running, cmd := None)], waiting := e.waiting - {t}), Resumed(t))
  }

  function Run(e: Engine, acts: seq<Action>): Engine {
    if acts == [] then e else Step(Run(e, acts[..|acts| - 1]), acts[|acts| - 1]).0
  }

  /** What happens at the `k`-th step of a run. */
  function EventAt(e: Engine, acts: seq<Action>, k: nat): Event
    requires k < |acts|
  {
    Step(Run(e, acts[..k]), acts[k]).1
  }

  // ---------------------------------------------------------------------
  // When a statement stops its thread.
  // ---------------------------------------------------------------------

  /** A breakpoint is set on this line of the file. */
  ghost predicate IsSet(breakpoints: map<string, set<nat>>, file: Option<string>, line: nat) {
    file.Some? && file.value in breakpoints && line in breakpoints[file.value]
  }

  /** The command asks for a stop at a statement of this depth. */
  ghost predicate Asks(cmd: Option<Cmd>, depth: nat) {
    cmd.Some? &&
    (cmd.value.verb == In || (cmd.value.verb == Over && depth <= cmd.value.depth)
     || (cmd.value.verb == Out && depth < cmd.value.depth))
  }

  /** The frames while the statement on this line is about to run. */
  ghost function Reached(frames: seq<Frame>, line: nat, env: nat): seq<Frame>
    requires frames != []
  {
    var top := frames[|frames| - 1];
    frames[..|frames| - 1] + [Frame(top.fn, top.file, line, env)]
  }

  /** Why a running thread stops at a statement: an entry stop first, even without debugging; then, with
      it, a breakpoint on the line, the thread's own step command, a pause asked for.  Otherwise it
      executes the statement.  A stop shows the frames, uses up its own request and no other, and
      concerns no other thread. */
  lemma StopsExactly(e: Engine, t: Tid, line: nat, env: nat)
    requires Free(e, t) && t in e.states && e.states[t].mode == Running && FramesOf(e, t) != []
    ensures var st, frames := e.states[t], FramesOf(e, t);
      var on, asked := IsSet(e.breakpoints, frames[|frames| - 1].file, line), Asks(st.cmd, |frames|);
      var (e', ev) := Step(e, Statement(t, line, env));
      var now := e.(frames := e.frames[t := Reached(frames, line, env)]);
      && (ev == Stopped(t, Entry) <==> st.entryPending)
      && (ev == Stopped(t, Breakpoint) <==> !st.entryPending && !e.noDebug && on)
      && (ev == Stopped(t, StepDone) <==> !st.entryPending && !e.noDebug && !on && asked)
      && (ev == Stopped(t, PauseAsked) <==> !st.entryPending && !e.noDebug && !on && !asked && st.pauseReq)
      && (ev == Executed(t) <==> !st.entryPending && (e.noDebug || (!on && !asked && !st.pauseReq)))
      && (ev == Executed(t) ==> e' == now)
      && (ev == Executed(t) || ev.Stopped?)
      && (ev.Stopped? ==>
            var stopped := ThreadState(Paused, None, Reached(frames, line, env), Some(ev.why), false,
                                       st.pauseReq && ev.why != PauseAsked);
            e' == now.(states := e.states[t := stopped], waiting := e.waiting[t := AtStatement]))
  {
    assert WithTop(FramesOf(e, t), line, env) == Reached(FramesOf(e, t), line, env);
  }

  /** A panic parks its thread for good, showing the frames of the panic's site. */
  lemma PanicParks(e: Engine, t: Tid, at: seq<Frame>)
    requires Free(e, t)
    ensures var (e', ev) := Step(e, PanicStop(t, at));
      && ev == Stopped(t, Exception) && IsPaused(e', t) && t in e'.finished
      && e'.states[t].snap == at && e'.states[t].reason == Some(Exception) && e'.states[t].cmd == None
      && e'.waiting == e.waiting[t := AfterPanic] && e'.frames == e.frames
      && (forall u :: u != t ==> StateOf(e', u) == StateOf(e, u))
  {
  }

  // ---------------------------------------------------------------------
  // The invariant.
  // ---------------------------------------------------------------------

  /** A thread waits exactly when it is paused, and one stopped at a statement is shown its own frames. */
  ghost predicate InvAt(e: Engine, t: Tid) {
    && (t in e.waiting <==> IsPaused(e, t))
    && (t in e.waiting && e.waiting[t] == AtStatement ==> e.states[t].snap == FramesOf(e, t))
  }

  ghost predicate Inv(e: Engine) {
    forall t :: InvAt(e, t)
  }

  lemma StepKeepsInvAt(e: Engine, a: Action, t: Tid)
    requires InvAt(e, t)
    ensures InvAt(Step(e, a).0, t)
  {
    hide StopReason, AtBreakpoint;
    if a.Statement? {
      StatementKeepsInvAt(e, a.tid, a.line, a.env, t);
    }
    hide StepStatement;
  }

  lemma StatementKeepsInvAt(e: Engine, u: Tid, line: nat, env: nat, t: Tid)
    requires InvAt(e, t)
    ensures Free(e, u) ==> InvAt(StepStatement(e, u, line, env).0, t)
  {
    hide StopReason, AtBreakpoint;
  }

  lemma StepKeepsInv(e: Engine, a: Action)
    requires Inv(e)
    ensures Inv(Step(e, a).0)
  {
    hide Step, InvAt;
    forall t
      ensures InvAt(Step(e, a).0, t)
    {
      StepKeepsInvAt(e, a, t);
    }
  }

  lemma InvHolds(e: Engine, t: Tid)
    requires Inv(e)
    ensures InvAt(e, t)
  {
  }

  function Start(noDebug: bool): Engine {
    Engine(noDebug, map[], map[], map[], map[], {})
  }

  lemma {:induction false} RunKeepsInv(noDebug: bool, acts: seq<Action>)
    ensures Inv(Run(Start(noDebug), acts))
  {
    hide Step, Inv;
    if acts == [] {
      StartIsInv(noDebug);
    } else {
      RunKeepsInv(noDebug, acts[..|acts| - 1]);
      StepKeepsInv(Run(Start(noDebug), acts[..|acts| - 1]), acts[|acts| - 1]);
    }
  }

  lemma StartIsInv(noDebug: bool)
    ensures Inv(Start(noDebug))
  {
  }

  // ---------------------------------------------------------------------
  // A paused thread.
  // ---------------------------------------------------------------------

  /** The step that ends a pause: the thread's own wake-up, with a command for it. */
  predicate Releases(e: Engine, a: Action, t: Tid) {
    a == Wake(t) && StateOf(e, t).cmd.Some?
  }

  predicate Commands(a: Action, t: Tid) {
    a == ContinueAll || (a.StepThread? && a.tid == t)
  }

  /** While a thread is paused it executes nothing; its frames and its snapshot stay as
      they are; its command changes only when a command is issued to it. */
  lemma PausedIsFrozen(e: Engine, a: Action, t: Tid)
    requires InvAt(e, t) && IsPaused(e, t) && !Releases(e, a, t)
    ensures var (e', ev) := Step(e, a);
            && IsPaused(e', t)
            && ev != Executed(t) && ev != Resumed(t)
            && FramesOf(e', t) == FramesOf(e, t) && e'.states[t].snap == e.states[t].snap
            && e'.states[t].reason == e.states[t].reason
            && (!Commands(a, t) ==> e'.states[t].cmd == e.states[t].cmd)
  {
    hide StopReason, AtBreakpoint;
  }

  lemma ReleaseEndsThePause(e: Engine, t: Tid)
    requires Inv(e) && t in e.waiting && StateOf(e, t).cmd.Some?
    ensures !IsPaused(Step(e, Wake(t)).0, t)
    ensures Step(e, Wake(t)).1 == if e.waiting[t] == AtStatement then Executed(t) else Resumed(t)
    ensures Step(e, Wake(t)).0.states[t].cmd == if e.waiting[t] == AtStatement then e.states[t].cmd else None
  {
    assert InvAt(e, t);
  }

  ghost predicate CommandedBetween(acts: seq<Action>, i: nat, j: nat, t: Tid) {
    exists k :: i < k < j && k < |acts| && Commands(acts[k], t)
  }

  /** The step at which thread `t` stops. */
  ghost predicate StopsAt(noDebug: bool, acts: seq<Action>, i: nat, t: Tid)
    requires i < |acts|
  {
    var ev := EventAt(Start(noDebug), acts, i);
    ev.Stopped? && ev.tid == t
  }

  ghost predicate RunsAt(noDebug: bool, acts: seq<Action>, k: nat, t: Tid)
    requires k < |acts|
  {
    EventAt(Start(noDebug), acts, k) == Executed(t) || EventAt(Start(noDebug), acts, k) == Resumed(t)
  }

  /** Thread `t` is paused without a command, as it was when it stopped. */
  ghost predicate StillPaused(stop: Engine, now: Engine, t: Tid) {
    && IsPaused(now, t) && IsPaused(stop, t) && now.states[t].cmd == None
    && FramesOf(now, t) == FramesOf(stop, t) && now.states[t].snap == stop.states[t].snap
  }

  lemma RunSplits(e: Engine, acts: seq<Action>, k: nat)
    requires k < |acts|
    ensures Run(e, acts[..k + 1]) == Step(Run(e, acts[..k]), acts[k]).0
  {
    assert acts[..k + 1][..k] == acts[..k];
  }

  /** The pause that begins at step `i` is still on after step `j - 1`, frames and snapshot
      unchanged and nothing executed, as long as no command was issued to the thread. */
  lemma {:induction false} PauseLasts(noDebug: bool, acts: seq<Action>, i: nat, j: nat, t: Tid)
    requires i < j <= |acts| && StopsAt(noDebug, acts, i, t) && !CommandedBetween(acts, i, j, t)
    ensures StillPaused(Run(Start(noDebug), acts[..i + 1]), Run(Start(noDebug), acts[..j]), t)
    ensures forall k :: i < k < j ==> !RunsAt(noDebug, acts, k, t)
    decreases j
  {
    hide Step, Run, Start, Inv, StillPaused, Commands, InvAt;
    var e0 := Start(noDebug);
    var before := Run(e0, acts[..j - 1]);
    RunKeepsInv(noDebug, acts[..j - 1]);
    RunSplits(e0, acts, j - 1);
    if i + 1 < j {
      assert !CommandedBetween(acts, i, j - 1, t);
      PauseLasts(noDebug, acts, i, j - 1, t);
      assert !Commands(acts[j - 1], t);
      StillPausedStep(Run(e0, acts[..i + 1]), before, acts[j - 1], t);
    } else {
      StopPauses(before, acts[i], t);
    }
  }

  lemma StillPausedStep(stop: Engine, now: Engine, a: Action, t: Tid)
    requires Inv(now) && StillPaused(stop, now, t) && !Commands(a, t)
    ensures StillPaused(stop, Step(now, a).0, t)
    ensures Step(now, a).1 != Executed(t) && Step(now, a).1 != Resumed(t)
  {
    InvHolds(now, t);
    PausedIsFrozen(now, a, t);
    hide Step, Inv, InvAt;
  }

  lemma StopPauses(e: Engine, a: Action, t: Tid)
    requires Inv(e) && Step(e, a).1.Stopped? && Step(e, a).1.tid == t
    ensures StillPaused(Step(e, a).0, Step(e, a).0, t)
  {
  }

  /** A thread that stopped and later runs again was commanded in between: by a `continue`,
      or by a step issued to that very thread. */
  lemma LeavesOnlyOnItsCommand(noDebug: bool, acts: seq<Action>, i: nat, j: nat, t: Tid)
    requires i < j < |acts| && StopsAt(noDebug, acts, i, t) && RunsAt(noDebug, acts, j, t)
    ensures CommandedBetween(acts, i, j, t)
  {
    hide Step, Run, Start;
    if !CommandedBetween(acts, i, j, t) {
      PauseLasts(noDebug, acts, i, j, t);
      RunKeepsInv(noDebug, acts[..j]);
      InvHolds(Run(Start(noDebug), acts[..j]), t);
      PausedIsFrozen(Run(Start(noDebug), acts[..j]), acts[j], t);
    }
  }

  /** A step leaves every other thread's state untouched: the others wake up to no command
      and wait again, although the notification reaches them all. */
  lemma StepReleasesNoOther(e: Engine, t: Tid, verb: Verb, u: Tid)
    requires Inv(e) && u != t && IsPaused(e, u) && e.states[u].cmd == None
    ensures var e' := Step(e, StepThread(t, verb)).0;
            Step(e', Wake(u)) == (e', Nothing) && IsPaused(e', u)
  {
  }

  /** After `continue` every paused thread has a command, and its next wake-up ends its pause. */
  lemma ContinueReachesAll(e: Engine, t: Tid)
    requires Inv(e) && IsPaused(e, t)
    ensures var e' := Step(e, ContinueAll).0;
            && e'.states[t].cmd == Some(Cmd(Continue, 0))
            && !IsPaused(Step(e', Wake(t)).0, t)
  {
    StepKeepsInv(e, ContinueAll);
    assert InvAt(Step(e, ContinueAll).0, t);
  }

  // ---------------------------------------------------------------------
  // The engine as the interpreter and the adapter see it.
  // ---------------------------------------------------------------------

  lemma ContinueTellsAll(e: Engine)
    ensures Step(e, ContinueAll).0 == e.(states := map t | t in e.states :: Told(e.states[t]))
  {
  }

  class Debugger {
    const noDebug: bool
    var breakpoints: map<string, set<nat>>
    var states: map<Tid, ThreadState>
    var frames: map<Tid, seq<Frame>>
    var waiting: map<Tid, Wait>
    var finished: set<Tid>

    function Value(): Engine
      reads this
    {
      Engine(noDebug, breakpoints, states, frames, waiting, finished)
    }

    constructor (noDebug: bool)
      ensures Value() == Start(noDebug)
    {
      this.noDebug := noDebug;
      breakpoints, states, frames, waiting, finished := map[], map[], map[], map[], {};
    }

    method HookEnter(t: Tid, frame: Frame)
      requires Free(Value(), t)
      modifies this
      ensures Value() == Step(old(Value()), Enter(t, frame)).0
    {
      if t !in frames {
        frames := frames[t := []];
      }
      frames := frames[t := frames[t] + [frame]];
      if t !in states {
        states := states[t := NEW_THREAD];
      }
    }

    method HookLeave(t: Tid)
      requires Free(Value(), t)
      modifies this
      ensures Value() == Step(old(Value()), Leave(t)).0
    {
      if t in frames && frames[t] != [] {
        frames := frames[t := frames[t][..|frames[t]| - 1]];
      }
    }

    /** The one checkpoint every statement passes before it runs. */
    method HookStatement(t: Tid, line: nat, env: nat) returns (ev: Event)
      requires Free(Value(), t)
      modifies this
      ensures (Value(), ev) == Step(old(Value()), Statement(t, line, env))
    {
      if t !in frames || frames[t] == [] {
        return Executed(t);
      }
      var top := |frames[t]| - 1;
      frames := frames[t := frames[t][top := frames[t][top].(line := line, env := env)]];
      if t !in states || states[t].mode != Running {
        return Executed(t);
      }
      var st := states[t];
      var reason: Option<Reason> := None;
      if st.entryPending {
        st := st.(entryPending := false);
        reason := Some(Entry);
      } else if !noDebug {
        var file := frames[t][top].file;
        if file.Some? && file.value in breakpoints && line in breakpoints[file.value] {
          reason := Some(Breakpoint);
        }
      }
      if reason == None && !noDebug {
        if StepReached(st.cmd, |frames[t]|) {
          reason := Some(StepDone);
        } else if st.pauseReq {
          st := st.(pauseReq := false);
          reason := Some(PauseAsked);
        }
      }
      if reason == None {
        return Executed(t);
      }
      states := states[t := st.(mode := Paused, cmd := None, snap := frames[t], reason := reason)];
      waiting := waiting[t := AtStatement];
      return Stopped(t, reason.value);
    }

    /** A return from the condition variable's wait, whether or not it was meant for this thread. */
    method Woken(t: Tid) returns (ev: Event)
      requires t in waiting && t in states
      modifies this
      ensures (Value(), ev) == Step(old(Value()), Wake(t))
    {
      if states[t].cmd == None {
        return Nothing;
      }
      if waiting[t] == AtStatement {
        states := states[t := states[t].(mode := Running)];
        ev := Executed(t);
      } else {
        states := states[t := states[t].(mode := Running, cmd := None)];
        ev := Resumed(t);
      }
      waiting := waiting - {t};
    }

    /** `continue` addresses every paused thread; the result says whether there was one. */
    method ResumeContinue() returns (resumed: bool)
      modifies this
      ensures Value() == Step(old(Value()), ContinueAll).0
      ensures resumed <==> exists t :: t in old(states) && old(states)[t].mode == Paused
    {
      hide Told, Step;
      ContinueTellsAll(Value());
      ghost var before := states;
      resumed := false;
      var todo := states.Keys;
      while todo != {}
        invariant todo <= before.Keys && states.Keys == before.Keys
        invariant forall t :: t in before ==> states[t] == if t in todo then before[t] else Told(before[t])
        invariant resumed <==> exists t :: t in before && t !in todo && before[t].mode == Paused
        invariant unchanged(`frames) && unchanged(`waiting) && unchanged(`breakpoints) && unchanged(`finished)
      {
        var t :| t in todo;
        if states[t].mode == Paused {
          resumed := true;
        }
        states := states[t := Told(states[t])];
        todo := todo - {t};
      }
      assert states == map t | t in before :: Told(before[t]);
    }

    method ResumeStep(t: Tid, verb: Verb) returns (ok: bool)
      modifies this
      ensures Value() == Step(old(Value()), StepThread(t, verb)).0
      ensures ok <==> IsPaused(old(Value()), t)
    {
      if t !in states {
        states := states[t := NEW_THREAD];
      }
      if states[t].mode != Paused {
        return false;
      }
      states := states[t := states[t].(cmd := Some(Cmd(verb, |states[t].snap|)))];
      return true;
    }

    method RequestPause(t: Tid) returns (running: bool)
      modifies this
      ensures Value() == Step(old(Value()), PauseThread(t)).0
      ensures running <==> !IsPaused(old(Value()), t)
    {
      if t !in states {
        states := states[t := NEW_THREAD];
      }
      states := states[t := states[t].(pauseReq := true)];
      return states[t].mode == Running;
    }
  }
}
