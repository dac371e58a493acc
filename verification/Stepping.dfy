/** Stepping on well-bracketed call trees: where `next`, `stepIn` and `stepOut` stop. */
module Stepping {
  import opened Options
  import opened DebugEngine

  /** What one thread executes: a statement, with whatever runs on its behalf (nested
      statements, calls), or a call of a function. */
  datatype Node = Stmt(line: nat, env: nat, inner: seq<Node>) | Call(fn: string, body: seq<Node>)

  /** What the hooks see. */
  datatype Ev = At(line: nat, env: nat) | Into(fn: string) | Back

  function Flat(ns: seq<Node>): seq<Ev>
    decreases ns, 0
  {
    if ns == [] then [] else FlatOne(ns[0]) + Flat(ns[1..])
  }

  function FlatOne(n: Node): seq<Ev>
    decreases n, 1
  {
    match n
    case Stmt(line, env, inner) => [At(line, env)] + Flat(inner)
    case Call(fn, body) => [Into(fn)] + Flat(body) + [Back]
  }

  // ---------------------------------------------------------------------
  // The call stack, read off the tree.
  // ---------------------------------------------------------------------

  /** The calls open, outermost first, just before the `j`-th event of these nodes. */
  function Enclosing(ns: seq<Node>, j: nat): seq<string>
    requires j <= |Flat(ns)|
    decreases ns, 0
  {
    if ns == [] then []
    else
      var k := |FlatOne(ns[0])|;
      if j < k then EnclosingOne(ns[0], j) else Enclosing(ns[1..], j - k)
  }

  function EnclosingOne(n: Node, j: nat): seq<string>
    requires j < |FlatOne(n)|
    decreases n, 1
  {
    if j == 0 then []
    else match n
      case Stmt(_, _, inner) => Enclosing(inner, j - 1)
      case Call(fn, body) => [fn] + Enclosing(body, j - 1)
  }

  /** The stack the hooks' pushes and pops leave behind. */
  function NamesAfter(stack: seq<string>, evs: seq<Ev>): seq<string> {
    if evs == [] then stack else Hooked(NamesAfter(stack, evs[..|evs| - 1]), evs[|evs| - 1])
  }

  function Hooked(stack: seq<string>, ev: Ev): seq<string> {
    match ev
    case At(_, _) => stack
    case Into(fn) => stack + [fn]
    case Back => if stack == [] then stack else stack[..|stack| - 1]
  }

  lemma {:induction false} NamesAfterConcat(stack: seq<string>, xs: seq<Ev>, ys: seq<Ev>)
    ensures NamesAfter(stack, xs + ys) == NamesAfter(NamesAfter(stack, xs), ys)
  {
    if ys == [] {
      assert xs + ys == xs;
    } else {
      NamesAfterConcat(stack, xs, ys[..|ys| - 1]);
      assert (xs + ys)[..|xs + ys| - 1] == xs + ys[..|ys| - 1];
    }
  }

  lemma NamesAfterOne(stack: seq<string>, ev: Ev)
    ensures NamesAfter(stack, [ev]) == Hooked(stack, ev)
  {
    assert [ev][..0] == [];
  }

  /** The hook stack mirrors the call stack at every event of a well-bracketed run. */
  lemma {:induction false} StackMirrorsCalls(stack: seq<string>, ns: seq<Node>, j: nat)
    requires j <= |Flat(ns)|
    ensures NamesAfter(stack, Flat(ns)[..j]) == stack + Enclosing(ns, j)
    decreases ns, 0
  {
    if ns == [] {
      assert Flat(ns)[..j] == [];
    } else {
      var first, rest := FlatOne(ns[0]), Flat(ns[1..]);
      if j < |first| {
        assert Flat(ns)[..j] == first[..j];
        StackMirrorsCall(stack, ns[0], j);
      } else {
        assert Flat(ns)[..j] == first + rest[..j - |first|];
        NamesAfterConcat(stack, first, rest[..j - |first|]);
        CallRestoresStack(stack, ns[0]);
        StackMirrorsCalls(stack, ns[1..], j - |first|);
      }
    }
  }

  function Parts(n: Node): seq<Node> {
    if n.Stmt? then n.inner else n.body
  }

  lemma FlatOnePrefix(n: Node, j: nat)
    requires 0 < j < |FlatOne(n)|
    ensures j - 1 <= |Flat(Parts(n))| && FlatOne(n)[..j] == [FlatOne(n)[0]] + Flat(Parts(n))[..j - 1]
    ensures EnclosingOne(n, j) == (if n.Call? then [n.fn] else []) + Enclosing(Parts(n), j - 1)
  {
  }

  lemma {:induction false} StackMirrorsCall(stack: seq<string>, n: Node, j: nat)
    requires j < |FlatOne(n)|
    ensures NamesAfter(stack, FlatOne(n)[..j]) == stack + EnclosingOne(n, j)
    decreases n, 1
  {
    if j == 0 {
      assert FlatOne(n)[..0] == [];
    } else {
      var head, inner := [FlatOne(n)[0]], Parts(n);
      FlatOnePrefix(n, j);
      NamesAfterConcat(stack, head, Flat(inner)[..j - 1]);
      NamesAfterOne(stack, head[0]);
      StackMirrorsCalls(NamesAfter(stack, head), inner, j - 1);
    }
  }

  lemma {:induction false} CallRestoresStack(stack: seq<string>, n: Node)
    ensures NamesAfter(stack, FlatOne(n)) == stack
    decreases n, 2
  {
    var inner := Parts(n);
    var head := [FlatOne(n)[0]];
    var deeper := NamesAfter(stack, head);
    NamesAfterOne(stack, head[0]);
    assert Flat(inner)[..|Flat(inner)|] == Flat(inner);
    StackMirrorsCalls(deeper, inner, |Flat(inner)|);
    NothingOpenAtTheEnd(inner);
    NamesAfterConcat(stack, head, Flat(inner));
    if n.Call? {
      NamesAfterConcat(stack, head + Flat(inner), [Back]);
      NamesAfterOne(deeper, Back);
    }
  }

  lemma {:induction false} NothingOpenAtTheEnd(ns: seq<Node>)
    ensures Enclosing(ns, |Flat(ns)|) == []
    decreases ns
  {
    if ns != [] {
      NothingOpenAtTheEnd(ns[1..]);
    }
  }

  // ---------------------------------------------------------------------
  // The engine on one thread's events.
  // ---------------------------------------------------------------------

  function Names(fs: seq<Frame>): seq<string> {
    seq(|fs|, i requires 0 <= i < |fs| => fs[i].fn)
  }

  /** The hook a program event reaches; `files` tells where a function was defined. */
  function Hook(files: string -> Option<string>, t: Tid, ev: Ev): Action {
    match ev
    case At(line, env) => Statement(t, line, env)
    case Into(fn) => Enter(t, Frame(fn, files(fn), 0, 0))
    case Back => Leave(t)
  }

  /** What can stop a running thread: its command, the breakpoints, an entry stop or pause pending. */
  datatype Course = Course(cmd: Option<Cmd>, breakpoints: map<string, set<nat>>, pending: bool)

  ghost predicate FilesMatch(files: string -> Option<string>, fs: seq<Frame>) {
    forall i :: 0 <= i < |fs| ==> fs[i].file == files(fs[i].fn)
  }

  /** Thread `t` runs on this course, in frames of the files that `files` tells. */
  ghost predicate OnCourse(files: string -> Option<string>, e: Engine, t: Tid, c: Course) {
    && Free(e, t) && t in e.states && !e.noDebug && e.breakpoints == c.breakpoints
    && FilesMatch(files, FramesOf(e, t))
    && var st := e.states[t];
       st.mode == Running && st.cmd == c.cmd && c.pending == (st.entryPending || st.pauseReq)
  }

  /** Where the engine stops the thread, from event `i` on; the number of events if nowhere. */
  function StopIndex(files: string -> Option<string>, e: Engine, t: Tid, evs: seq<Ev>, i: nat): nat
    requires i <= |evs|
    decreases |evs| - i
  {
    if i == |evs| then i
    else
      var (e', out) := Step(e, Hook(files, t, evs[i]));
      if out.Stopped? then i else StopIndex(files, e', t, evs, i + 1)
  }

  /** The event is a statement at which a thread on this course, in these calls, is to stop. */
  ghost predicate Wanted(files: string -> Option<string>, c: Course, ev: Ev, stack: seq<string>) {
    && ev.At? && stack != []
    && (c.pending || IsSet(c.breakpoints, files(stack[|stack| - 1]), ev.line) || Asks(c.cmd, |stack|))
  }

  lemma NamesIgnoreLines(fs: seq<Frame>, line: nat, env: nat)
    requires fs != []
    ensures Names(WithTop(fs, line, env)) == Names(fs)
  {
  }

  /** Whatever the engine's state, the hooks push and pop exactly as the program calls and returns. */
  lemma HookMirrors(files: string -> Option<string>, e: Engine, t: Tid, ev: Ev)
    requires Free(e, t)
    ensures Names(FramesOf(Step(e, Hook(files, t, ev)).0, t)) == Hooked(Names(FramesOf(e, t)), ev)
  {
    var fs, fs' := FramesOf(e, t), FramesOf(Step(e, Hook(files, t, ev)).0, t);
    match ev
    case At(line, env) =>
      if fs != [] {
        NamesIgnoreLines(fs, line, env);
      }
    case Into(fn) =>
      assert Names(fs') == Names(fs) + [fn];
    case Back =>
      if fs != [] {
        assert Names(fs') == Names(fs)[..|fs| - 1];
      }
  }

  /** One event: the engine stops exactly at a wanted statement, showing the call stack; otherwise it
      executes it and goes on with the frame stack that the calls call for. */
  lemma CourseStep(files: string -> Option<string>, e: Engine, t: Tid, c: Course, ev: Ev)
    requires OnCourse(files, e, t, c)
    ensures var stack := Names(FramesOf(e, t));
            var (e', out) := Step(e, Hook(files, t, ev));
            && (out.Stopped? <==> Wanted(files, c, ev, stack))
            && (out.Stopped? ==> IsPaused(e', t) && Names(e'.states[t].snap) == stack)
            && (!out.Stopped? && ev.At? ==> out == Executed(t))
            && (!out.Stopped? ==> OnCourse(files, e', t, c) && Names(FramesOf(e', t)) == Hooked(stack, ev))
  {
    HookMirrors(files, e, t, ev);
    assert |Names(FramesOf(e, t))| == |FramesOf(e, t)|;
    if ev.At? && FramesOf(e, t) != [] {
      var fs := FramesOf(e, t);
      assert Names(fs)[|fs| - 1] == fs[|fs| - 1].fn;
      hide Names;
      StopsExactly(e, t, ev.line, ev.env);
      ReachedMatches(files, fs, ev.line, ev.env);
      hide Step, FilesMatch, Reached;
    } else {
      hide Names;
    }
  }

  lemma ReachedMatches(files: string -> Option<string>, fs: seq<Frame>, line: nat, env: nat)
    requires fs != [] && FilesMatch(files, fs)
    ensures FilesMatch(files, Reached(fs, line, env)) && Names(Reached(fs, line, env)) == Names(fs)
  {
  }

  /** A thread first seen at a call runs without a command, and nothing is pending. */
  lemma FirstCall(files: string -> Option<string>, e: Engine, t: Tid, fn: string)
    requires Free(e, t) && t !in e.states && t !in e.frames && !e.noDebug
    ensures var e' := Step(e, Hook(files, t, Into(fn))).0;
      OnCourse(files, e', t, Course(None, e.breakpoints, false)) && Names(FramesOf(e', t)) == [fn]
  {
  }

  /** The engine stops at the first wanted statement. */
  lemma {:induction false} StopsAtFirstWanted(files: string -> Option<string>, e: Engine, t: Tid, c: Course,
                                              evs: seq<Ev>, i: nat)
    requires i <= |evs| && OnCourse(files, e, t, c) && Names(FramesOf(e, t)) == NamesAfter([], evs[..i])
    ensures var k := StopIndex(files, e, t, evs, i);
            && i <= k <= |evs|
            && (k < |evs| ==> Wanted(files, c, evs[k], NamesAfter([], evs[..k])))
            && forall j :: i <= j < k ==> !Wanted(files, c, evs[j], NamesAfter([], evs[..j]))
    decreases |evs| - i
  {
    hide OnCourse, Step, Wanted, Hook, Names, FramesOf;
    if i < |evs| {
      CourseStep(files, e, t, c, evs[i]);
      var (e', out) := Step(e, Hook(files, t, evs[i]));
      if !out.Stopped? {
        assert evs[..i + 1][..i] == evs[..i];
        StopsAtFirstWanted(files, e', t, c, evs, i + 1);
      }
    }
  }

  /** The thread is stopped at a statement of a program that still runs, in frames of the files that
      `files` tells. */
  ghost predicate StoppedInside(files: string -> Option<string>, e: Engine, t: Tid) {
    && InvAt(e, t) && t in e.waiting && e.waiting[t] == AtStatement && t !in e.finished
    && !e.noDebug && FilesMatch(files, FramesOf(e, t))
  }

  /** The thread after a command and its wake-up: `continue` is told to all threads, a step to one. */
  function Go(e: Engine, t: Tid, verb: Verb): Engine {
    Step(Step(e, if verb == Continue then ContinueAll else StepThread(t, verb)).0, Wake(t)).0
  }

  ghost function CourseAfter(e: Engine, t: Tid, verb: Verb): Course {
    Course(Some(Cmd(verb, if verb == Continue then 0 else |FramesOf(e, t)|)), e.breakpoints,
           StateOf(e, t).entryPending || StateOf(e, t).pauseReq)
  }

  /** A command releases a stopped thread; a step has the depth it stopped at. */
  lemma CommandReleases(files: string -> Option<string>, e: Engine, t: Tid, verb: Verb)
    requires StoppedInside(files, e, t)
    ensures OnCourse(files, Go(e, t, verb), t, CourseAfter(e, t, verb))
    ensures FramesOf(Go(e, t, verb), t) == FramesOf(e, t)
  {
    hide FilesMatch;
  }

  // ---------------------------------------------------------------------
  // Stepping through a call tree.
  // ---------------------------------------------------------------------

  /** How deep the `j`-th event of a run of `root` lies: the number of open calls. */
  function DepthAt(root: Node, j: nat): nat
    requires j < |FlatOne(root)|
  {
    |EnclosingOne(root, j)|
  }

  /** Statement `j` is one where `verb`, issued at statement `i`, may stop. */
  predicate Eligible(root: Node, verb: Verb, i: nat, j: nat)
    requires i < |FlatOne(root)| && j < |FlatOne(root)|
  {
    FlatOne(root)[j].At? &&
    match verb
    case In => true
    case Over => DepthAt(root, j) <= DepthAt(root, i)
    case Out => DepthAt(root, j) < DepthAt(root, i)
    case Continue => false
  }

  /** Statement `j` stops the thread, whatever it was told: a stop is pending, or its line has a
      breakpoint in the file of the function it is in. */
  ghost predicate Interrupts(files: string -> Option<string>, e: Engine, t: Tid, root: Node, j: nat)
    requires j < |FlatOne(root)|
  {
    var calls := EnclosingOne(root, j);
    && FlatOne(root)[j].At? && calls != []
    && (StateOf(e, t).entryPending || StateOf(e, t).pauseReq
        || IsSet(e.breakpoints, files(calls[|calls| - 1]), FlatOne(root)[j].line))
  }

  /** The thread is to stop at statement `j`, going on from statement `i` as told. */
  ghost predicate StopsHere(files: string -> Option<string>, e: Engine, t: Tid, root: Node, verb: Verb, i: nat, j: nat)
    requires i < |FlatOne(root)| && j < |FlatOne(root)|
  {
    Eligible(root, verb, i, j) || Interrupts(files, e, t, root, j)
  }

  lemma DepthIsStack(files: string -> Option<string>, e: Engine, t: Tid, root: Node, i: nat)
    requires i < |FlatOne(root)| && Names(FramesOf(e, t)) == EnclosingOne(root, i)
    ensures |FramesOf(e, t)| == DepthAt(root, i)
  {
    assert |Names(FramesOf(e, t))| == |FramesOf(e, t)|;
  }

  lemma WantedIsStop(files: string -> Option<string>, e: Engine, t: Tid, root: Node, verb: Verb, i: nat, j: nat)
    requires root.Call? && i < |FlatOne(root)| && 0 < j < |FlatOne(root)|
    requires |FramesOf(e, t)| == DepthAt(root, i)
    ensures Wanted(files, CourseAfter(e, t, verb), FlatOne(root)[j], NamesAfter([], FlatOne(root)[..j])) <==>
              StopsHere(files, e, t, root, verb, i, j)
  {
    StackMirrorsCall([], root, j);
    assert [] + EnclosingOne(root, j) == EnclosingOne(root, j);
    FlatOnePrefix(root, j);
    hide NamesAfter, Flat, FlatOne, EnclosingOne, Enclosing;
  }

  /** On every call tree, with any breakpoints: `stepIn` stops at the very next statement, `next` at the
      first later one no deeper, `stepOut` at the first later one less deep, `continue` at none of
      these; and all of them at the first one before that on a breakpoint, or at the very next one if a
      stop is pending.  With none left the program runs to its end. */
  lemma StepStopsWhereItShould(files: string -> Option<string>, e: Engine, t: Tid, verb: Verb, root: Node, i: nat)
    requires root.Call? && i < |FlatOne(root)| && FlatOne(root)[i].At?
    requires StoppedInside(files, e, t)
    requires Names(FramesOf(e, t)) == EnclosingOne(root, i)
    ensures var evs := FlatOne(root);
            var k := StopIndex(files, Go(e, t, verb), t, evs, i + 1);
            && i < k <= |evs|
            && (k < |evs| ==> StopsHere(files, e, t, root, verb, i, k))
            && forall j :: i < j < k ==> !StopsHere(files, e, t, root, verb, i, j)
  {
    var e', evs := Go(e, t, verb), FlatOne(root);
    CommandReleases(files, e, t, verb);
    StackMirrorsCall([], root, i);
    assert [] + EnclosingOne(root, i) == EnclosingOne(root, i);
    assert evs[..i + 1][..i] == evs[..i];
    DepthIsStack(files, e, t, root, i);
    hide Step, Go, OnCourse, StoppedInside, Names, FramesOf, CourseAfter, StopsHere, Wanted;
    StopsAtFirstWanted(files, e', t, CourseAfter(e, t, verb), evs, i + 1);
    hide StopIndex;
    forall j | i < j < |evs|
      ensures Wanted(files, CourseAfter(e, t, verb), evs[j], NamesAfter([], evs[..j])) <==>
                StopsHere(files, e, t, root, verb, i, j)
    {
      WantedIsStop(files, e, t, root, verb, i, j);
    }
  }

  // ---------------------------------------------------------------------
  // Other threads, in any interleaving.
  // ---------------------------------------------------------------------

  /** A turn of the stepped thread, or any action in between. */
  datatype Turn = Own | Other(action: Action)

  /** The action leaves a running thread `t` to itself: it is another thread's, or a command to
      another thread; a `continue` concerns paused threads only. */
  predicate LeavesAlone(a: Action, t: Tid) {
    match a
    case ContinueAll => true
    case SetBreakpoints(_, _) => false
    case Enter(u, _) => u != t
    case Leave(u) => u != t
    case Statement(u, _, _) => u != t
    case Wake(u) => u != t
    case PanicStop(u, _) => u != t
    case StepThread(u, _) => u != t
    case PauseThread(u) => u != t
    case StopOnEntry(u) => u != t
  }

  ghost predicate AllLeaveAlone(turns: seq<Turn>, t: Tid) {
    forall i :: 0 <= i < |turns| && turns[i].Other? ==> LeavesAlone(turns[i].action, t)
  }

  /** The two states look the same to a running thread `t`. */
  ghost predicate SameView(e: Engine, e': Engine, t: Tid) {
    && e.noDebug == e'.noDebug && e.breakpoints == e'.breakpoints
    && Free(e, t) && Free(e', t) && FramesOf(e, t) == FramesOf(e', t)
    && (t in e.states <==> t in e'.states) && StateOf(e, t) == StateOf(e', t) && StateOf(e, t).mode == Running
  }

  lemma OthersLeaveTheView(e: Engine, a: Action, t: Tid)
    requires SameView(e, e, t) && LeavesAlone(a, t)
    ensures SameView(Step(e, a).0, e, t)
  {
    hide StopReason, AtBreakpoint, WithTop;
  }

  /** A hook depends on the thread's own view only. */
  lemma SameHook(files: string -> Option<string>, e: Engine, e': Engine, t: Tid, ev: Ev)
    requires SameView(e, e', t)
    ensures var (f, out), (f', out') := Step(e, Hook(files, t, ev)), Step(e', Hook(files, t, ev));
      out == out' && (!out.Stopped? ==> SameView(f, f', t))
  {
    hide StopReason;
  }

  lemma SameViewChain(e: Engine, f: Engine, g: Engine, t: Tid)
    requires SameView(e, f, t) && SameView(f, g, t)
    ensures SameView(e, g, t) && SameView(e, e, t)
  {
  }

  /** Where the engine stops the thread when its events come in between others' actions: after as
      many events as it has turns, if nowhere. */
  function StopAmong(files: string -> Option<string>, e: Engine, t: Tid, evs: seq<Ev>, i: nat, turns: seq<Turn>): nat
    requires i <= |evs|
    decreases |turns|
  {
    if turns == [] || i == |evs| then i
    else
      match turns[0]
      case Other(a) => StopAmong(files, Step(e, a).0, t, evs, i, turns[1..])
      case Own =>
        var (e', out) := Step(e, Hook(files, t, evs[i]));
        if out.Stopped? then i else StopAmong(files, e', t, evs, i + 1, turns[1..])
  }

  function OwnTurns(turns: seq<Turn>): nat {
    if turns == [] then 0 else (if turns[0].Own? then 1 else 0) + OwnTurns(turns[1..])
  }

  function Min(a: nat, b: nat): nat {
    if a < b then a else b
  }

  lemma {:induction false} StopIndexBounds(files: string -> Option<string>, e: Engine, t: Tid, evs: seq<Ev>, i: nat)
    requires i <= |evs|
    ensures i <= StopIndex(files, e, t, evs, i) <= |evs|
    decreases |evs| - i
  {
    hide Step, Hook;
    if i < |evs| {
      StopIndexBounds(files, Step(e, Hook(files, t, evs[i])).0, t, evs, i + 1);
    }
  }

  /** Whatever the others do in between, the thread stops at the same event as alone, once it
      has had its turn there. */
  lemma {:induction false} OthersDoNotMatter(files: string -> Option<string>, e: Engine, alone: Engine, t: Tid,
                                             evs: seq<Ev>, i: nat, turns: seq<Turn>)
    requires i <= |evs| && SameView(e, alone, t) && AllLeaveAlone(turns, t)
    ensures StopAmong(files, e, t, evs, i, turns) == Min(StopIndex(files, alone, t, evs, i), i + OwnTurns(turns))
    decreases |turns|
  {
    hide Step, Hook, SameView, LeavesAlone;
    StopIndexBounds(files, alone, t, evs, i);
    if turns != [] && i < |evs| {
      var rest := turns[1..];
      assert AllLeaveAlone(rest, t);
      match turns[0]
      case Other(a) =>
        SameViewOfOne(e, alone, t);
        OthersLeaveTheView(e, a, t);
        SameViewChain(Step(e, a).0, e, alone, t);
        OthersDoNotMatter(files, Step(e, a).0, alone, t, evs, i, rest);
      case Own =>
        SameHook(files, e, alone, t, evs[i]);
        var out := Step(e, Hook(files, t, evs[i])).1;
        if !out.Stopped? {
          var e1, f1 := Step(e, Hook(files, t, evs[i])).0, Step(alone, Hook(files, t, evs[i])).0;
          StopIndexBounds(files, f1, t, evs, i + 1);
          OthersDoNotMatter(files, e1, f1, t, evs, i + 1, rest);
        }
    }
  }

  lemma SameViewOfOne(e: Engine, f: Engine, t: Tid)
    requires SameView(e, f, t)
    ensures SameView(e, e, t)
  {
  }

  lemma CourseIsAView(files: string -> Option<string>, e: Engine, t: Tid, c: Course)
    requires OnCourse(files, e, t, c)
    ensures SameView(e, e, t)
  {
  }

  /** Stepping and running on among other threads: with any of their actions, and commands to them, in
      between, the thread passes no statement it is to stop at, and stops at the first one it has a
      turn at. */
  lemma StepStopsAmongOthers(files: string -> Option<string>, e: Engine, t: Tid, verb: Verb, root: Node, i: nat,
                             turns: seq<Turn>)
    requires root.Call? && i < |FlatOne(root)| && FlatOne(root)[i].At?
    requires StoppedInside(files, e, t) && AllLeaveAlone(turns, t)
    requires Names(FramesOf(e, t)) == EnclosingOne(root, i)
    ensures var evs := FlatOne(root);
            var k := StopAmong(files, Go(e, t, verb), t, evs, i + 1, turns);
            && i < k <= |evs|
            && (k < |evs| && k < i + 1 + OwnTurns(turns) ==> StopsHere(files, e, t, root, verb, i, k))
            && forall j :: i < j < k ==> !StopsHere(files, e, t, root, verb, i, j)
  {
    hide *;
    var e' := Go(e, t, verb);
    StepStopsWhereItShould(files, e, t, verb, root, i);
    CommandReleases(files, e, t, verb);
    CourseIsAView(files, e', t, CourseAfter(e, t, verb));
    OthersDoNotMatter(files, e', e', t, FlatOne(root), i + 1, turns);
    MinIs(StopIndex(files, e', t, FlatOne(root), i + 1), i + 1 + OwnTurns(turns));
  }

  lemma PauseSetsCourse(files: string -> Option<string>, e: Engine, t: Tid, c: Course)
    requires OnCourse(files, e, t, c)
    ensures OnCourse(files, Step(e, PauseThread(t)).0, t, c.(pending := true))
    ensures FramesOf(Step(e, PauseThread(t)).0, t) == FramesOf(e, t)
  {
    hide FilesMatch;
  }

  /** A pause asked of a running thread stops it at the first statement that it has a turn at, whatever
      its command and the other threads do. */
  lemma PauseIsHonoured(files: string -> Option<string>, e: Engine, t: Tid, c: Course, evs: seq<Ev>, i: nat,
                        turns: seq<Turn>)
    requires i <= |evs| && OnCourse(files, e, t, c) && Names(FramesOf(e, t)) == NamesAfter([], evs[..i])
    requires AllLeaveAlone(turns, t)
    ensures var k := StopAmong(files, Step(e, PauseThread(t)).0, t, evs, i, turns);
            && i <= k <= |evs|
            && (k < |evs| && k < i + OwnTurns(turns) ==> evs[k].At? && NamesAfter([], evs[..k]) != [])
            && forall j :: i <= j < k ==> !(evs[j].At? && NamesAfter([], evs[..j]) != [])
  {
    var e' := Step(e, PauseThread(t)).0;
    PauseSetsCourse(files, e, t, c);
    hide OnCourse, Step, Names, FramesOf, NamesAfter, StopIndex, StopAmong, OwnTurns, AllLeaveAlone, Min, SameView;
    StopsAtFirstWanted(files, e', t, c.(pending := true), evs, i);
    CourseIsAView(files, e', t, c.(pending := true));
    OthersDoNotMatter(files, e', e', t, evs, i, turns);
    MinIs(StopIndex(files, e', t, evs, i), i + OwnTurns(turns));
  }

  lemma MinIs(a: nat, b: nat)
    ensures Min(a, b) <= a && Min(a, b) <= b && (Min(a, b) == a || Min(a, b) == b)
  {
  }

  /** `next` never stops inside a call that the current statement makes. */
  lemma NextSkipsCalls(root: Node, before: seq<Ev>, st: Node, after: seq<Ev>, j: nat)
    requires FlatOne(root) == before + FlatOne(st) + after && st.Stmt?
    requires |before| < j < |before| + |FlatOne(st)|
    requires Eligible(root, Over, |before|, j)
    ensures Enclosing(st.inner, j - |before| - 1) == []
  {
    DepthInPart(root, before, st, after, |before|);
    DepthInPart(root, before, st, after, j);
    FlatOnePrefix(st, j - |before|);
  }

  /** `stepOut` from a statement that stands directly in a call's body never stops before
      that call has returned. */
  lemma OutLeavesTheCall(root: Node, before: seq<Ev>, fn: string, body: seq<Node>, after: seq<Ev>, m: nat, j: nat)
    requires FlatOne(root) == before + FlatOne(Call(fn, body)) + after
    requires m < |Flat(body)| && Enclosing(body, m) == []
    requires |before| + 1 + m < j < |FlatOne(root)|
    requires Eligible(root, Out, |before| + 1 + m, j)
    ensures j >= |before| + |FlatOne(Call(fn, body))|
  {
    var evs, call, i := FlatOne(root), FlatOne(Call(fn, body)), |before| + 1 + m;
    if j < |before| + |call| {
      DepthInPart(root, before, Call(fn, body), after, i);
      DepthInPart(root, before, Call(fn, body), after, j);
    }
  }

  lemma DepthInPart(root: Node, before: seq<Ev>, part: Node, after: seq<Ev>, j: nat)
    requires FlatOne(root) == before + FlatOne(part) + after
    requires |before| <= j < |before| + |FlatOne(part)|
    ensures DepthAt(root, j) == |NamesAfter([], before)| + |EnclosingOne(part, j - |before|)|
  {
    var k := j - |before|;
    assert FlatOne(root)[..j] == before + FlatOne(part)[..k];
    NamesAfterConcat([], before, FlatOne(part)[..k]);
    StackMirrorsCall(NamesAfter([], before), part, k);
    StackMirrorsCall([], root, j);
  }
}
