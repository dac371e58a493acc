/** Rule L007 of the linter and its fix: which statements count as unreachable,
    and why deleting them keeps the meaning of every program. */
module DeadCode {
  import opened Sequences

  /** A position in a program: the function's index, then alternately the index
      of a statement in its block and the branch taken below that statement. */
  type Path = seq<nat>

  /** Statements as the linter sees them.  `code` names the expression a
      statement evaluates; an absent `else` is the empty block. */
  datatype Stmt =
    | Simple(code: nat)
    | Return(code: nat)
    | Break
    | Continue
    | If(code: nat, thn: seq<Stmt>, els: seq<Stmt>)
    | While(code: nat, body: seq<Stmt>)
    | For(code: nat, body: seq<Stmt>)

  type Block = seq<Stmt>
  type Program = seq<Block>

  function Child(st: Stmt, branch: nat): Block {
    match st
    case If(_, thn, els) => if branch == 0 then thn else if branch == 1 then els else []
    case While(_, body) => if branch == 0 then body else []
    case For(_, body) => if branch == 0 then body else []
    case _ => []
  }

  // ---------------------------------------------------------------------
  // Meaning: a fuelled interpreter over arbitrary expressions.
  // ---------------------------------------------------------------------

  datatype Outcome = Normal | Returned | Broke | Continued | Panicked | OutOfFuel

  /** How an expression leaves: with a value, through the `?` operator (which
      returns from the enclosing function), or with a panic. */
  datatype Exit = Value | Propagate | Panic

  /** What an expression does next: call a function of the program, or leave. */
  datatype Step<S> = Invoke(callee: nat, s: S) | Leave(exit: Exit, s: S)

  /** Everything the statements do to a state of type S.  `step` says what an expression does
      once the given number of its calls have come back: which functions it calls, and whether
      it calls any, may depend on all that happened before. */
  datatype World<!S> = World(
    step: (nat, nat, S) -> Step<S>,
    truth: (nat, S) -> bool,
    count: (nat, S) -> nat,
    inRange: (nat, nat, S) -> bool,
    open: (nat, nat, S) -> S,
    close: S -> S,
    leave: (nat, S) -> S
  )

  datatype Run<S> = Run(out: Outcome, s: S, log: seq<Path>)

  function OutcomeOf(e: Exit): Outcome {
    match e
    case Value => Normal
    case Propagate => Returned
    case Panic => Panicked
  }

  /** Evaluates an expression after `k` of its calls: `Normal` if it has a value. */
  function Eval<S>(w: World<S>, prog: Program, code: nat, k: nat, s: S, fuel: nat): Run<S>
    decreases fuel, 0
  {
    match w.step(code, k, s)
    case Leave(e, s1) => Run(OutcomeOf(e), s1, [])
    case Invoke(callee, s1) =>
      if fuel == 0 then Run(OutOfFuel, s1, [])
      else
        var r := if callee < |prog| then ExecBlock(w, prog, prog[callee], [callee], 0, s1, fuel - 1)
                 else Run(Normal, s1, []);
        if r.out == Panicked || r.out == OutOfFuel then Run(r.out, w.leave(code, r.s), r.log)
        else
          var r' := Eval(w, prog, code, k + 1, w.leave(code, r.s), fuel - 1);
          Run(r'.out, r'.s, r.log + r'.log)
  }

  /** Runs the statements of a block from its `i`-th on; `at` is the block's own path. */
  function ExecBlock<S>(w: World<S>, prog: Program, ss: Block, at: Path, i: nat, s: S, fuel: nat): Run<S>
    decreases fuel, 1, ss, 0
  {
    if ss == [] then Run(Normal, s, [])
    else
      var r := ExecStmt(w, prog, ss[0], at + [i], s, fuel);
      if r.out != Normal then r
      else
        var r' := ExecBlock(w, prog, ss[1..], at, i + 1, r.s, fuel);
        Run(r'.out, r'.s, r.log + r'.log)
  }

  function ExecStmt<S>(w: World<S>, prog: Program, st: Stmt, p: Path, s: S, fuel: nat): Run<S>
    decreases fuel, 1, st, 2
  {
    match st
    case Break => Run(Broke, s, [p])
    case Continue => Run(Continued, s, [p])
    case Simple(code) =>
      var v := Eval(w, prog, code, 0, s, fuel);
      Run(v.out, v.s, [p] + v.log)
    case Return(code) =>
      var v := Eval(w, prog, code, 0, s, fuel);
      Run(if v.out == Normal then Returned else v.out, v.s, [p] + v.log)
    case If(code, thn, els) =>
      var v := Eval(w, prog, code, 0, s, fuel);
      if v.out != Normal then Run(v.out, v.s, [p] + v.log)
      else if w.truth(code, v.s) then
        var r := ExecBlock(w, prog, thn, p + [0], 0, w.open(code, 0, v.s), fuel);
        Run(r.out, w.close(r.s), [p] + v.log + r.log)
      else if els == [] then Run(Normal, v.s, [p] + v.log)
      else
        var r := ExecBlock(w, prog, els, p + [1], 0, w.open(code, 0, v.s), fuel);
        Run(r.out, w.close(r.s), [p] + v.log + r.log)
    case While(code, body) =>
      var r := WhileLoop(w, prog, code, body, p, s, fuel);
      Run(r.out, r.s, [p] + r.log)
    case For(code, body) =>
      var v := Eval(w, prog, code, 0, s, fuel);
      if v.out != Normal then Run(v.out, v.s, [p] + v.log)
      else
        var r := ForLoop(w, prog, code, body, p, 0, w.count(code, v.s), v.s, fuel);
        Run(r.out, r.s, [p] + v.log + r.log)
  }

  function WhileLoop<S>(w: World<S>, prog: Program, code: nat, body: Block, p: Path, s: S, fuel: nat): Run<S>
    decreases fuel, 1, body, 1
  {
    var v := Eval(w, prog, code, 0, s, fuel);
    if v.out != Normal then v
    else if !w.truth(code, v.s) then v
    else if fuel == 0 then Run(OutOfFuel, v.s, v.log)
    else
      var r := ExecBlock(w, prog, body, p + [0], 0, w.open(code, 0, v.s), fuel - 1);
      if r.out == Broke then Run(Normal, w.close(r.s), v.log + r.log)
      else if r.out != Normal && r.out != Continued then Run(r.out, w.close(r.s), v.log + r.log)
      else
        var r' := WhileLoop(w, prog, code, body, p, w.close(r.s), fuel - 1);
        Run(r'.out, r'.s, v.log + r.log + r'.log)
  }

  /** The list's length is read once, but a list that shrank ends the loop early. */
  function ForLoop<S>(w: World<S>, prog: Program, code: nat, body: Block, p: Path, k: nat, n: nat, s: S,
                      fuel: nat): Run<S>
    decreases fuel, 1, body, 1, n - k
  {
    if k >= n || !w.inRange(code, k, s) then Run(Normal, s, [])
    else
      var r := ExecBlock(w, prog, body, p + [0], 0, w.open(code, k, s), fuel);
      if r.out == Broke then Run(Normal, w.close(r.s), r.log)
      else if r.out != Normal && r.out != Continued then Run(r.out, w.close(r.s), r.log)
      else
        var r' := ForLoop(w, prog, code, body, p, k + 1, n, w.close(r.s), fuel);
        Run(r'.out, r'.s, r.log + r'.log)
  }

  // ---------------------------------------------------------------------
  // The rule.
  // ---------------------------------------------------------------------

  /** The last statement is a `return`, or an `if` whose branches both end so. */
  predicate EndsInReturn(ss: Block)
    decreases ss, 0
  {
    ss != [] && Terminates(ss[|ss| - 1])
  }

  predicate Terminates(st: Stmt)
    decreases st, 1
  {
    st.Return? || (st.If? && EndsInReturn(st.thn) && EndsInReturn(st.els))
  }

  /** Position `p` holds a statement with a terminating one before it in its block. */
  ghost predicate DeadAt(ss: Block, p: Path)
    decreases |p|
  {
    |p| >= 1 && p[0] < |ss| &&
    if |p| == 1 then exists j :: 0 <= j < p[0] && Terminates(ss[j])
    else DeadAt(Child(ss[p[0]], p[1]), p[2..])
  }

  /** Position `p` holds a statement. */
  ghost predicate StmtAt(ss: Block, p: Path)
    decreases |p|
  {
    |p| >= 1 && p[0] < |ss| &&
    (|p| == 1 || StmtAt(Child(ss[p[0]], p[1]), p[2..]))
  }

  ghost predicate Dead(prog: Program, p: Path) {
    |p| >= 1 && p[0] < |prog| && DeadAt(prog[p[0]], p[1..])
  }

  ghost predicate InProgram(prog: Program, p: Path) {
    |p| >= 1 && p[0] < |prog| && StmtAt(prog[p[0]], p[1..])
  }

  // ---------------------------------------------------------------------
  // The fix: one round deletes, in every block, from the first flagged
  // statement to the closing brace.
  // ---------------------------------------------------------------------

  function Prune(ss: Block): (r: Block)
    decreases ss, 0
  {
    if ss == [] then []
    else if Terminates(ss[0]) then [PruneStmt(ss[0])]
    else [PruneStmt(ss[0])] + Prune(ss[1..])
  }

  function PruneStmt(st: Stmt): (r: Stmt)
    decreases st, 1
  {
    match st
    case If(code, thn, els) => If(code, Prune(thn), Prune(els))
    case While(code, body) => While(code, Prune(body))
    case For(code, body) => For(code, Prune(body))
    case _ => st
  }

  function PruneProgram(prog: Program): (r: Program)
  {
    if prog == [] then [] else [Prune(prog[0])] + PruneProgram(prog[1..])
  }

  lemma {:induction false} PruneProgramAt(prog: Program)
    ensures |PruneProgram(prog)| == |prog|
    ensures forall f :: 0 <= f < |prog| ==> PruneProgram(prog)[f] == Prune(prog[f])
  {
    if prog != [] {
      PruneProgramAt(prog[1..]);
    }
  }

  // ---------------------------------------------------------------------
  // Meaning is preserved.
  // ---------------------------------------------------------------------

  /** A block that ends in a return never completes normally. */
  lemma {:induction false} EndsInReturnNeverFallsThrough<S>(w: World<S>, prog: Program, ss: Block, at: Path, i: nat,
                                                            s: S, fuel: nat)
    requires EndsInReturn(ss)
    ensures ExecBlock(w, prog, ss, at, i, s, fuel).out != Normal
    decreases ss, 0
  {
    var r := ExecStmt(w, prog, ss[0], at + [i], s, fuel);
    if |ss| == 1 {
      TerminatesNeverFallsThrough(w, prog, ss[0], at + [i], s, fuel);
    } else if r.out == Normal {
      EndsInReturnNeverFallsThrough(w, prog, ss[1..], at, i + 1, r.s, fuel);
    }
  }

  lemma {:induction false} TerminatesNeverFallsThrough<S>(w: World<S>, prog: Program, st: Stmt, p: Path, s: S,
                                                          fuel: nat)
    requires Terminates(st)
    ensures ExecStmt(w, prog, st, p, s, fuel).out != Normal
    decreases st, 1
  {
    if st.If? {
      var s1 := w.open(st.code, 0, Eval(w, prog, st.code, 0, s, fuel).s);
      EndsInReturnNeverFallsThrough(w, prog, st.thn, p + [0], 0, s1, fuel);
      EndsInReturnNeverFallsThrough(w, prog, st.els, p + [1], 0, s1, fuel);
    }
  }

  /** One round of pruning, on every function at once, changes no run: same
      outcome, same final state, same statements executed in the same order. */
  lemma {:induction false} PruneBlockSameRun<S>(w: World<S>, prog: Program, ss: Block, at: Path, i: nat, s: S,
                                                fuel: nat)
    ensures ExecBlock(w, PruneProgram(prog), Prune(ss), at, i, s, fuel) == ExecBlock(w, prog, ss, at, i, s, fuel)
    decreases fuel, 1, ss, 0
  {
    if ss != [] {
      PruneStmtSameRun(w, prog, ss[0], at + [i], s, fuel);
      var r := ExecStmt(w, prog, ss[0], at + [i], s, fuel);
      if Terminates(ss[0]) {
        TerminatesNeverFallsThrough(w, prog, ss[0], at + [i], s, fuel);
      } else {
        assert Prune(ss)[1..] == Prune(ss[1..]);
        if r.out == Normal {
          PruneBlockSameRun(w, prog, ss[1..], at, i + 1, r.s, fuel);
        }
      }
    }
  }

  lemma {:induction false} PruneStmtSameRun<S>(w: World<S>, prog: Program, st: Stmt, p: Path, s: S, fuel: nat)
    ensures ExecStmt(w, PruneProgram(prog), PruneStmt(st), p, s, fuel) == ExecStmt(w, prog, st, p, s, fuel)
    decreases fuel, 1, st, 2
  {
    if !st.While? && !st.Break? && !st.Continue? {
      PruneEvalSameRun(w, prog, st.code, 0, s, fuel);
    }
    match st
    case If(code, thn, els) =>
      var s1 := w.open(code, 0, Eval(w, prog, code, 0, s, fuel).s);
      PruneBlockSameRun(w, prog, thn, p + [0], 0, s1, fuel);
      PruneBlockSameRun(w, prog, els, p + [1], 0, s1, fuel);
    case While(code, body) =>
      PruneWhileSameRun(w, prog, code, body, p, s, fuel);
    case For(code, body) =>
      var s1 := Eval(w, prog, code, 0, s, fuel).s;
      PruneForSameRun(w, prog, code, body, p, 0, w.count(code, s1), s1, fuel);
    case _ =>
  }

  lemma {:induction false} PruneEvalSameRun<S>(w: World<S>, prog: Program, code: nat, k: nat, s: S, fuel: nat)
    ensures Eval(w, PruneProgram(prog), code, k, s, fuel) == Eval(w, prog, code, k, s, fuel)
    decreases fuel, 0
  {
    PruneProgramAt(prog);
    var step := w.step(code, k, s);
    if step.Invoke? && fuel > 0 {
      var callee := step.callee;
      var r := Run(Normal, step.s, []);
      if callee < |prog| {
        PruneBlockSameRun(w, prog, prog[callee], [callee], 0, step.s, fuel - 1);
        r := ExecBlock(w, prog, prog[callee], [callee], 0, step.s, fuel - 1);
      }
      PruneEvalSameRun(w, prog, code, k + 1, w.leave(code, r.s), fuel - 1);
    }
  }

  lemma {:induction false} PruneWhileSameRun<S>(w: World<S>, prog: Program, code: nat, body: Block, p: Path, s: S,
                                                fuel: nat)
    ensures WhileLoop(w, PruneProgram(prog), code, Prune(body), p, s, fuel) ==
      WhileLoop(w, prog, code, body, p, s, fuel)
    decreases fuel, 1, body, 1
  {
    PruneEvalSameRun(w, prog, code, 0, s, fuel);
    var s1 := Eval(w, prog, code, 0, s, fuel).s;
    if fuel > 0 {
      PruneBlockSameRun(w, prog, body, p + [0], 0, w.open(code, 0, s1), fuel - 1);
      var r := ExecBlock(w, prog, body, p + [0], 0, w.open(code, 0, s1), fuel - 1);
      PruneWhileSameRun(w, prog, code, body, p, w.close(r.s), fuel - 1);
    }
  }

  lemma {:induction false} PruneForSameRun<S>(w: World<S>, prog: Program, code: nat, body: Block, p: Path, k: nat,
                                              n: nat, s: S, fuel: nat)
    ensures ForLoop(w, PruneProgram(prog), code, Prune(body), p, k, n, s, fuel) ==
      ForLoop(w, prog, code, body, p, k, n, s, fuel)
    decreases fuel, 1, body, 1, n - k
  {
    if k < n && w.inRange(code, k, s) {
      PruneBlockSameRun(w, prog, body, p + [0], 0, w.open(code, k, s), fuel);
      var r := ExecBlock(w, prog, body, p + [0], 0, w.open(code, k, s), fuel);
      PruneForSameRun(w, prog, code, body, p, k + 1, n, w.close(r.s), fuel);
    }
  }

  // ---------------------------------------------------------------------
  // Nothing flagged is ever executed.
  // ---------------------------------------------------------------------

  /** Neither the statement at `p` nor any statement around it is flagged. */
  ghost predicate Live(ss: Block, p: Path)
    decreases |p|
  {
    |p| >= 1 && p[0] < |ss| && !DeadAt(ss, [p[0]]) &&
    (|p| == 1 || Live(Child(ss[p[0]], p[1]), p[2..]))
  }

  lemma {:induction false} DeadIsNotLive(ss: Block, p: Path)
    requires DeadAt(ss, p)
    ensures !Live(ss, p)
    decreases |p|
  {
    if |p| == 1 {
      assert [p[0]] == p;
    } else {
      DeadIsNotLive(Child(ss[p[0]], p[1]), p[2..]);
    }
  }

  lemma {:induction false} PruneIsPrefix(ss: Block)
    ensures |Prune(ss)| <= |ss|
    ensures forall k :: 0 <= k < |Prune(ss)| ==> Prune(ss)[k] == PruneStmt(ss[k])
    ensures forall k :: 0 <= k < |ss| ==> (k < |Prune(ss)| <==> !DeadAt(ss, [k]))
  {
    if ss != [] {
      var rest := ss[1..];
      PruneIsPrefix(rest);
      forall k | 1 <= k < |ss|
        ensures DeadAt(ss, [k]) <==> Terminates(ss[0]) || DeadAt(rest, [k - 1])
      {
        if DeadAt(ss, [k]) && !Terminates(ss[0]) {
          var j :| 0 <= j < k && Terminates(ss[j]);
          assert Terminates(rest[j - 1]);
        }
        if DeadAt(rest, [k - 1]) {
          var j :| 0 <= j < k - 1 && Terminates(rest[j]);
          assert Terminates(ss[j + 1]);
        }
      }
      forall k | 0 <= k < |ss|
        ensures k < |Prune(ss)| <==> !DeadAt(ss, [k])
      {
        assert k > 0 ==> (k - 1 < |Prune(rest)| <==> !DeadAt(rest, [k - 1]));
      }
    }
  }

  /** Pruning keeps exactly the live statements. */
  lemma {:induction false} PruneKeepsExactlyTheLive(ss: Block, p: Path)
    ensures StmtAt(Prune(ss), p) <==> Live(ss, p)
    decreases |p|
  {
    PruneIsPrefix(ss);
    if |p| > 1 && p[0] < |ss| {
      assert Child(PruneStmt(ss[p[0]]), p[1]) == Prune(Child(ss[p[0]], p[1]));
      PruneKeepsExactlyTheLive(Child(ss[p[0]], p[1]), p[2..]);
    }
  }

  /** `q` lies in the block `ss`, whose first statement is number `i` of the block at `at`,
      or anywhere else in the program. */
  ghost predicate OfBlock(prog: Program, ss: Block, at: Path, i: nat, q: Path) {
    InProgram(prog, q) ||
    (|q| > |at| && q[..|at|] == at && q[|at|] >= i && StmtAt(ss, [q[|at|] - i] + q[|at| + 1..]))
  }

  ghost predicate OfStmt(prog: Program, st: Stmt, p: Path, q: Path) {
    InProgram(prog, q) || q == p ||
    (|q| > |p| && q[..|p|] == p && StmtAt(Child(st, q[|p|]), q[|p| + 1..]))
  }

  lemma OfBranch(prog: Program, st: Stmt, p: Path, branch: nat, q: Path)
    requires OfBlock(prog, Child(st, branch), p + [branch], 0, q)
    ensures OfStmt(prog, st, p, q)
  {
    if !InProgram(prog, q) {
      var at := p + [branch];
      assert q[..|p|] == q[..|at|][..|p|] == p;
      assert q[|p|] == q[..|at|][|p|] == branch;
      assert q[|p| + 1..] == [q[|at|] - 0] + q[|at| + 1..];
    }
  }

  lemma OfHead(prog: Program, ss: Block, at: Path, i: nat, q: Path)
    requires ss != [] && OfStmt(prog, ss[0], at + [i], q)
    ensures OfBlock(prog, ss, at, i, q)
  {
    if !InProgram(prog, q) {
      var p := at + [i];
      assert q[..|at|] == q[..|p|][..|at|] == at;
      assert q[|at|] == q[..|p|][|at|] == i;
      var rel := [q[|at|] - i] + q[|at| + 1..];
      if q != p {
        assert rel[1] == q[|p|] && rel[2..] == q[|p| + 1..];
      }
    }
  }

  lemma OfTail(prog: Program, ss: Block, at: Path, i: nat, q: Path)
    requires ss != [] && OfBlock(prog, ss[1..], at, i + 1, q)
    ensures OfBlock(prog, ss, at, i, q)
  {
    if !InProgram(prog, q) {
      var rel, rel' := [q[|at|] - i] + q[|at| + 1..], [q[|at|] - (i + 1)] + q[|at| + 1..];
      assert rel[1..] == rel'[1..] && rel[0] == rel'[0] + 1;
      assert |rel| > 1 ==> rel[2..] == rel'[2..];
    }
  }

  lemma OfFunction(prog: Program, f: nat, q: Path)
    requires f < |prog| && OfBlock(prog, prog[f], [f], 0, q)
    ensures InProgram(prog, q)
  {
    assert |q| > 1 ==> q[..1][0] == q[0] && q[1..] == [q[1] - 0] + q[2..];
  }

  /** A run only ever executes statements of the block it is given, or of functions it calls. */
  lemma {:induction false} BlockLogInside<S>(w: World<S>, prog: Program, ss: Block, at: Path, i: nat, s: S,
                                             fuel: nat, q: Path)
    requires q in ExecBlock(w, prog, ss, at, i, s, fuel).log
    ensures OfBlock(prog, ss, at, i, q)
    decreases fuel, 1, ss, 0
  {
    var r := ExecStmt(w, prog, ss[0], at + [i], s, fuel);
    if q in r.log {
      StmtLogInside(w, prog, ss[0], at + [i], s, fuel, q);
      OfHead(prog, ss, at, i, q);
    } else {
      BlockLogInside(w, prog, ss[1..], at, i + 1, r.s, fuel, q);
      OfTail(prog, ss, at, i, q);
    }
  }

  lemma {:induction false} StmtLogInside<S>(w: World<S>, prog: Program, st: Stmt, p: Path, s: S, fuel: nat, q: Path)
    requires q in ExecStmt(w, prog, st, p, s, fuel).log
    ensures OfStmt(prog, st, p, q)
    decreases fuel, 1, st, 2
  {
    if q == p {
    } else if st.While? {
      WhileLogInside(w, prog, st, p, s, fuel, q);
    } else {
      var v := Eval(w, prog, st.code, 0, s, fuel);
      if q in v.log {
        EvalLogInside(w, prog, st.code, 0, s, fuel, q);
      } else if st.If? {
        var branch := if w.truth(st.code, v.s) then 0 else 1;
        BlockLogInside(w, prog, Child(st, branch), p + [branch], 0, w.open(st.code, 0, v.s), fuel, q);
        OfBranch(prog, st, p, branch, q);
      } else {
        ForLogInside(w, prog, st, p, 0, w.count(st.code, v.s), v.s, fuel, q);
      }
    }
  }

  lemma {:induction false} EvalLogInside<S>(w: World<S>, prog: Program, code: nat, k: nat, s: S, fuel: nat, q: Path)
    requires q in Eval(w, prog, code, k, s, fuel).log
    ensures InProgram(prog, q)
    decreases fuel, 0
  {
    var step := w.step(code, k, s);
    var callee := step.callee;
    var r := Run(Normal, step.s, []);
    if callee < |prog| {
      r := ExecBlock(w, prog, prog[callee], [callee], 0, step.s, fuel - 1);
    }
    if q in r.log {
      BlockLogInside(w, prog, prog[callee], [callee], 0, step.s, fuel - 1, q);
      OfFunction(prog, callee, q);
    } else {
      EvalLogInside(w, prog, code, k + 1, w.leave(code, r.s), fuel - 1, q);
    }
  }

  lemma {:induction false} WhileLogInside<S>(w: World<S>, prog: Program, st: Stmt, p: Path, s: S, fuel: nat, q: Path)
    requires st.While? && q in WhileLoop(w, prog, st.code, st.body, p, s, fuel).log
    ensures OfStmt(prog, st, p, q)
    decreases fuel, 1, st.body, 1
  {
    var v := Eval(w, prog, st.code, 0, s, fuel);
    if q in v.log {
      EvalLogInside(w, prog, st.code, 0, s, fuel, q);
    } else {
      var s1 := w.open(st.code, 0, v.s);
      var r := ExecBlock(w, prog, st.body, p + [0], 0, s1, fuel - 1);
      if q in r.log {
        BlockLogInside(w, prog, st.body, p + [0], 0, s1, fuel - 1, q);
        OfBranch(prog, st, p, 0, q);
      } else {
        WhileLogInside(w, prog, st, p, w.close(r.s), fuel - 1, q);
      }
    }
  }

  lemma {:induction false} ForLogInside<S>(w: World<S>, prog: Program, st: Stmt, p: Path, k: nat, n: nat, s: S,
                                           fuel: nat, q: Path)
    requires st.For? && q in ForLoop(w, prog, st.code, st.body, p, k, n, s, fuel).log
    ensures OfStmt(prog, st, p, q)
    decreases fuel, 1, st.body, 1, n - k
  {
    var s1 := w.open(st.code, k, s);
    var r := ExecBlock(w, prog, st.body, p + [0], 0, s1, fuel);
    if q in r.log {
      BlockLogInside(w, prog, st.body, p + [0], 0, s1, fuel, q);
      OfBranch(prog, st, p, 0, q);
    } else {
      ForLogInside(w, prog, st, p, k + 1, n, w.close(r.s), fuel, q);
    }
  }

  /** The run of a whole program: its function number `f`, called from outside. */
  function RunProgram<S>(w: World<S>, prog: Program, f: nat, s: S, fuel: nat): Run<S>
    requires f < |prog|
  {
    ExecBlock(w, prog, prog[f], [f], 0, s, fuel)
  }

  /** No statement that the rule flags, and nothing inside one, is ever executed. */
  lemma FlaggedNeverRuns<S>(w: World<S>, prog: Program, f: nat, s: S, fuel: nat, q: Path)
    requires f < |prog| && q in RunProgram(w, prog, f, s, fuel).log
    ensures q != [] && q[0] < |prog| && Live(prog[q[0]], q[1..]) && !Dead(prog, q)
  {
    var pruned := PruneProgram(prog);
    PruneProgramAt(prog);
    PruneBlockSameRun(w, prog, prog[f], [f], 0, s, fuel);
    BlockLogInside(w, pruned, pruned[f], [f], 0, s, fuel, q);
    OfFunction(pruned, f, q);
    PruneKeepsExactlyTheLive(prog[q[0]], q[1..]);
    if Dead(prog, q) {
      DeadIsNotLive(prog[q[0]], q[1..]);
    }
  }

  // ---------------------------------------------------------------------
  // Rounds: deleting one run can expose another, so the fixer repeats.
  // ---------------------------------------------------------------------

  function Size(ss: Block): nat
    decreases ss, 0
  {
    if ss == [] then 0 else SizeOf(ss[0]) + Size(ss[1..])
  }

  function SizeOf(st: Stmt): nat
    decreases st, 1
  {
    1 + match st
        case If(_, thn, els) => Size(thn) + Size(els)
        case While(_, body) => Size(body)
        case For(_, body) => Size(body)
        case _ => 0
  }

  function ProgramSize(prog: Program): nat {
    if prog == [] then 0 else Size(prog[0]) + ProgramSize(prog[1..])
  }

  ghost predicate CleanBlock(ss: Block) {
    forall p :: !DeadAt(ss, p)
  }

  ghost predicate CleanBelow(st: Stmt) {
    forall b: nat :: CleanBlock(Child(st, b))
  }

  ghost predicate Clean(prog: Program) {
    forall p :: !Dead(prog, p)
  }

  /** A block is unchanged by pruning exactly when nothing in it is flagged,
      and otherwise it loses at least one statement. */
  lemma {:induction false} PruneShrinks(ss: Block)
    ensures Size(Prune(ss)) <= Size(ss)
    ensures (Size(Prune(ss)) == Size(ss) || Prune(ss) == ss) ==> CleanBlock(ss) && Prune(ss) == ss
    decreases ss, 0
  {
    if ss != [] {
      var rest := ss[1..];
      PruneShrinks(rest);
      PruneStmtShrinks(ss[0]);
      if Terminates(ss[0]) {
        assert Prune(ss)[1..] == [];
      } else {
        assert Prune(ss)[1..] == Prune(rest);
      }
      if Size(Prune(ss)) == Size(ss) || Prune(ss) == ss {
        if Terminates(ss[0]) {
          assert rest != [] ==> Size(rest) >= 1;
        }
        assert Prune(ss) == ss by { assert ss == [ss[0]] + rest; }
        forall p
          ensures !DeadAt(ss, p)
        {
          if DeadAt(ss, p) {
            LaterDead(ss, p);
          }
        }
      }
    }
  }

  lemma LaterDead(ss: Block, p: Path)
    requires DeadAt(ss, p)
    ensures (p[0] == 0 && |p| > 1 && DeadAt(Child(ss[0], p[1]), p[2..])) ||
            (p[0] > 0 && (DeadAt(ss[1..], [p[0] - 1] + p[1..]) || Terminates(ss[0])))
  {
    if p[0] > 0 {
      var rel := [p[0] - 1] + p[1..];
      if |p| == 1 {
        var j :| 0 <= j < p[0] && Terminates(ss[j]);
        if j > 0 { assert Terminates(ss[1..][j - 1]); }
      } else {
        assert rel[1] == p[1] && rel[2..] == p[2..];
      }
    }
  }

  lemma {:induction false} PruneStmtShrinks(st: Stmt)
    ensures SizeOf(PruneStmt(st)) <= SizeOf(st)
    ensures SizeOf(PruneStmt(st)) == SizeOf(st) || PruneStmt(st) == st ==>
              PruneStmt(st) == st && CleanBelow(st)
    decreases st, 1
  {
    match st
    case If(_, thn, els) => PruneShrinks(thn); PruneShrinks(els);
    case While(_, body) => PruneShrinks(body);
    case For(_, body) => PruneShrinks(body);
    case _ =>
  }

  /** A round leaves a program alone exactly when the rule flags nothing in it,
      and otherwise deletes at least one statement. */
  lemma {:induction false} RoundShrinks(prog: Program)
    ensures PruneProgram(prog) == prog <==> Clean(prog)
    ensures ProgramSize(PruneProgram(prog)) <= ProgramSize(prog)
    ensures !Clean(prog) ==> ProgramSize(PruneProgram(prog)) < ProgramSize(prog)
  {
    if prog != [] {
      var rest := prog[1..];
      RoundShrinks(rest);
      PruneShrinks(prog[0]);
      PruneProgramAt(prog);
      assert PruneProgram(prog)[1..] == PruneProgram(rest);
      assert prog == [prog[0]] + rest;
      CleanSplits(prog);
      if Clean(prog) {
        CleanIsUnchanged(prog[0]);
      }
    }
  }

  lemma CleanSplits(prog: Program)
    requires prog != []
    ensures Clean(prog) <==> CleanBlock(prog[0]) && Clean(prog[1..])
  {
    if Clean(prog) {
      forall p
        ensures !DeadAt(prog[0], p)
      {
        assert !Dead(prog, [0] + p) && ([0] + p)[1..] == p;
      }
      forall p
        ensures !Dead(prog[1..], p)
      {
        DeadInRest(prog, p);
      }
    }
    if CleanBlock(prog[0]) && Clean(prog[1..]) {
      forall q
        ensures !Dead(prog, q)
      {
        if |q| >= 1 && 0 < q[0] {
          DeadInRest(prog, [q[0] - 1] + q[1..]);
          assert [q[0]] + q[1..] == q;
        }
      }
    }
  }

  lemma DeadInRest(prog: Program, p: Path)
    requires prog != []
    ensures Dead(prog[1..], p) <==> |p| >= 1 && Dead(prog, [p[0] + 1] + p[1..])
  {
    if |p| >= 1 {
      assert ([p[0] + 1] + p[1..])[1..] == p[1..];
    }
  }

  lemma {:induction false} CleanIsUnchanged(ss: Block)
    requires CleanBlock(ss)
    ensures Prune(ss) == ss
    decreases ss, 0
  {
    PruneIsPrefix(ss);
    assert |Prune(ss)| == |ss| by {
      assert !DeadAt(ss, [|Prune(ss)|]);
    }
    forall k | 0 <= k < |ss|
      ensures PruneStmt(ss[k]) == ss[k]
    {
      forall b: nat, p
        ensures !DeadAt(Child(ss[k], b), p)
      {
        assert !DeadAt(ss, [k, b] + p) && ([k, b] + p)[2..] == p;
      }
      assert CleanBelow(ss[k]);
      CleanChildren(ss[k]);
    }
  }

  lemma {:induction false} CleanChildren(st: Stmt)
    requires CleanBelow(st)
    ensures PruneStmt(st) == st
    decreases st, 0
  {
    match st
    case If(_, thn, els) =>
      assert Child(st, 0) == thn && Child(st, 1) == els;
      CleanIsUnchanged(thn);
      CleanIsUnchanged(els);
    case While(_, body) => assert Child(st, 0) == body; CleanIsUnchanged(body);
    case For(_, body) => assert Child(st, 0) == body; CleanIsUnchanged(body);
    case _ =>
  }

  function PruneRounds(prog: Program, n: nat): Program
    decreases n
  {
    if n == 0 then prog else PruneRounds(PruneProgram(prog), n - 1)
  }

  /** Any number of rounds preserves every run of the program. */
  lemma {:induction false} RoundsPreserveMeaning<S>(w: World<S>, prog: Program, n: nat, f: nat, s: S, fuel: nat)
    requires f < |prog|
    ensures |PruneRounds(prog, n)| == |prog|
    ensures RunProgram(w, PruneRounds(prog, n), f, s, fuel) == RunProgram(w, prog, f, s, fuel)
    decreases n
  {
    if n > 0 {
      PruneProgramAt(prog);
      PruneBlockSameRun(w, prog, prog[f], [f], 0, s, fuel);
      RoundsPreserveMeaning(w, PruneProgram(prog), n - 1, f, s, fuel);
    }
  }

  // ---------------------------------------------------------------------
  // How many rounds it takes: one more than `if`s are nested.
  // ---------------------------------------------------------------------

  function Max(a: nat, b: nat): nat {
    if a < b then b else a
  }

  /** How deep `if`s are nested in a block; loops do not count. */
  function Height(ss: Block): nat
    decreases ss, 0
  {
    if ss == [] then 0 else Max(HeightOf(ss[0]), Height(ss[1..]))
  }

  function HeightOf(st: Stmt): nat
    decreases st, 1
  {
    match st
    case If(_, thn, els) => 1 + Max(Height(thn), Height(els))
    case While(_, body) => Height(body)
    case For(_, body) => Height(body)
    case _ => 0
  }

  function ProgramHeight(prog: Program): nat {
    if prog == [] then 0 else Max(Height(prog[0]), ProgramHeight(prog[1..]))
  }

  lemma {:induction false} HeightMember(ss: Block, k: nat)
    requires k < |ss|
    ensures HeightOf(ss[k]) <= Height(ss)
  {
    if k > 0 {
      HeightMember(ss[1..], k - 1);
    }
  }

  lemma {:induction false} HeightFunction(prog: Program, f: nat)
    requires f < |prog|
    ensures Height(prog[f]) <= ProgramHeight(prog)
  {
    if f > 0 {
      HeightFunction(prog[1..], f - 1);
    }
  }

  function Rounds(ss: Block, n: nat): Block
    decreases n
  {
    if n == 0 then ss else Prune(Rounds(ss, n - 1))
  }

  function RoundsOf(st: Stmt, n: nat): Stmt
    decreases n
  {
    if n == 0 then st else PruneStmt(RoundsOf(st, n - 1))
  }

  lemma {:induction false} RoundsArePrefix(ss: Block, n: nat)
    ensures |Rounds(ss, n)| <= |ss|
    ensures forall k :: 0 <= k < |Rounds(ss, n)| ==> Rounds(ss, n)[k] == RoundsOf(ss[k], n)
    decreases n
  {
    if n > 0 {
      RoundsArePrefix(ss, n - 1);
      PruneIsPrefix(Rounds(ss, n - 1));
    }
  }

  lemma {:induction false} RoundsBelow(st: Stmt, n: nat, b: nat)
    ensures Child(RoundsOf(st, n), b) == Rounds(Child(st, b), n)
    ensures RoundsOf(st, n).If? == st.If? && RoundsOf(st, n).Return? == st.Return?
    decreases n
  {
    if n > 0 {
      RoundsBelow(st, n - 1, b);
      PruneBelow(RoundsOf(st, n - 1), b);
    }
  }

  lemma PruneBelow(st: Stmt, b: nat)
    ensures Child(PruneStmt(st), b) == Prune(Child(st, b))
  {
  }

  /** After as many rounds as its height, whether a statement terminates is settled. */
  lemma {:induction false} StatementSettles(st: Stmt, n: nat)
    requires n >= HeightOf(st)
    ensures Terminates(RoundsOf(st, n + 1)) == Terminates(RoundsOf(st, n))
    decreases st, 1
  {
    TerminatesFromBelow(st, n);
    TerminatesFromBelow(st, n + 1);
    if st.If? {
      BlockSettles(st.thn, n);
      BlockSettles(st.els, n);
    }
  }

  lemma TerminatesFromBelow(st: Stmt, n: nat)
    ensures Terminates(RoundsOf(st, n)) <==>
      st.Return? || (st.If? && EndsInReturn(Rounds(st.thn, n)) && EndsInReturn(Rounds(st.els, n)))
  {
    RoundsBelow(st, n, 0);
    RoundsBelow(st, n, 1);
    hide Rounds, RoundsOf, EndsInReturn;
  }

  /** After one round more than its height, a block's own statements carry no flag, and
      whether it ends in a return is settled. */
  lemma {:induction false} BlockSettles(ss: Block, n: nat)
    requires n > Height(ss)
    ensures forall k: nat :: !DeadAt(Rounds(ss, n), [k])
    ensures EndsInReturn(Rounds(ss, n + 1)) == EndsInReturn(Rounds(ss, n))
    decreases ss, 0
  {
    var before, now, next := Rounds(ss, n - 1), Rounds(ss, n), Rounds(ss, n + 1);
    RoundsArePrefix(ss, n - 1);
    RoundsArePrefix(ss, n);
    RoundsArePrefix(ss, n + 1);
    hide Terminates, Height, RoundsOf;
    forall k | 0 <= k < |now|
      ensures Terminates(RoundsOf(ss[k], n + 1)) == Terminates(now[k]) == Terminates(RoundsOf(ss[k], n - 1))
    {
      HeightMember(ss, k);
      StatementSettles(ss[k], n);
      StatementSettles(ss[k], n - 1);
    }
    PruneIsPrefix(before);
    PruneIsPrefix(now);
    SettledBlock(before, now, next);
  }

  lemma SettledBlock(before: Block, now: Block, next: Block)
    requires now == Prune(before) && next == Prune(now)
    requires |next| <= |now| <= |before|
    requires forall k :: 0 <= k < |now| ==> Terminates(now[k]) == Terminates(before[k])
    requires forall k :: 0 <= k < |next| ==> Terminates(next[k]) == Terminates(now[k])
    ensures forall k: nat :: !DeadAt(now, [k])
    ensures EndsInReturn(next) == EndsInReturn(now)
  {
    PruneIsPrefix(before);
    PruneIsPrefix(now);
    hide Terminates, Prune, DeadAt;
    forall k: nat
      ensures !DeadAt(now, [k])
    {
      StaysLive(before, now, k);
    }
    var tail: Path := [|next|];
    assert !DeadAt(now, tail);
  }

  lemma StaysLive(before: Block, now: Block, k: nat)
    requires |now| <= |before| && (k < |now| ==> !DeadAt(before, [k]))
    requires forall j :: 0 <= j < |now| ==> Terminates(now[j]) == Terminates(before[j])
    ensures !DeadAt(now, [k])
  {
    hide Terminates;
  }

  lemma {:induction false} BlockComesClean(ss: Block, n: nat, p: Path)
    requires n > Height(ss)
    ensures !DeadAt(Rounds(ss, n), p)
    decreases |p|
  {
    if |p| == 1 {
      BlockSettles(ss, n);
      assert p == [p[0]];
    } else if |p| > 1 && p[0] < |Rounds(ss, n)| {
      RoundsArePrefix(ss, n);
      RoundsBelow(ss[p[0]], n, p[1]);
      HeightMember(ss, p[0]);
      BlockComesClean(Child(ss[p[0]], p[1]), n, p[2..]);
    }
  }

  lemma {:induction false} RoundsAt(prog: Program, n: nat, f: nat)
    requires f < |prog|
    ensures |PruneRounds(prog, n)| == |prog| && PruneRounds(prog, n)[f] == Rounds(prog[f], n)
    decreases n
  {
    if n > 0 {
      PruneProgramAt(prog);
      RoundsAt(PruneProgram(prog), n - 1, f);
      RoundsShift(prog[f], n - 1);
    }
  }

  lemma {:induction false} RoundsShift(ss: Block, n: nat)
    ensures Rounds(Prune(ss), n) == Rounds(ss, n + 1)
    decreases n
  {
    if n > 0 {
      RoundsShift(ss, n - 1);
    }
  }

  lemma {:induction false} RoundsLength(prog: Program, n: nat)
    ensures |PruneRounds(prog, n)| == |prog|
    decreases n
  {
    if n > 0 {
      PruneProgramAt(prog);
      RoundsLength(PruneProgram(prog), n - 1);
    }
  }

  /** One round more than `if`s are nested leaves nothing to flag: the fixer's eight rounds
      clear every program whose `if`s are nested at most seven deep. */
  lemma RoundsReachClean(prog: Program, n: nat)
    requires n > ProgramHeight(prog)
    ensures Clean(PruneRounds(prog, n))
  {
    RoundsLength(prog, n);
    forall p
      ensures !Dead(PruneRounds(prog, n), p)
    {
      if |p| >= 1 && p[0] < |prog| {
        RoundsAt(prog, n, p[0]);
        HeightFunction(prog, p[0]);
        BlockComesClean(prog[p[0]], n, p[1..]);
      }
    }
  }

  lemma {:induction false} CleanStaysPut(prog: Program, n: nat)
    requires Clean(prog)
    ensures PruneRounds(prog, n) == prog
  {
    RoundShrinks(prog);
    if n > 0 {
      CleanStaysPut(prog, n - 1);
    }
  }

  /** `if`s nested `h` deep, each with the same dead end in both branches, after `n` rounds. */
  function Nest(h: nat, n: nat): Block
    decreases h
  {
    var st := if h == 0 then Return(1) else If(0, Nest(h - 1, n), Nest(h - 1, n));
    if n <= h then [st, Simple(2)] else [st]
  }

  lemma {:induction false} NestPruned(h: nat, n: nat)
    ensures EndsInReturn(Nest(h, n)) <==> n > h
    ensures Terminates(Nest(h, n)[0]) <==> n >= h
    ensures Prune(Nest(h, n)) == Nest(h, n + 1)
    decreases h
  {
    var ss := Nest(h, n);
    if h > 0 {
      NestPruned(h - 1, n);
    }
    assert Prune([Simple(2)]) == [Simple(2)];
    assert |ss| == 2 ==> ss[1..] == [Simple(2)];
    assert |ss| == 1 ==> ss[1..] == [];
    assert PruneStmt(ss[0]) == Nest(h, n + 1)[0];
  }

  lemma {:induction false} NestHeight(h: nat)
    ensures Height(Nest(h, 0)) == h
    decreases h
  {
    if h > 0 {
      NestHeight(h - 1);
    }
    assert Nest(h, 0)[1..] == [Simple(2)] && Height([Simple(2)]) == 0;
  }

  lemma {:induction false} NestRounds(h: nat, n: nat, m: nat)
    ensures PruneRounds([Nest(h, n)], m) == [Nest(h, n + m)]
    decreases m
  {
    if m > 0 {
      NestPruned(h, n);
      assert PruneProgram([Nest(h, n)]) == [Nest(h, n + 1)];
      NestRounds(h, n + 1, m - 1);
    }
  }

  /** The bound is met: for every depth there is a program that takes exactly that many rounds,
      for the dead tail of a branch hides that the branch ends in a return. */
  lemma RoundsBoundIsTight(h: nat, n: nat)
    ensures ProgramHeight([Nest(h, 0)]) == h
    ensures Clean(PruneRounds([Nest(h, 0)], n)) <==> n > h
  {
    NestHeight(h);
    var prog := [Nest(h, 0)];
    assert prog[1..] == [] && ProgramHeight([]) == 0;
    NestRounds(h, 0, n);
    if n > h {
      RoundsReachClean(prog, n);
    } else {
      var late, ever: Program := [Nest(h, n)], [Nest(h, n + 1 + h)];
      assert |late[0]| == 2 && |ever[0]| == 1;
      NestRounds(h, n, 1 + h);
      assert PruneRounds(late, 1 + h) == ever != late;
      if Clean(late) {
        CleanStaysPut(late, 1 + h);
      }
    }
  }

  // ---------------------------------------------------------------------
  // The checker itself.
  // ---------------------------------------------------------------------

  /** `head` marks the first statement of a dead run, the one that carries the fix hint. */
  datatype Warning = Warning(path: Path, head: bool)

  /** `wn` names a flagged statement of `ss`, and carries the hint exactly when
      the statement before it is not flagged. */
  ghost predicate Flagged(ss: Block, wn: Warning) {
    DeadAt(ss, wn.path) && wn.head == FirstOfRun(ss, wn.path)
  }

  /** The statement just before position `p`, in the same block, is not flagged. */
  ghost predicate FirstOfRun(ss: Block, p: Path)
    decreases |p|
  {
    |p| >= 1 &&
    if |p| == 1 then p[0] == 0 || !DeadAt(ss, [p[0] - 1])
    else p[0] < |ss| && FirstOfRun(Child(ss[p[0]], p[1]), p[2..])
  }

  /** The warnings are exactly the flagged positions, each once, the hint on the
      first flagged statement of each run. */
  ghost predicate Reports(ws: seq<Warning>, ss: Block) {
    (forall wn :: wn in ws <==> Flagged(ss, wn)) && Distinct(ws)
  }

  /** The walk has passed position `p` once it is done with the statements before
      the `i`-th and, with `b` > 0, with the `i`-th itself and its first b - 1 branches. */
  ghost predicate Passed(p: Path, i: nat, b: nat) {
    |p| >= 1 && (p[0] < i || (p[0] == i && if |p| == 1 then b >= 1 else b >= p[1] + 2))
  }

  ghost predicate SoFar(ws: seq<Warning>, ss: Block, i: nat, b: nat) {
    (forall wn :: wn in ws <==> Flagged(ss, wn) && Passed(wn.path, i, b)) && Distinct(ws)
  }

  /** The warnings of branch `b` of statement `i`, placed in the enclosing block. */
  function Below(i: nat, b: nat, sub: seq<Warning>): seq<Warning> {
    seq(|sub|, k requires 0 <= k < |sub| => Warning([i, b] + sub[k].path, sub[k].head))
  }

  lemma BelowMembers(i: nat, b: nat, sub: seq<Warning>, wn: Warning)
    ensures wn in Below(i, b, sub) <==>
              |wn.path| >= 2 && wn.path[0] == i && wn.path[1] == b && Warning(wn.path[2..], wn.head) in sub
  {
    var ws := Below(i, b, sub);
    if wn in ws {
      var k :| 0 <= k < |ws| && ws[k] == wn;
      assert wn.path[2..] == sub[k].path;
      assert sub[k] == Warning(wn.path[2..], wn.head);
    }
    if |wn.path| >= 2 && wn.path[0] == i && wn.path[1] == b && Warning(wn.path[2..], wn.head) in sub {
      var k :| 0 <= k < |sub| && sub[k] == Warning(wn.path[2..], wn.head);
      assert [i, b] + sub[k].path == wn.path;
      assert ws[k] == wn;
    }
  }

  lemma BelowNoDuplicates(i: nat, b: nat, sub: seq<Warning>)
    requires Distinct(sub)
    ensures Distinct(Below(i, b, sub))
  {
    var ws := Below(i, b, sub);
    forall k, k' | 0 <= k < k' < |ws|
      ensures ws[k] != ws[k']
    {
      assert ws[k].path[2..] == sub[k].path && ws[k'].path[2..] == sub[k'].path;
    }
  }

  lemma AppendNoDuplicates(ws: seq<Warning>, more: seq<Warning>)
    requires Distinct(ws) && Distinct(more)
    requires forall wn :: wn in more ==> wn !in ws
    ensures Distinct(ws + more)
  {
    var all := ws + more;
    forall k, k' | 0 <= k < k' < |all|
      ensures all[k] != all[k']
    {
      if k < |ws| <= k' {
        assert all[k'] in more && all[k] in ws;
      }
    }
  }

  lemma BelowFlagged(ss: Block, i: nat, b: nat, wn: Warning)
    requires i < |ss| && |wn.path| >= 2 && wn.path[0] == i && wn.path[1] == b
    ensures Flagged(ss, wn) <==> Flagged(Child(ss[i], b), Warning(wn.path[2..], wn.head))
  {
  }

  lemma AddHead(ws: seq<Warning>, ss: Block, i: nat, more: seq<Warning>)
    requires i < |ss| && SoFar(ws, ss, i, 0)
    requires more == if DeadAt(ss, [i]) then [Warning([i], !DeadAt(ss, [i - 1]))] else []
    ensures SoFar(ws + more, ss, i, 1)
  {
    forall wn: Warning
      ensures wn in more <==> Flagged(ss, wn) && wn.path == [i]
    {
    }
    PassedHead(i);
    AppendNoDuplicates(ws, more);
  }

  lemma PassedHead(i: nat)
    ensures forall p :: Passed(p, i, 1) <==> Passed(p, i, 0) || p == [i]
  {
  }

  lemma AddBranch(ws: seq<Warning>, ss: Block, i: nat, b: nat, sub: seq<Warning>)
    requires i < |ss| && SoFar(ws, ss, i, b + 1) && Reports(sub, Child(ss[i], b))
    ensures SoFar(ws + Below(i, b, sub), ss, i, b + 2)
  {
    var more := Below(i, b, sub);
    forall wn: Warning
      ensures wn in more <==> Flagged(ss, wn) && Passed(wn.path, i, b + 2) && !Passed(wn.path, i, b + 1)
    {
      BelowMembers(i, b, sub, wn);
      if |wn.path| >= 2 && wn.path[0] == i && wn.path[1] == b {
        BelowFlagged(ss, i, b, wn);
      }
    }
    BelowNoDuplicates(i, b, sub);
    AppendNoDuplicates(ws, more);
  }

  lemma OnlyTwoBranches(ss: Block, p: Path)
    requires DeadAt(ss, p)
    ensures |p| > 1 ==> p[1] <= 1
  {
    assert |p| > 1 ==> DeadAt(Child(ss[p[0]], p[1]), p[2..]);
  }

  lemma AddStatement(ws: seq<Warning>, ss: Block, i: nat, head: seq<Warning>, sub0: seq<Warning>, sub1: seq<Warning>)
    requires i < |ss| && SoFar(ws, ss, i, 0)
    requires head == if DeadAt(ss, [i]) then [Warning([i], !DeadAt(ss, [i - 1]))] else []
    requires Reports(sub0, Child(ss[i], 0)) && Reports(sub1, Child(ss[i], 1))
    ensures SoFar(ws + head + Below(i, 0, sub0) + Below(i, 1, sub1), ss, i + 1, 0)
  {
    AddHead(ws, ss, i, head);
    AddBranch(ws + head, ss, i, 0, sub0);
    AddBranch(ws + head + Below(i, 0, sub0), ss, i, 1, sub1);
    forall wn: Warning | Flagged(ss, wn)
      ensures Passed(wn.path, i + 1, 0) <==> Passed(wn.path, i, 3)
    {
      OnlyTwoBranches(ss, wn.path);
    }
  }

  lemma AllReported(ws: seq<Warning>, ss: Block)
    requires SoFar(ws, ss, |ss|, 0)
    ensures Reports(ws, ss)
  {
  }

  lemma NothingReported(ss: Block)
    ensures SoFar([], ss, 0, 0) && Reports([], [])
  {
  }

  /** The rule's walk over one block: the flags `seen` and `hinted`, the nested blocks in order. */
  method CheckDeadAfterReturn(stmts: Block) returns (ws: seq<Warning>)
    ensures Reports(ws, stmts)
    decreases stmts
  {
    hide SoFar, Reports;
    ws := [];
    NothingReported(stmts);
    var seen, hinted := false, false;
    for i := 0 to |stmts|
      invariant seen <==> exists j :: 0 <= j < i && Terminates(stmts[j])
      invariant hinted <==> i > 0 && DeadAt(stmts, [i - 1])
      invariant SoFar(ws, stmts, i, 0)
    {
      var s := stmts[i];
      var head := [];
      if seen {
        if !hinted {
          hinted := true;
          head := [Warning([i], true)];
        } else {
          head := [Warning([i], false)];
        }
      }
      if s.Return? {
        seen := true;
      }
      var sub0, sub1 := [], [];
      if s.If? {
        sub0 := CheckDeadAfterReturn(s.thn);
        sub1 := CheckDeadAfterReturn(s.els);
        if EndsInReturn(s.thn) && EndsInReturn(s.els) {
          seen := true;
        }
      } else if s.While? || s.For? {
        sub0 := CheckDeadAfterReturn(s.body);
      }
      AddStatement(ws, stmts, i, head, sub0, sub1);
      ws := ws + head + Below(i, 0, sub0) + Below(i, 1, sub1);
    }
    AllReported(ws, stmts);
  }
}
