/** How awk turns statements into a graph of nodes and runs it: chain_node, chain_expr, chain_loop, chain_group and the
    node-walking loop of evaluate. Expressions are functions of the state. */
module AwkChain {
  import opened Wrappers

  /** The contents of a var that istrue looks at. */
  datatype Value = Value(numeric: bool, number: real, text: string)

  predicate IsTrue(v: Value) {
    if v.numeric then v.number != 0.0 else v.text != ""
  }

  /** What evaluating a missing expression yields. */
  const EMPTY := Value(false, 0.0, "")

  /** An expression may call functions, which may execute next or exit. */
  datatype Signal = Proceed | SkipRecord(file: bool) | Leave(code: Value)
  datatype Result<S> = Result(value: Value, state: S, signal: Signal)
  type Expr<!S> = S -> Result<S>

  function Eval<S>(e: Option<Expr<S>>, s: S): Result<S> {
    match e
    case None => Result(EMPTY, s, Proceed)
    case Some(f) => f(s)
  }

  /** How a chain ends: at its end or by a break outside of loops, by return, by next or nextfile, or by exit. */
  datatype Ending =
    | FellOff
    | Returned(value: Value, signal: Signal)
    | NextRecord(file: bool)
    | Exited(code: Value)
    | Died

  // ----- statements and their meaning

  datatype Stmt<!S> =
    | Simple(e: Option<Expr<S>>)
    | Action(act: Expr<S>)
    | Group(body: Stmts<S>)
    | If(cond: Option<Expr<S>>, thn: Stmt<S>)
    | IfElse(cond: Option<Expr<S>>, thn: Stmt<S>, els: Stmt<S>)
    | While(cond: Option<Expr<S>>, loop: Stmt<S>)
    | Do(loop: Stmt<S>, cond: Option<Expr<S>>)
    | For(init: Option<Expr<S>>, cond: Option<Expr<S>>, step: Option<Expr<S>>, loop: Stmt<S>)
    | ForIn(start: Expr<S>, advance: Expr<S>, loop: Stmt<S>)
    | Break
    | Continue
    | Return(e: Option<Expr<S>>)
    | Next(file: bool)
    | Exit(e: Option<Expr<S>>)
  datatype Stmts<!S> = Nil | Cons(head: Stmt<S>, tail: Stmts<S>)

  /** How a statement ends. */
  datatype Outcome = Normal | Broke | Continued | Ended(ending: Ending)

  /** The ending that a signal stands for. */
  function Signalled(signal: Signal): Outcome {
    match signal
    case Proceed => Normal
    case SkipRecord(file) => Ended(NextRecord(file))
    case Leave(code) => Ended(Exited(code))
  }

  /** The condition of a loop: for (;;) has none. */
  function ForTest<S>(cond: Option<Expr<S>>): Option<Option<Expr<S>>> {
    if cond.None? then None else Some(cond)
  }

  /** The value returned, or the exit status. */
  function EndOf<S>(st: Stmt<S>, r: Result<S>): Ending
    requires st.Return? || st.Exit?
  {
    match r.signal
    case Leave(code) => Exited(code)
    case _ => if st.Return? then Returned(r.value, r.signal) else Exited(r.value)
  }

  /** The meaning of a statement: its outcome and the state after it, if the loops turn at most n times. */
  function Exec<S>(st: Stmt<S>, s: S, n: nat): Option<(Outcome, S)>
    decreases n, st, 0
  {
    match st
    case Simple(e) => var r := Eval(e, s); Some((Signalled(r.signal), r.state))
    case Action(act) => var r := act(s); Some((Signalled(r.signal), r.state))
    case Group(body) => ExecAll(body, s, n)
    case If(cond, thn) =>
      var r := Eval(cond, s);
      if !r.signal.Proceed? then Some((Signalled(r.signal), r.state))
      else if IsTrue(r.value) then Exec(thn, r.state, n)
      else Some((Normal, r.state))
    case IfElse(cond, thn, els) =>
      var r := Eval(cond, s);
      if !r.signal.Proceed? then Some((Signalled(r.signal), r.state))
      else if IsTrue(r.value) then Exec(thn, r.state, n)
      else Exec(els, r.state, n)
    case While(cond, loop) => ExecLoop(Some(cond), None, loop, s, n)
    case Do(loop, cond) => AfterBody(Exec(loop, s, n), Some(cond), None, loop, n)
    case For(init, cond, step, loop) =>
      var r := Eval(init, s);
      if !r.signal.Proceed? then Some((Signalled(r.signal), r.state))
      else ExecLoop(ForTest(cond), step, loop, r.state, n)
    case ForIn(start, advance, loop) =>
      var r := start(s);
      if !r.signal.Proceed? then Some((Signalled(r.signal), r.state))
      else ExecLoop(Some(Some(advance)), None, loop, r.state, n)
    case Break => Some((Broke, s))
    case Continue => Some((Continued, s))
    case Return(e) => var r := Eval(e, s); Some((Ended(EndOf(st, r)), r.state))
    case Next(file) => Some((Ended(NextRecord(file)), s))
    case Exit(e) => var r := Eval(e, s); Some((Ended(EndOf(st, r)), r.state))
  }

  function ExecAll<S>(ss: Stmts<S>, s: S, n: nat): Option<(Outcome, S)>
    decreases n, ss, 0
  {
    match ss
    case Nil => Some((Normal, s))
    case Cons(head, tail) =>
      match Exec(head, s, n)
      case None => None
      case Some((o, s')) => if o.Normal? then ExecAll(tail, s', n) else Some((o, s'))
  }

  /** While the test holds: the body, then the step. */
  function ExecLoop<S>(test: Option<Option<Expr<S>>>, step: Option<Expr<S>>, loop: Stmt<S>,
      s: S, n: nat): Option<(Outcome, S)>
    decreases n, loop, 1
  {
    if n == 0 then None
    else if test.None? then AfterBody(Exec(loop, s, n - 1), test, step, loop, n - 1)
    else
      var r := Eval(test.value, s);
      if !r.signal.Proceed? then Some((Signalled(r.signal), r.state))
      else if !IsTrue(r.value) then Some((Normal, r.state))
      else AfterBody(Exec(loop, r.state, n - 1), test, step, loop, n - 1)
  }

  /** What follows a turn of the body: break leaves the loop, continue goes on with the step. */
  function AfterBody<S>(turn: Option<(Outcome, S)>, test: Option<Option<Expr<S>>>, step: Option<Expr<S>>,
      loop: Stmt<S>, n: nat): Option<(Outcome, S)>
    decreases n, loop, 2
  {
    match turn
    case None => None
    case Some((o, s)) =>
      if o.Broke? then Some((Normal, s))
      else if o.Ended? then turn
      else
        var r := Eval(step, s);
        if !r.signal.Proceed? then Some((Signalled(r.signal), r.state)) else ExecLoop(test, step, loop, r.state, n)
  }

  // ----- what the meaning says of conditions and signals

  /** A branch is taken if the condition is a number other than 0 or a text that is not empty. */
  lemma {:induction false} IfMeans<S>(e: Expr<S>, thn: Stmt<S>, els: Stmt<S>, s: S, n: nat)
    requires e(s).signal.Proceed?
    ensures var v := e(s).value;
            && (if v.numeric then v.number != 0.0 else v.text != "") ==>
              && Exec(If(Some(e), thn), s, n) == Exec(thn, e(s).state, n)
              && Exec(IfElse(Some(e), thn, els), s, n) == Exec(thn, e(s).state, n)
    ensures var v := e(s).value;
            && (if v.numeric then v.number == 0.0 else v.text == "") ==>
              && Exec(If(Some(e), thn), s, n) == Some((Normal, e(s).state))
              && Exec(IfElse(Some(e), thn, els), s, n) == Exec(els, e(s).state, n)
  {
  }

  /** A loop whose condition is the number 0 or the empty text ends; otherwise the body is executed once, and unless it
      breaks or ends the loop is executed again. */
  lemma {:induction false} WhileMeans<S>(e: Expr<S>, loop: Stmt<S>, s: S, n: nat)
    requires e(s).signal.Proceed? && n > 0
    ensures var v := e(s).value;
            && (if v.numeric then v.number == 0.0 else v.text == "") ==>
              Exec(While(Some(e), loop), s, n) == Some((Normal, e(s).state))
    ensures var v := e(s).value;
            && (if v.numeric then v.number != 0.0 else v.text != "") ==>
              Exec(While(Some(e), loop), s, n) ==
                match Exec(loop, e(s).state, n - 1)
                case None => None
                case Some((Broke, s')) => Some((Normal, s'))
                case Some((Ended(x), s')) => Some((Ended(x), s'))
                case Some((_, s')) => Exec(While(Some(e), loop), s', n - 1)
  {
    LoopTurn(Some(Some(e)), None, loop, s, n);
    match Exec(loop, e(s).state, n - 1) {
      case None =>
      case Some((_, s')) => WhileLoop(e, loop, s', n - 1);
    }
  }

  lemma {:induction false} WhileLoop<S>(e: Expr<S>, loop: Stmt<S>, s: S, n: nat)
    ensures Exec(While(Some(e), loop), s, n) == ExecLoop(Some(Some(e)), None, loop, s, n)
  {
  }

  lemma {:induction false} ForLoop<S>(cond: Option<Expr<S>>, step: Option<Expr<S>>, loop: Stmt<S>, s: S, n: nat)
    ensures Exec(For(None, cond, step, loop), s, n)
            == ExecLoop(if cond.None? then None else Some(cond), step, loop, s, n)
  {
  }

  /** One turn of a loop whose condition and step do not end the chain. */
  lemma {:induction false} LoopTurn<S>(test: Option<Option<Expr<S>>>, step: Option<Expr<S>>, loop: Stmt<S>, s: S,
      n: nat)
    requires n > 0 && (test.Some? ==> Eval(test.value, s).signal.Proceed?)
    ensures var r := if test.None? then Result(EMPTY, s, Proceed) else Eval(test.value, s);
            ExecLoop(test, step, loop, s, n) ==
              if test.Some? && !IsTrue(r.value) then Some((Normal, r.state))
              else AfterBody(Exec(loop, r.state, n - 1), test, step, loop, n - 1)
  {
  }

  /** for is while with a step after each turn, and the condition of a for-in loop is whether there is another key. */
  lemma {:induction false} ForMeans<S>(init: Option<Expr<S>>, e: Expr<S>, step: Expr<S>, loop: Stmt<S>, s: S, n: nat)
    requires n > 0 && (init.Some? ==> init.value(s).signal.Proceed?)
    requires var s1 := if init.None? then s else init.value(s).state; e(s1).signal.Proceed?
    ensures var s1 := if init.None? then s else init.value(s).state;
            var v := e(s1).value;
            && (if v.numeric then v.number == 0.0 else v.text == "") ==>
              Exec(For(init, Some(e), Some(step), loop), s, n) == Some((Normal, e(s1).state))
    ensures var s1 := if init.None? then s else init.value(s).state;
            var v := e(s1).value;
            && (if v.numeric then v.number != 0.0 else v.text != "") ==>
              Exec(For(init, Some(e), Some(step), loop), s, n) ==
                match Exec(loop, e(s1).state, n - 1)
                case None => None
                case Some((Broke, s')) => Some((Normal, s'))
                case Some((Ended(x), s')) => Some((Ended(x), s'))
                case Some((_, s')) =>
                  if step(s').signal.Proceed? then Exec(For(None, Some(e), Some(step), loop), step(s').state, n - 1)
                  else Exec(Simple(Some(step)), s', n)
  {
    var s1 := if init.None? then s else init.value(s).state;
    LoopTurn(Some(Some(e)), Some(step), loop, s1, n);
    match Exec(loop, e(s1).state, n - 1) {
      case None =>
      case Some((_, s')) => ForLoop(Some(e), Some(step), loop, step(s').state, n - 1);
    }
  }

  /** Without a condition a branch is not taken, since a missing expression is an empty text, but a for loop goes on. */
  lemma {:induction false} MissingMeans<S>(thn: Stmt<S>, els: Stmt<S>, s: S, n: nat)
    ensures Exec(If(None, thn), s, n) == Some((Normal, s))
    ensures Exec(IfElse(None, thn, els), s, n) == Exec(els, s, n)
    ensures n > 0 ==> Exec(While(None, thn), s, n) == Some((Normal, s))
    ensures n > 0 ==>
              Exec(For(None, None, None, thn), s, n) ==
                match Exec(thn, s, n - 1)
                case None => None
                case Some((Broke, s')) => Some((Normal, s'))
                case Some((Ended(x), s')) => Some((Ended(x), s'))
                case Some((_, s')) => Exec(For(None, None, None, thn), s', n - 1)
  {
    if n > 0 {
      LoopTurn(Some(None), None, thn, s, n);
      LoopTurn(None, None, thn, s, n);
      match Exec(thn, s, n - 1) {
        case None =>
        case Some((_, s')) => ForLoop(None, None, thn, s', n - 1);
      }
    }
  }

  /** An expression that calls a function may end the chain: next and nextfile go on to another record, exit leaves. */
  lemma {:induction false} SignalMeans<S>(e: Expr<S>, thn: Stmt<S>, s: S, n: nat)
    ensures var r := e(s);
            && (r.signal.Proceed? ==> Exec(Simple(Some(e)), s, n) == Some((Normal, r.state)))
            && (r.signal.SkipRecord? ==>
                  Exec(Simple(Some(e)), s, n) == Some((Ended(NextRecord(r.signal.file)), r.state)))
            && (r.signal.Leave? ==> Exec(Simple(Some(e)), s, n) == Some((Ended(Exited(r.signal.code)), r.state)))
            && (!r.signal.Proceed? ==> Exec(If(Some(e), thn), s, n) == Exec(Simple(Some(e)), s, n))
  {
  }

  // ----- the graph of nodes and how evaluate walks it

  /** Nodes are numbered in the order in which they are allocated. */
  datatype Ptr = Null | To(index: nat)

  /** The info of a node: its operation class and whether its left expression is evaluated first. */
  datatype Info =
    | Unset | EXEC(res: bool) | BR | WALKINIT | WALKNEXT | ACTION | RETURN
    | NEXT(file: bool) | EXIT | NEWSOURCE(name: string) | DONE

  datatype Node<!S> = Node(info: Info, l: Option<Expr<S>>, r: Ptr, a: Ptr)

  function NewNode<S>(info: Info): Node<S> {
    Node(info, None, Null, Null)
  }

  datatype Config<S> = At(ptr: Ptr, state: S) | Halt(ending: Ending, state: S)

  /** Where evaluate goes after a node whose expression has been evaluated. */
  function Onward<S>(r: Result<S>, next: Ptr): Config<S> {
    match Signalled(r.signal)
    case Ended(e) => Halt(e, r.state)
    case _ => At(next, r.state)
  }

  /** One turn of the loop of evaluate. */
  function Turn<S>(op: Node<S>, s: S): Config<S> {
    match op.info
    case Unset => Halt(Died, s)
    case EXEC(res) => if res then Onward(Eval(op.l, s), op.a) else At(op.a, s)
    case BR => var r := Eval(op.l, s); Onward(r, if IsTrue(r.value) then op.a else op.r)
    case WALKINIT => Onward(Eval(op.l, s), op.a)
    case WALKNEXT => var r := Eval(op.l, s); Onward(r, if IsTrue(r.value) then op.a else op.r)
    case ACTION => Onward(Eval(op.l, s), op.a)
    case RETURN => var r := Eval(op.l,
            s); Halt(if r.signal.Leave? then Exited(r.signal.code) else Returned(r.value, r.signal), r.state)
    case NEXT(file) => Halt(NextRecord(file), s)
    case EXIT => var r := Eval(op.l, s); Halt(Exited(if r.signal.Leave? then r.signal.code else r.value), r.state)
    case NEWSOURCE(name) => At(op.a, s)
    case DONE => Halt(FellOff, s)
  }

  /** A branch node leads to a if the condition is a number other than 0 or a text that is not empty, else to r. */
  lemma {:induction false} BranchLeads<S>(e: Expr<S>, a: Ptr, r: Ptr, s: S)
    requires e(s).signal.Proceed?
    ensures var v := e(s).value;
            Turn(Node(BR, Some(e), r, a), s)
            == At(if (v.numeric && v.number == 0.0) || (!v.numeric && v.text == "") then r else a, e(s).state)
  {
  }

  /** k turns of the loop of evaluate from the node p; a null pointer ends it. */
  function Walk<S>(g: seq<Node<S>>, p: Ptr, s: S, k: nat): Config<S>
    decreases k
  {
    if k == 0 then At(p, s)
    else if p.Null? then Halt(FellOff, s)
    else if p.index >= |g| then Halt(Died, s)
    else
      match Turn(g[p.index], s)
      case At(p', s') => Walk(g, p', s', k - 1)
      case Halt(e, s') => Halt(e, s')
  }

  lemma {:induction false} WalkOn<S>(g: seq<Node<S>>, p: Ptr, s: S, j: nat, k: nat)
    ensures match Walk(g, p, s, j)
            case At(p', s') => Walk(g, p, s, j + k) == Walk(g, p', s', k)
            case Halt(e, s') => Walk(g, p, s, j + k) == Halt(e, s')
    decreases j
  {
    hide Turn;
    if j > 0 && p.To? && p.index < |g| {
      match Turn(g[p.index], s) {
        case At(p', s') => WalkOn(g, p', s', j - 1, k);
        case Halt(e, s') =>
      }
    }
  }

  // ----- the code of a statement

  /** The node that is last in the chain, and the number of nodes, after the code for a statement,
      if they were p and q. */
  function After<S>(st: Stmt<S>, p: nat, q: nat): (r: (nat, nat))
    ensures r.1 >= q && (r == (p, q) || q <= r.0 < r.1)
    decreases st, 0
  {
    match st
    case Group(body) => AfterAll(body, p, q)
    case If(cond, thn) => var (m, u) := After(thn, q, q + 1); (u, u + 1)
    case IfElse(cond, thn, els) => var (m, u) := After(thn, q, q + 1); After(els, u, u + 1)
    case While(cond, loop) => AfterLoop(loop, q)
    case Do(loop, cond) => AfterLoop(loop, q + 1)
    case For(init, cond, step, loop) => AfterLoop(loop, q + 1)
    case ForIn(start, advance, loop) => AfterLoop(loop, q + 1)
    case _ => (q, q + 1)
  }

  function AfterAll<S>(ss: Stmts<S>, p: nat, q: nat): (r: (nat, nat))
    ensures r.1 >= q && (r == (p, q) || q <= r.0 < r.1)
    decreases ss, 0
  {
    match ss
    case Nil => (p, q)
    case Cons(head, tail) => var (m, u) := After(head, p, q); AfterAll(tail, m, u)
  }

  function AfterLoop<S>(loop: Stmt<S>, q: nat): (r: (nat, nat))
    ensures q <= r.0 < r.1
    decreases loop, 1
  {
    var (m, u) := After(loop, q, q + 3); (u, u + 1)
  }

  ghost predicate Is<S>(g: seq<Node<S>>, i: nat, info: Info, l: Option<Expr<S>>, r: Ptr, a: Ptr)
  {
    i < |g| && g[i] == Node(info, l, r, a)
  }

  /** The graph holds the code of the statement: it starts at node p and was allocated from q on. */
  ghost predicate Code<S>(g: seq<Node<S>>, st: Stmt<S>, p: nat, q: nat, brk: Ptr, cont: Ptr)
    decreases st, 0
  {
    match st
    case Simple(e) => Is(g, p, EXEC(true), e, Null, To(q))
    case Action(act) => Is(g, p, ACTION, Some(act), Null, To(q))
    case Group(body) => CodeAll(g, body, p, q, brk, cont)
    case If(cond, thn) =>
      var (m, u) := After(thn, q, q + 1);
      && Is(g, p, BR, cond, To(u), To(q)) && Code(g, thn, q, q + 1, brk, cont)
      && Is(g, m, EXEC(false), None, Null, To(u))
    case IfElse(cond, thn, els) =>
      var (m, u) := After(thn, q, q + 1);
      && Is(g, p, BR, cond, To(u), To(q)) && Code(g, thn, q, q + 1, brk, cont)
      && Is(g, m, EXEC(false), None, Null, To(After(els, u, u + 1).0)) && Code(g, els, u, u + 1, brk, cont)
    case While(cond, loop) => CodeLoop(g, BR, cond, None, loop, p, q)
    case Do(loop, cond) => Is(g, p, EXEC(false), None, Null, To(q + 1)) && CodeLoop(g, BR, cond, None, loop, q, q + 1)
    case For(init, cond, step, loop) =>
      && Is(g, p, EXEC(true), init, Null, To(q))
      && CodeLoop(g, if cond.None? then EXEC(false) else BR, cond, step, loop, q, q + 1)
    case ForIn(start, advance, loop) =>
      && Is(g, p, WALKINIT, Some(start), Null, To(q))
      && CodeLoop(g, WALKNEXT, Some(advance), None, loop, q, q + 1)
    case Break => Is(g, p, EXEC(false), None, Null, brk)
    case Continue => Is(g, p, EXEC(false), None, Null, cont)
    case Return(e) => Is(g, p, RETURN, e, Null, To(q))
    case Next(file) => Is(g, p, NEXT(file), None, Null, To(q))
    case Exit(e) => Is(g, p, EXIT, e, Null, To(q))
  }

  ghost predicate CodeAll<S>(g: seq<Node<S>>, ss: Stmts<S>, p: nat, q: nat, brk: Ptr, cont: Ptr)
    decreases ss, 0
  {
    match ss
    case Nil => true
    case Cons(head, tail) =>
      var (m, u) := After(head, p, q);
      Code(g, head, p, q, brk, cont) && CodeAll(g, tail, m, u, brk, cont)
  }

  /** The code of a loop: the test at p, the node that continue jumps to at q + 1, the one that break
      jumps to at q + 2. */
  ghost predicate CodeLoop<S>(g: seq<Node<S>>, info: Info, l: Option<Expr<S>>, step: Option<Expr<S>>, loop: Stmt<S>,
      p: nat, q: nat)
    decreases loop, 1
  {
    var (m, u) := After(loop, q, q + 3);
    && Is(g, p, info, l, To(u), To(q)) && Code(g, loop, q, q + 3, To(q + 2), To(q + 1))
    && Is(g, m, EXEC(true), step, Null, To(p))
    && Is(g, q + 1, EXEC(false), None, Null, To(m)) && Is(g, q + 2, EXEC(false), None, Null, To(u))
  }

  /** Where the walk is when a statement has ended. */
  function Place<S>(o: Outcome, s: S, last: nat, brk: Ptr, cont: Ptr): Config<S> {
    match o
    case Normal => At(To(last), s)
    case Broke => At(brk, s)
    case Continued => At(cont, s)
    case Ended(e) => Halt(e, s)
  }

  // ----- from the meaning to the graph

  /** One turn at a node that holds the expected contents. */
  lemma {:induction false} TurnAt<S>(g: seq<Node<S>>, i: nat, info: Info, l: Option<Expr<S>>, r: Ptr, a: Ptr, s: S)
    requires Is(g, i, info, l, r, a)
    ensures Walk(g, To(i), s, 1) == Turn(Node(info, l, r, a), s)
  {
    hide Turn;
    match Turn(Node(info, l, r, a), s) {
      case At(p', s') => assert Walk(g, p', s', 0) == At(p', s');
      case Halt(e, s') =>
    }
  }

  /** The test of a loop node. */
  ghost predicate Tests<S>(info: Info, l: Option<Expr<S>>, test: Option<Option<Expr<S>>>)
  {
    if info == EXEC(false) then test.None? else (info.BR? || info.WALKNEXT?) && test == Some(l)
  }

  /** If the statement ends, the walk from its entry reaches the corresponding place in the same state. */
  lemma {:induction false} Forward<S>(g: seq<Node<S>>, st: Stmt<S>, p: nat, q: nat, brk: Ptr, cont: Ptr, s: S, n: nat)
    returns (k: nat)
    requires Code(g, st, p, q, brk, cont) && Exec(st, s, n).Some?
    ensures Walk(g, To(p), s, k) == var (o, s') := Exec(st, s, n).value; Place(o, s', After(st, p, q).0, brk, cont)
    decreases n, st, 9
  {
    hide Walk, IsTrue, ExecLoop, ExecAll, AfterBody, CodeAll, CodeLoop, AfterAll, AfterLoop, Is;
    match st {
      case Simple(e) => TurnAt(g, p, EXEC(true), e, Null, To(q), s); k := 1;
      case Action(act) => TurnAt(g, p, ACTION, Some(act), Null, To(q), s); k := 1;
      case Group(body) => k := ForwardAll(g, body, p, q, brk, cont, s, n);
      case If(_, _) => k := ForwardIf(g, st, p, q, brk, cont, s, n);
      case IfElse(_, _, _) => k := ForwardIfElse(g, st, p, q, brk, cont, s, n);
      case While(_, _) => k := ForwardLoops(g, st, p, q, brk, cont, s, n);
      case Do(_, _) => k := ForwardLoops(g, st, p, q, brk, cont, s, n);
      case For(_, _, _, _) => k := ForwardLoops(g, st, p, q, brk, cont, s, n);
      case ForIn(_, _, _) => k := ForwardLoops(g, st, p, q, brk, cont, s, n);
      case Break => TurnAt(g, p, EXEC(false), None, Null, brk, s); k := 1;
      case Continue => TurnAt(g, p, EXEC(false), None, Null, cont, s); k := 1;
      case Return(e) => TurnAt(g, p, RETURN, e, Null, To(q), s); k := 1;
      case Next(file) => TurnAt(g, p, NEXT(file), None, Null, To(q), s); k := 1;
      case Exit(e) => TurnAt(g, p, EXIT, e, Null, To(q), s); k := 1;
    }
  }

  lemma {:induction false} ForwardIf<S>(g: seq<Node<S>>, st: Stmt<S>, p: nat, q: nat, brk: Ptr, cont: Ptr, s: S, n: nat)
    returns (k: nat)
    requires st.If?
    requires Code(g, st, p, q, brk, cont) && Exec(st, s, n).Some?
    ensures Walk(g, To(p), s, k) == var (o, s') := Exec(st, s, n).value; Place(o, s', After(st, p, q).0, brk, cont)
    decreases n, st, 8
  {
    hide Walk, IsTrue, Is, ExecLoop, ExecAll, AfterBody, CodeAll, CodeLoop, AfterAll, AfterLoop;
    match st {
      case If(cond, thn) =>
        var (m, u) := After(thn, q, q + 1);
        TurnAt(g, p, BR, cond, To(u), To(q), s);
        k := 1;
        var r := Eval(cond, s);
        if r.signal.Proceed? && IsTrue(r.value) {
          k := ForwardBranch(g, thn, p, q, q + 1, u, brk, cont, s, r.state, n);
        }
    }
  }

  lemma {:induction false} ForwardIfElse<S>(g: seq<Node<S>>, st: Stmt<S>, p: nat, q: nat, brk: Ptr, cont: Ptr, s: S,
      n: nat) returns (k: nat)
    requires st.IfElse?
    requires Code(g, st, p, q, brk, cont) && Exec(st, s, n).Some?
    ensures Walk(g, To(p), s, k) == var (o, s') := Exec(st, s, n).value; Place(o, s', After(st, p, q).0, brk, cont)
    decreases n, st, 8
  {
    hide Walk, IsTrue, Is, ExecLoop, ExecAll, AfterBody, CodeAll, CodeLoop, AfterAll, AfterLoop;
    match st {
      case IfElse(cond, thn, els) =>
        var (m, u) := After(thn, q, q + 1);
        var v := After(els, u, u + 1).0;
        TurnAt(g, p, BR, cond, To(u), To(q), s);
        k := 1;
        var r := Eval(cond, s);
        if r.signal.Proceed? {
          if IsTrue(r.value) {
            k := ForwardBranch(g, thn, p, q, q + 1, v, brk, cont, s, r.state, n);
          } else {
            var j := Forward(g, els, u, u + 1, brk, cont, r.state, n);
            WalkOn(g, To(p), s, 1, j);
            k := 1 + j;
          }
        }
    }
  }

  lemma {:induction false} ForwardLoops<S>(g: seq<Node<S>>, st: Stmt<S>, p: nat, q: nat, brk: Ptr, cont: Ptr, s: S,
      n: nat) returns (k: nat)
    requires st.While? || st.Do? || st.For? || st.ForIn?
    requires Code(g, st, p, q, brk, cont) && Exec(st, s, n).Some?
    ensures Walk(g, To(p), s, k) == var (o, s') := Exec(st, s, n).value; Place(o, s', After(st, p, q).0, brk, cont)
    decreases n, st, 8
  {
    hide Walk, IsTrue, Is, ExecLoop, CodeLoop, AfterLoop, AfterBody;
    match st {
      case While(cond, loop) => k := ForwardLoop(g, BR, cond, Some(cond), None, loop, p, q, s, n);
      case Do(loop, cond) =>
        TurnAt(g, p, EXEC(false), None, Null, To(q + 1), s);
        var j := ForwardBody(g, BR, cond, Some(cond), None, loop, q, q + 1, s, n);
        WalkOn(g, To(p), s, 1, j);
        k := 1 + j;
      case For(init, cond, step, loop) =>
        TurnAt(g, p, EXEC(true), init, Null, To(q), s);
        k := 1;
        var r := Eval(init, s);
        if r.signal.Proceed? {
          var info := if cond.None? then EXEC(false) else BR;
          var j := ForwardLoop(g, info, cond, ForTest(cond), step, loop, q, q + 1, r.state, n);
          WalkOn(g, To(p), s, 1, j);
          k := 1 + j;
        }
      case ForIn(start, advance, loop) =>
        TurnAt(g, p, WALKINIT, Some(start), Null, To(q), s);
        k := 1;
        var r := start(s);
        if r.signal.Proceed? {
          var j := ForwardLoop(g, WALKNEXT, Some(advance), Some(Some(advance)), None, loop, q, q + 1, r.state, n);
          WalkOn(g, To(p), s, 1, j);
          k := 1 + j;
        }
    }
  }

  /** A branch of an if, which ends with a jump to the node after the statement. */
  lemma {:induction false} ForwardBranch<S>(g: seq<Node<S>>, thn: Stmt<S>, p: nat, q: nat, q1: nat, last: nat,
      brk: Ptr, cont: Ptr, s: S, s1: S, n: nat) returns (k: nat)
    requires Code(g, thn, q, q1, brk, cont) && Exec(thn, s1, n).Some? && Walk(g, To(p), s, 1) == At(To(q), s1)
    requires Is(g, After(thn, q, q1).0, EXEC(false), None, Null, To(last))
    ensures Walk(g, To(p), s, k) == var (o, s') := Exec(thn, s1, n).value; Place(o, s', last, brk, cont)
    decreases n, thn, 10
  {
    hide Walk, Code, After;
    var j := Forward(g, thn, q, q1, brk, cont, s1, n);
    WalkOn(g, To(p), s, 1, j);
    k := 1 + j;
    var (o, s') := Exec(thn, s1, n).value;
    if o.Normal? {
      TurnAt(g, After(thn, q, q1).0, EXEC(false), None, Null, To(last), s');
      WalkOn(g, To(p), s, k, 1);
      k := k + 1;
    }
  }

  lemma {:induction false} ForwardAll<S>(g: seq<Node<S>>, ss: Stmts<S>, p: nat, q: nat, brk: Ptr, cont: Ptr, s: S,
      n: nat) returns (k: nat)
    requires CodeAll(g, ss, p, q, brk, cont) && ExecAll(ss, s, n).Some?
    ensures Walk(g, To(p), s, k)
            == var (o, s') := ExecAll(ss, s, n).value; Place(o, s', AfterAll(ss, p, q).0, brk, cont)
    decreases n, ss, 0
  {
    hide Code, After;
    match ss {
      case Nil => k := 0;
      case Cons(head, tail) =>
        var (m, u) := After(head, p, q);
        k := Forward(g, head, p, q, brk, cont, s, n);
        var (o, s') := Exec(head, s, n).value;
        if o.Normal? {
          var j := ForwardAll(g, tail, m, u, brk, cont, s', n);
          WalkOn(g, To(p), s, k, j);
          k := k + j;
        }
    }
  }

  lemma {:induction false} ForwardLoop<S>(g: seq<Node<S>>, info: Info, l: Option<Expr<S>>,
      test: Option<Option<Expr<S>>>, step: Option<Expr<S>>, loop: Stmt<S>, p: nat, q: nat, s: S, n: nat)
    returns (k: nat)
    requires CodeLoop(g, info, l, step, loop, p, q) && Tests(info, l, test) && ExecLoop(test, step, loop, s, n).Some?
    ensures Walk(g, To(p), s, k)
            == var (o, s') := ExecLoop(test, step, loop, s, n).value; Place(o, s', AfterLoop(loop, q).0, Null, Null)
    ensures !ExecLoop(test, step, loop, s, n).value.0.Broke? && !ExecLoop(test, step, loop, s, n).value.0.Continued?
    decreases n, loop, 11
  {
    hide Walk, Code, IsTrue;
    var (m, u) := After(loop, q, q + 3);
    TurnAt(g, p, info, l, To(u), To(q), s);
    k := 1;
    var r := if test.None? then Result(EMPTY, s, Proceed) else Eval(l, s);
    if r.signal.Proceed? && (test.None? || IsTrue(r.value)) {
      var j := ForwardBody(g, info, l, test, step, loop, p, q, r.state, n - 1);
      WalkOn(g, To(p), s, 1, j);
      k := 1 + j;
    }
  }

  /** The body of a loop from its first node on, and all that follows it. */
  lemma {:induction false} ForwardBody<S>(g: seq<Node<S>>, info: Info, l: Option<Expr<S>>,
      test: Option<Option<Expr<S>>>, step: Option<Expr<S>>, loop: Stmt<S>, p: nat, q: nat, s: S, n: nat)
    returns (k: nat)
    requires CodeLoop(g, info, l, step, loop, p, q) && Tests(info, l, test)
            && AfterBody(Exec(loop, s, n), test, step, loop, n).Some?
    ensures Walk(g, To(q), s, k)
            == var (o, s') := AfterBody(Exec(loop, s, n), test, step, loop, n).value;
               Place(o, s', AfterLoop(loop, q).0, Null, Null)
    ensures !AfterBody(Exec(loop, s, n), test, step, loop, n).value.0.Broke?
            && !AfterBody(Exec(loop, s, n), test, step, loop, n).value.0.Continued?
    decreases n, loop, 12
  {
    hide Walk, Code, IsTrue, Exec, ExecLoop;
    var (m, u) := After(loop, q, q + 3);
    k := Forward(g, loop, q, q + 3, To(q + 2), To(q + 1), s, n);
    var (o, s1) := Exec(loop, s, n).value;
    if o.Broke? {
      TurnAt(g, q + 2, EXEC(false), None, Null, To(u), s1);
      WalkOn(g, To(q), s, k, 1);
      k := k + 1;
    } else if !o.Ended? {
      if o.Continued? {
        TurnAt(g, q + 1, EXEC(false), None, Null, To(m), s1);
        WalkOn(g, To(q), s, k, 1);
        k := k + 1;
      }
      TurnAt(g, m, EXEC(true), step, Null, To(p), s1);
      WalkOn(g, To(q), s, k, 1);
      k := k + 1;
      var r := Eval(step, s1);
      if r.signal.Proceed? {
        var j := ForwardLoop(g, info, l, test, step, loop, p, q, r.state, n);
        WalkOn(g, To(q), s, k, j);
        k := k + j;
      }
    }
  }

  // ----- from the graph to the meaning

  /** More turns do not change the meaning. */
  lemma {:induction false} MoreTurns<S>(st: Stmt<S>, s: S, n: nat, m: nat)
    requires n <= m && Exec(st, s, n).Some?
    ensures Exec(st, s, m) == Exec(st, s, n)
    decreases n, st, 0
  {
    hide IsTrue;
    match st {
      case Group(body) => MoreTurnsAll(body, s, n, m);
      case If(cond, thn) =>
        var r := Eval(cond, s);
        if r.signal.Proceed? && IsTrue(r.value) { MoreTurns(thn, r.state, n, m); }
      case IfElse(cond, thn, els) =>
        var r := Eval(cond, s);
        if r.signal.Proceed? {
          if IsTrue(r.value) { MoreTurns(thn, r.state, n, m); } else { MoreTurns(els, r.state, n, m); }
        }
      case While(cond, loop) => MoreTurnsLoop(Some(cond), None, loop, s, n, m);
      case Do(loop, cond) => MoreTurnsBody(Some(cond), None, loop, s, n, m);
      case For(init, cond, step, loop) =>
        var r := Eval(init, s);
        if r.signal.Proceed? { MoreTurnsLoop(ForTest(cond), step, loop, r.state, n, m); }
      case ForIn(start, advance, loop) =>
        var r := start(s);
        if r.signal.Proceed? { MoreTurnsLoop(Some(Some(advance)), None, loop, r.state, n, m); }
      case _ =>
    }
  }

  lemma {:induction false} MoreTurnsAll<S>(ss: Stmts<S>, s: S, n: nat, m: nat)
    requires n <= m && ExecAll(ss, s, n).Some?
    ensures ExecAll(ss, s, m) == ExecAll(ss, s, n)
    decreases n, ss, 0
  {
    match ss {
      case Nil =>
      case Cons(head, tail) =>
        MoreTurns(head, s, n, m);
        var (o, s') := Exec(head, s, n).value;
        if o.Normal? { MoreTurnsAll(tail, s', n, m); }
    }
  }

  lemma {:induction false} MoreTurnsLoop<S>(test: Option<Option<Expr<S>>>, step: Option<Expr<S>>, loop: Stmt<S>, s: S,
      n: nat, m: nat)
    requires n <= m && ExecLoop(test, step, loop, s, n).Some?
    ensures ExecLoop(test, step, loop, s, m) == ExecLoop(test, step, loop, s, n)
    decreases n, loop, 1
  {
    hide IsTrue;
    if test.None? {
      MoreTurnsBody(test, step, loop, s, n - 1, m - 1);
    } else {
      var r := Eval(test.value, s);
      if r.signal.Proceed? && IsTrue(r.value) { MoreTurnsBody(test, step, loop, r.state, n - 1, m - 1); }
    }
  }

  lemma {:induction false} MoreTurnsBody<S>(test: Option<Option<Expr<S>>>, step: Option<Expr<S>>, loop: Stmt<S>, s: S,
      n: nat, m: nat)
    requires n <= m && AfterBody(Exec(loop, s, n), test, step, loop, n).Some?
    ensures AfterBody(Exec(loop, s, m), test, step, loop, m) == AfterBody(Exec(loop, s, n), test, step, loop, n)
    decreases n, loop, 2
  {
    hide ExecLoop, Exec;
    MoreTurns(loop, s, n, m);
    var (o, s') := Exec(loop, s, n).value;
    if !o.Broke? && !o.Ended? {
      var r := Eval(step, s');
      if r.signal.Proceed? { MoreTurnsLoop(test, step, loop, r.state, n, m); }
    }
  }

  /** A walk that halts after k turns and is under way after j turns still has k - j turns to go. */
  lemma {:induction false} UnderWay<S>(g: seq<Node<S>>, p: Ptr, s: S, j: nat, k: nat)
    requires Walk(g, p, s, k).Halt? && Walk(g, p, s, j).At?
    ensures j < k && var c := Walk(g, p, s, j); Walk(g, c.ptr, c.state, k - j) == Walk(g, p, s, k)
  {
    hide Walk;
    if j >= k { WalkOn(g, p, s, k, j - k); } else { WalkOn(g, p, s, j, k - j); }
  }

  /** If the walk from the entry of a statement halts, then the statement ends: what runs forever in the
      meaning does so in the graph. */
  lemma {:induction false} Backward<S>(g: seq<Node<S>>, st: Stmt<S>, p: nat, q: nat, brk: Ptr, cont: Ptr, s: S, k: nat)
    returns (n: nat)
    requires Code(g, st, p, q, brk, cont) && Walk(g, To(p), s, k).Halt?
    ensures Exec(st, s, n).Some?
    decreases k, st, 0
  {
    hide Walk, IsTrue, ExecLoop, ExecAll, AfterBody, CodeAll, CodeLoop, AfterAll, AfterLoop, Is;
    n := 0;
    match st {
      case Group(body) => n := BackwardAll(g, body, p, q, brk, cont, s, k);
      case If(cond, thn) =>
        var (m, u) := After(thn, q, q + 1);
        TurnAt(g, p, BR, cond, To(u), To(q), s);
        var r := Eval(cond, s);
        if r.signal.Proceed? && IsTrue(r.value) {
          UnderWay(g, To(p), s, 1, k);
          n := Backward(g, thn, q, q + 1, brk, cont, r.state, k - 1);
        }
      case IfElse(cond, thn, els) =>
        var (m, u) := After(thn, q, q + 1);
        TurnAt(g, p, BR, cond, To(u), To(q), s);
        var r := Eval(cond, s);
        if r.signal.Proceed? {
          UnderWay(g, To(p), s, 1, k);
          if IsTrue(r.value) {
            n := Backward(g, thn, q, q + 1, brk, cont, r.state, k - 1);
          } else {
            n := Backward(g, els, u, u + 1, brk, cont, r.state, k - 1);
          }
        }
      case While(cond, loop) => n := BackwardLoop(g, BR, cond, Some(cond), None, loop, p, q, s, k);
      case Do(loop, cond) =>
        TurnAt(g, p, EXEC(false), None, Null, To(q + 1), s);
        UnderWay(g, To(p), s, 1, k);
        n := BackwardBody(g, BR, cond, Some(cond), None, loop, q, q + 1, s, k - 1);
      case For(init, cond, step, loop) =>
        TurnAt(g, p, EXEC(true), init, Null, To(q), s);
        var r := Eval(init, s);
        if r.signal.Proceed? {
          UnderWay(g, To(p), s, 1, k);
          var info := if cond.None? then EXEC(false) else BR;
          n := BackwardLoop(g, info, cond, ForTest(cond), step, loop, q, q + 1, r.state, k - 1);
        }
      case ForIn(start, advance, loop) =>
        TurnAt(g, p, WALKINIT, Some(start), Null, To(q), s);
        var r := start(s);
        if r.signal.Proceed? {
          UnderWay(g, To(p), s, 1, k);
          n := BackwardLoop(g, WALKNEXT, Some(advance), Some(Some(advance)), None, loop, q, q + 1, r.state, k - 1);
        }
      case _ =>
    }
  }

  lemma {:induction false} BackwardAll<S>(g: seq<Node<S>>, ss: Stmts<S>, p: nat, q: nat, brk: Ptr, cont: Ptr, s: S,
      k: nat) returns (n: nat)
    requires CodeAll(g, ss, p, q, brk, cont) && Walk(g, To(p), s, k).Halt?
    ensures ExecAll(ss, s, n).Some?
    decreases k, ss, 0
  {
    hide Walk, Code, After, Exec;
    n := 0;
    match ss {
      case Nil =>
      case Cons(head, tail) =>
        var (m, u) := After(head, p, q);
        n := Backward(g, head, p, q, brk, cont, s, k);
        var (o, s') := Exec(head, s, n).value;
        if o.Normal? {
          var j := Forward(g, head, p, q, brk, cont, s, n);
          UnderWay(g, To(p), s, j, k);
          var n' := BackwardAll(g, tail, m, u, brk, cont, s', k - j);
          if n < n' {
            MoreTurns(head, s, n, n');
            n := n';
          } else {
            MoreTurnsAll(tail, s', n', n);
          }
        }
    }
  }

  lemma {:induction false} BackwardLoop<S>(g: seq<Node<S>>, info: Info, l: Option<Expr<S>>,
      test: Option<Option<Expr<S>>>, step: Option<Expr<S>>, loop: Stmt<S>, p: nat, q: nat, s: S, k: nat)
    returns (n: nat)
    requires CodeLoop(g, info, l, step, loop, p, q) && Tests(info, l, test) && Walk(g, To(p), s, k).Halt?
    ensures ExecLoop(test, step, loop, s, n).Some?
    decreases k, loop, 1
  {
    hide Walk, Code, IsTrue, AfterBody;
    var (m, u) := After(loop, q, q + 3);
    TurnAt(g, p, info, l, To(u), To(q), s);
    n := 1;
    var r := if test.None? then Result(EMPTY, s, Proceed) else Eval(l, s);
    if r.signal.Proceed? && (test.None? || IsTrue(r.value)) {
      UnderWay(g, To(p), s, 1, k);
      n := BackwardBody(g, info, l, test, step, loop, p, q, r.state, k - 1);
      n := n + 1;
    }
  }

  lemma {:induction false} BackwardBody<S>(g: seq<Node<S>>, info: Info, l: Option<Expr<S>>,
      test: Option<Option<Expr<S>>>, step: Option<Expr<S>>, loop: Stmt<S>, p: nat, q: nat, s: S, k: nat)
    returns (n: nat)
    requires CodeLoop(g, info, l, step, loop, p, q) && Tests(info, l, test) && Walk(g, To(q), s, k).Halt?
    ensures AfterBody(Exec(loop, s, n), test, step, loop, n).Some?
    decreases k, loop, 2
  {
    hide Walk, Code, IsTrue, Exec, ExecLoop;
    var (m, u) := After(loop, q, q + 3);
    n := Backward(g, loop, q, q + 3, To(q + 2), To(q + 1), s, k);
    var (o, s1) := Exec(loop, s, n).value;
    if !o.Broke? && !o.Ended? {
      var j := Forward(g, loop, q, q + 3, To(q + 2), To(q + 1), s, n);
      if o.Continued? {
        TurnAt(g, q + 1, EXEC(false), None, Null, To(m), s1);
        WalkOn(g, To(q), s, j, 1);
        j := j + 1;
      }
      TurnAt(g, m, EXEC(true), step, Null, To(p), s1);
      WalkOn(g, To(q), s, j, 1);
      j := j + 1;
      var r := Eval(step, s1);
      if r.signal.Proceed? {
        UnderWay(g, To(q), s, j, k);
        var n' := BackwardLoop(g, info, l, test, step, loop, p, q, r.state, k - j);
        if n < n' {
          MoreTurns(loop, s, n, n');
          n := n';
        } else {
          MoreTurnsLoop(test, step, loop, r.state, n', n);
        }
      }
    }
  }

  // ----- a whole chain

  /** How a chain ends after the outcome of its statement: break and continue outside of
      loops jump to a null pointer. */
  function EndingOf(o: Outcome): Ending {
    match o
    case Ended(e) => e
    case _ => FellOff
  }

  ghost predicate Means<S>(st: Stmt<S>, s: S, e: Ending, s': S) {
    exists n: nat :: Exec(st, s, n).Some? && EndingOf(Exec(st, s, n).value.0) == e && Exec(st, s, n).value.1 == s'
  }

  ghost predicate Yields<S>(g: seq<Node<S>>, p: Ptr, s: S, e: Ending, s': S) {
    exists k: nat :: Walk(g, p, s, k) == Halt(e, s')
  }

  /** The chain of a statement ends in a state exactly when the statement does, and with the same ending. */
  lemma {:induction false} ChainMeans<S>(g: seq<Node<S>>, st: Stmt<S>, p: nat, q: nat, s: S, e: Ending, s': S)
    requires Code(g, st, p, q, Null, Null) && Is(g, After(st, p, q).0, DONE, None, Null, Null)
    ensures Means(st, s, e, s') <==> Yields(g, To(p), s, e, s')
  {
    hide Code, Walk, After, Exec;
    if Means(st, s, e, s') {
      var n: nat :| Exec(st, s, n).Some? && EndingOf(Exec(st, s, n).value.0) == e && Exec(st, s, n).value.1 == s';
      var k := ChainHalts(g, st, p, q, s, n);
    }
    if Yields(g, To(p), s, e, s') {
      var k: nat :| Walk(g, To(p), s, k) == Halt(e, s');
      var n := Backward(g, st, p, q, Null, Null, s, k);
      var k' := ChainHalts(g, st, p, q, s, n);
      if k < k' { WalkOn(g, To(p), s, k, k' - k); } else { WalkOn(g, To(p), s, k', k - k'); }
    }
  }

  lemma {:induction false} ChainHalts<S>(g: seq<Node<S>>, st: Stmt<S>, p: nat, q: nat, s: S, n: nat) returns (k: nat)
    requires Code(g, st, p, q, Null, Null) && Is(g, After(st, p, q).0, DONE, None, Null, Null) && Exec(st, s, n).Some?
    ensures Walk(g, To(p), s, k) == var (o, s') := Exec(st, s, n).value; Halt(EndingOf(o), s')
  {
    hide Code, After, Exec;
    k := Forward(g, st, p, q, Null, Null, s, n);
    var (o, s') := Exec(st, s, n).value;
    if !o.Ended? {
      if o.Normal? { TurnAt(g, After(st, p, q).0, DONE, None, Null, Null, s'); }
      WalkOn(g, To(p), s, k, 1);
      k := k + 1;
    }
  }

  // ----- building the graph

  /** Statements without any code: groups of nothing. */
  predicate Blank<S>(st: Stmt<S>) {
    st.Group? && BlankAll(st.body)
  }

  predicate BlankAll<S>(ss: Stmts<S>) {
    match ss
    case Nil => true
    case Cons(head, tail) => Blank(head) && BlankAll(tail)
  }

  lemma {:induction false} BlankCode<S>(st: Stmt<S>, p: nat, q: nat)
    ensures Blank(st) <==> After(st, p, q) == (p, q)
    decreases st
  {
    if st.Group? { BlankCodeAll(st.body, p, q); }
  }

  lemma {:induction false} BlankCodeAll<S>(ss: Stmts<S>, p: nat, q: nat)
    ensures BlankAll(ss) <==> AfterAll(ss, p, q) == (p, q)
    decreases ss
  {
    match ss
    case Nil =>
    case Cons(head, tail) =>
      var (m, u) := After(head, p, q);
      BlankCode(head, p, q);
      BlankCodeAll(tail, m, u);
  }

  /** The nodes of a piece of code without the last one, which belongs to what follows. */
  ghost predicate Kept<S>(g: seq<Node<S>>, g': seq<Node<S>>, p: nat, q: nat, last: nat, end: nat)
  {
    && p < q <= end <= |g| && end <= |g'|
    && (p != last ==> g'[p] == g[p])
    && forall i :: q <= i < end && i != last ==> g'[i] == g[i]
  }

  lemma {:induction false} CodeKept<S>(g: seq<Node<S>>, g': seq<Node<S>>, st: Stmt<S>, p: nat, q: nat, brk: Ptr,
      cont: Ptr)
    requires Code(g, st, p, q, brk, cont) && Kept(g, g', p, q, After(st, p, q).0, After(st, p, q).1)
    ensures Code(g', st, p, q, brk, cont)
    decreases st, 4
  {
    hide CodeLoop, CodeAll, AfterAll, AfterLoop, Kept, Is;
    match st {
      case Group(body) => CodeAllKept(g, g', body, p, q, brk, cont);
      case If(cond, thn) => IfKept(g, g', cond, thn, p, q, brk, cont);
      case IfElse(cond, thn, els) => IfElseKept(g, g', cond, thn, els, p, q, brk, cont);
      case While(_, _) => LoopsKept(g, g', st, p, q, brk, cont);
      case Do(_, _) => LoopsKept(g, g', st, p, q, brk, cont);
      case For(_, _, _, _) => LoopsKept(g, g', st, p, q, brk, cont);
      case ForIn(_, _, _) => LoopsKept(g, g', st, p, q, brk, cont);
      case _ => KeptSingle(g, g', st, p, q, brk, cont);
    }
  }

  lemma {:induction false} KeptOrder<S>(g: seq<Node<S>>, g': seq<Node<S>>, p: nat, q: nat, last: nat, end: nat)
    requires Kept(g, g', p, q, last, end)
    ensures p < q <= end
  {
  }

  lemma {:induction false} IfKept<S>(g: seq<Node<S>>, g': seq<Node<S>>, cond: Option<Expr<S>>, thn: Stmt<S>, p: nat,
      q: nat, brk: Ptr, cont: Ptr)
    requires Code(g, If(cond, thn), p, q, brk, cont)
            && Kept(g, g', p, q, After(If(cond, thn), p, q).0, After(If(cond, thn), p, q).1)
    ensures Code(g', If(cond, thn), p, q, brk, cont)
    decreases thn, 5
  {
    hide Kept, Is;
    var (last, end) := After(If(cond, thn), p, q);
    KeptOrder(g, g', p, q, last, end);
    var (m, u) := After(thn, q, q + 1);
    KeptAt(g, g', p, q, last, end, p, BR, cond, To(u), To(q));
    KeptPart(g, g', p, q, last, end, q, q + 1, m, u);
    CodeKept(g, g', thn, q, q + 1, brk, cont);
    assert (last, end) == (u, u + 1) && m < u;
    KeptAt(g, g', p, q, last, end, m, EXEC(false), None, Null, To(u));
  }

  lemma {:induction false} IfElseCode<S>(g: seq<Node<S>>, cond: Option<Expr<S>>, thn: Stmt<S>, els: Stmt<S>, p: nat,
      q: nat, brk: Ptr, cont: Ptr)
    ensures var (m, u) := After(thn, q, q + 1);
            Code(g, IfElse(cond, thn, els), p, q, brk, cont) <==>
              && Is(g, p, BR, cond, To(u), To(q)) && Code(g, thn, q, q + 1, brk, cont)
              && Is(g, m, EXEC(false), None, Null, To(After(els, u, u + 1).0)) && Code(g, els, u, u + 1, brk, cont)
  {
    hide Is, After;
  }

  lemma {:induction false} IfElseAfter<S>(cond: Option<Expr<S>>, thn: Stmt<S>, els: Stmt<S>, p: nat, q: nat)
    ensures After(IfElse(cond, thn, els), p, q) == var (m, u) := After(thn, q, q + 1); After(els, u, u + 1)
  {
    hide AfterAll, AfterLoop;
  }

  lemma {:induction false} IfElseKept<S>(g: seq<Node<S>>, g': seq<Node<S>>, cond: Option<Expr<S>>, thn: Stmt<S>,
      els: Stmt<S>, p: nat, q: nat, brk: Ptr, cont: Ptr)
    requires Code(g, IfElse(cond, thn, els), p, q, brk, cont)
            && Kept(g, g', p, q, After(IfElse(cond, thn, els), p, q).0, After(IfElse(cond, thn, els), p, q).1)
    ensures Code(g', IfElse(cond, thn, els), p, q, brk, cont)
    decreases IfElse(cond, thn, els), 3
  {
    hide Kept, Is, Code, After;
    IfElseCode(g, cond, thn, els, p, q, brk, cont);
    IfElseCode(g', cond, thn, els, p, q, brk, cont);
    IfElseAfter(cond, thn, els, p, q);
    var (last, end) := After(IfElse(cond, thn, els), p, q);
    KeptOrder(g, g', p, q, last, end);
    var (m, u) := After(thn, q, q + 1);
    KeptAt(g, g', p, q, last, end, p, BR, cond, To(u), To(q));
    KeptPart(g, g', p, q, last, end, q, q + 1, m, u);
    CodeKept(g, g', thn, q, q + 1, brk, cont);
    assert (last, end) == After(els, u, u + 1) && m < u;
    KeptAt(g, g', p, q, last, end, m, EXEC(false), None, Null, To(last));
    KeptPart(g, g', p, q, last, end, u, u + 1, last, end);
    CodeKept(g, g', els, u, u + 1, brk, cont);
  }

  /** A node of the code, other than the last one, stays as it is. */
  lemma {:induction false} KeptAt<S>(g: seq<Node<S>>, g': seq<Node<S>>, p: nat, q: nat, last: nat, end: nat, i: nat,
      info: Info, l: Option<Expr<S>>, r: Ptr, a: Ptr)
    requires Kept(g, g', p, q, last, end) && (i == p || q <= i < end) && i != last && Is(g, i, info, l, r, a)
    ensures Is(g', i, info, l, r, a)
  {
  }

  /** The nodes of a part of the code. */
  lemma {:induction false} KeptPart<S>(g: seq<Node<S>>, g': seq<Node<S>>, p: nat, q: nat, last: nat, end: nat,
      p1: nat, q1: nat, last1: nat, end1: nat)
    requires Kept(g, g', p, q, last, end) && (p1 == p || q <= p1) && p1 < q1 && q <= q1 <= end1 <= end
            && (last == last1 || end1 <= last)
    ensures Kept(g, g', p1, q1, last1, end1)
  {
  }

  lemma {:induction false} KeptSingle<S>(g: seq<Node<S>>, g': seq<Node<S>>, st: Stmt<S>, p: nat, q: nat, brk: Ptr,
      cont: Ptr)
    requires Single(st) && Code(g, st, p, q, brk, cont) && Kept(g, g', p, q, q, q + 1)
    ensures Code(g', st, p, q, brk, cont)
  {
  }

  lemma {:induction false} LoopsKept<S>(g: seq<Node<S>>, g': seq<Node<S>>, st: Stmt<S>, p: nat, q: nat, brk: Ptr,
      cont: Ptr)
    requires st.While? || st.Do? || st.For? || st.ForIn?
    requires Code(g, st, p, q, brk, cont) && Kept(g, g', p, q, After(st, p, q).0, After(st, p, q).1)
    ensures Code(g', st, p, q, brk, cont)
    decreases st, 3
  {
    hide CodeLoop;
    match st {
      case While(cond, loop) => LoopKept(g, g', BR, cond, None, loop, p, q);
      case Do(loop, cond) => LoopKept(g, g', BR, cond, None, loop, q, q + 1);
      case For(init, cond, step, loop) =>
        LoopKept(g, g', if cond.None? then EXEC(false) else BR, cond, step, loop, q, q + 1);
      case ForIn(start, advance, loop) => LoopKept(g, g', WALKNEXT, Some(advance), None, loop, q, q + 1);
    }
  }

  lemma {:induction false} CodeAllKept<S>(g: seq<Node<S>>, g': seq<Node<S>>, ss: Stmts<S>, p: nat, q: nat, brk: Ptr,
      cont: Ptr)
    requires CodeAll(g, ss, p, q, brk, cont) && Kept(g, g', p, q, AfterAll(ss, p, q).0, AfterAll(ss, p, q).1)
    ensures CodeAll(g', ss, p, q, brk, cont)
    decreases ss, 0
  {
    match ss
    case Nil =>
    case Cons(head, tail) =>
      var (m, u) := After(head, p, q);
      CodeKept(g, g', head, p, q, brk, cont);
      CodeAllKept(g, g', tail, m, u, brk, cont);
  }

  lemma {:induction false} LoopKept<S>(g: seq<Node<S>>, g': seq<Node<S>>, info: Info, l: Option<Expr<S>>,
      step: Option<Expr<S>>, loop: Stmt<S>, p: nat, q: nat)
    requires CodeLoop(g, info, l, step, loop, p, q) && Kept(g, g', p, q, AfterLoop(loop, q).0, AfterLoop(loop, q).1)
    ensures CodeLoop(g', info, l, step, loop, p, q)
    decreases loop, 5
  {
    CodeKept(g, g', loop, q, q + 3, To(q + 2), To(q + 1));
  }

  /** Statements of a single node. */
  predicate Single<S>(st: Stmt<S>) {
    st.Simple? || st.Action? || st.Break? || st.Continue? || st.Return? || st.Next? || st.Exit?
  }

  lemma {:induction false} GroupDone<S>(g: seq<Node<S>>, body: Stmts<S>, p: nat, q: nat, brk: Ptr, cont: Ptr)
    ensures Blank(Group(body)) <==> BlankAll(body)
    ensures After(Group(body), p, q) == AfterAll(body, p, q)
    ensures Code(g, Group(body), p, q, brk, cont) <==> CodeAll(g, body, p, q, brk, cont)
  {
  }

  /** g' is g but for the nodes of changed, and longer. */
  ghost predicate Patched<S>(g: seq<Node<S>>, g': seq<Node<S>>, changed: set<nat>)
  {
    |g| <= |g'| && forall i :: 0 <= i < |g| && i !in changed ==> g'[i] == g[i]
  }

  lemma {:induction false} PatchedAgain<S>(g: seq<Node<S>>, g1: seq<Node<S>>, g2: seq<Node<S>>, one: set<nat>,
      two: set<nat>, all: set<nat>)
    requires Patched(g, g1, one) && Patched(g1, g2, two) && forall i :: (i in one || i in two) && i < |g| ==> i in all
    ensures Patched(g, g2, all)
  {
  }

  /** g' is g with node p filled in and an empty node appended. */
  ghost predicate Added<S>(g: seq<Node<S>>, g': seq<Node<S>>, p: nat, info: Info)
  {
    && |g'| == |g| + 1 && Patched(g, g', {p}) && Is(g', p, info, None, Null, To(|g|))
    && Is(g', |g|, DONE, None, Null, Null)
  }

  lemma {:induction false} AddedFacts<S>(g: seq<Node<S>>, g': seq<Node<S>>, p: nat, info: Info)
    requires Added(g, g', p, info)
    ensures |g'| == |g| + 1 && Patched(g, g', {p}) && Is(g', p, info, None, Null, To(|g|))
    ensures p < |g| ==> g'[p] == Node(info, None, Null, To(|g|))
    ensures g'[|g|] == NewNode(DONE)
  {
  }

  lemma {:induction false} HeadFacts<S>(g: seq<Node<S>>, p: nat, info: Info, l: Option<Expr<S>>, r: Ptr, a: Ptr)
    requires Is(g, p, info, l, r, a)
    ensures p < |g| && g[p] == Node(info, l, r, a)
  {
  }

  lemma {:induction false} PatchedFacts<S>(g: seq<Node<S>>, g': seq<Node<S>>, changed: set<nat>)
    requires Patched(g, g', changed)
    ensures |g| <= |g'| && forall i :: 0 <= i < |g| && i !in changed ==> g'[i] == g[i]
  {
  }

  lemma {:induction false} DoNodes<S>(g: seq<Node<S>>, begun: seq<Node<S>>, mid: seq<Node<S>>, fin: seq<Node<S>>,
      p: nat, q: nat)
    requires p < q == |g| && Added(g, begun, p, EXEC(false)) && Patched(begun, mid, {q})
    requires |fin| == |mid| && (forall i :: 0 <= i < |mid| && i != q && i != p ==> fin[i] == mid[i])
            && fin[p] == mid[p].(a := To(q + 1))
    ensures Patched(g, fin, {p}) && Is(fin, p, EXEC(false), None, Null, To(q + 1))
  {
  }

  lemma {:induction false} ForNodes<S>(g: seq<Node<S>>, begun: seq<Node<S>>, init: Option<Expr<S>>,
      start: seq<Node<S>>, mid: seq<Node<S>>, fin: seq<Node<S>>, p: nat, q: nat)
    requires p < q == |g| && Added(g, begun, p, EXEC(true)) && start == begun[p := begun[p].(l := init)]
    requires Patched(start, mid, {q}) && |fin| == |mid| && forall i :: 0 <= i < |mid| && i != q ==> fin[i] == mid[i]
    ensures Patched(g, fin, {p}) && Is(fin, p, EXEC(true), init, Null, To(q))
  {
  }

  lemma {:induction false} ForInNodes<S>(g: seq<Node<S>>, begun: seq<Node<S>>, start: Expr<S>, mid: seq<Node<S>>,
      fin: seq<Node<S>>, p: nat, q: nat)
    requires p < q == |g| && |begun| == q + 1 && Patched(g, begun, {p})
            && Is(begun, p, WALKINIT, Some(start), Null, To(q))
    requires Patched(begun, mid, {q}) && |fin| == |mid| && forall i :: 0 <= i < |mid| && i != q ==> fin[i] == mid[i]
    ensures Patched(g, fin, {p}) && Is(fin, p, WALKINIT, Some(start), Null, To(q))
  {
  }

  lemma {:induction false} IfNodes<S>(g: seq<Node<S>>, cond: Option<Expr<S>>, start: seq<Node<S>>, mid: seq<Node<S>>,
      next: seq<Node<S>>, p: nat, m: nat)
    requires var q, u := |g|, |mid|;
             && p < q && |start| == q + 1 && Patched(g, start, {p}) && Is(start, p, BR, cond, Null, To(q))
             && Patched(start, mid, {q}) && (m == q || q + 1 <= m < u) && m < u && Added(mid, next, m, EXEC(false))
    ensures p < |next| && var fin := next[p := next[p].(r := To(|mid|))];
            && Patched(g, fin, {p}) && Patched(mid, fin, {p, m})
            && Is(fin, p, BR, cond, To(|mid|), To(|g|)) && Is(fin, m, EXEC(false), None, Null, To(|mid|))
  {
  }

  /** The nodes of an if with an else, before the jump over the else branch is filled in. */
  lemma {:induction false} ElseNodes<S>(g: seq<Node<S>>, cond: Option<Expr<S>>, start: seq<Node<S>>,
      mid: seq<Node<S>>, next: seq<Node<S>>, start2: seq<Node<S>>, mid2: seq<Node<S>>, p: nat, m: nat, last: nat)
    requires var q, u := |g|, |mid|;
             && p < q && |start| == q + 1 && Patched(g, start, {p}) && Is(start, p, BR, cond, Null, To(q))
             && Patched(start, mid, {q})
             && (m == q || q + 1 <= m < u) && m < u && Added(mid, next, m, EXEC(false))
             && start2 == next[p := next[p].(r := To(u))]
             && Patched(start2, mid2, {u}) && last < |mid2| && last != m
    ensures m < |mid2| && var fin := mid2[m := mid2[m].(a := To(last))];
            && Patched(g, fin, {p}) && Patched(mid, fin, {p, m}) && Patched(mid2, fin, {m})
            && Is(fin, p, BR, cond, To(|mid|), To(|g|)) && Is(fin, m, EXEC(false), None, Null, To(last))
            && fin[last] == mid2[last]
  {
  }

  lemma {:induction false} Appended<S>(g: seq<Node<S>>, g': seq<Node<S>>)
    requires |g'| == |g| + 2 && g <= g'
    ensures Patched(g, g', {}) && forall i :: 0 <= i < |g| ==> g'[i] == g[i]
  {
  }

  /** The nodes of a loop before its jumps are filled in. */
  lemma {:induction false} LoopNodes<S>(g: seq<Node<S>>, begun: seq<Node<S>>, start: seq<Node<S>>, mid: seq<Node<S>>,
      next: seq<Node<S>>, p: nat, q: nat, m: nat)
    requires p < q == |g| && Added(g, begun, p, BR) && |start| == q + 3 && Patched(begun, start, {})
    requires start[q + 1] == start[q + 2] == NewNode(EXEC(false))
    requires Patched(start, mid, {q}) && Added(mid, next, m, EXEC(true)) && (m == q || q + 3 <= m)
    ensures Is(next, p, BR, None, Null, To(q)) && Is(next, q + 1, EXEC(false), None, Null, Null)
            && Is(next, q + 2, EXEC(false), None, Null, Null)
    ensures Patched(g, next, {p}) && Patched(mid, next, {m})
  {
  }

  lemma {:induction false} LoopDone<S>(mid: seq<Node<S>>, g: seq<Node<S>>, step: Option<Expr<S>>, loop: Stmt<S>,
      p: nat, q: nat)
    requires var (m, u) := After(loop, q, q + 3);
             && p < q && Code(mid, loop, q, q + 3, To(q + 2), To(q + 1)) && |mid| == u
             && Patched(mid, g, {p, q + 1, q + 2, m})
             && Is(g, p, BR, None, To(u), To(q)) && Is(g, m, EXEC(true), step, Null, To(p))
             && Is(g, q + 1, EXEC(false), None, Null, To(m)) && Is(g, q + 2, EXEC(false), None, Null, To(u))
    ensures CodeLoop(g, BR, None, step, loop, p, q)
  {
    hide Code, After;
    CodeKept(mid, g, loop, q, q + 3, To(q + 2), To(q + 1));
  }

  lemma {:induction false} IfDone<S>(mid: seq<Node<S>>, g: seq<Node<S>>, cond: Option<Expr<S>>, thn: Stmt<S>, p: nat,
      q: nat, brk: Ptr, cont: Ptr)
    requires var (m, u) := After(thn, q, q + 1);
             && p < q && Code(mid, thn, q, q + 1, brk, cont) && |mid| == u && Patched(mid, g, {p, m})
             && Is(g, p, BR, cond, To(u), To(q)) && Is(g, m, EXEC(false), None, Null, To(u))
    ensures Code(g, If(cond, thn), p, q, brk, cont)
    ensures After(If(cond, thn), p, q) == (After(thn, q, q + 1).1, After(thn, q, q + 1).1 + 1)
  {
    CodeKept(mid, g, thn, q, q + 1, brk, cont);
  }

  lemma {:induction false} IfElseDone<S>(mid: seq<Node<S>>, mid2: seq<Node<S>>, g: seq<Node<S>>,
      cond: Option<Expr<S>>, thn: Stmt<S>, els: Stmt<S>, p: nat, q: nat, brk: Ptr, cont: Ptr)
    requires var (m, u) := After(thn, q, q + 1);
             var (v, t) := After(els, u, u + 1);
             && p < q && Code(mid, thn, q, q + 1, brk, cont) && |mid| == u && Patched(mid, g, {p, m})
             && Code(mid2, els, u, u + 1, brk, cont) && |mid2| == t && Patched(mid2, g, {m})
             && Is(g, p, BR, cond, To(u), To(q)) && Is(g, m, EXEC(false), None, Null, To(v))
    ensures Code(g, IfElse(cond, thn, els), p, q, brk, cont)
    ensures After(IfElse(cond, thn, els), p, q) == var (m, u) := After(thn, q, q + 1); After(els, u, u + 1)
  {
    hide Code, After, Is;
    IfElseCode(g, cond, thn, els, p, q, brk, cont);
    IfElseAfter(cond, thn, els, p, q);
    var (m, u) := After(thn, q, q + 1);
    CodeKept(mid, g, thn, q, q + 1, brk, cont);
    CodeKept(mid2, g, els, u, u + 1, brk, cont);
  }

  /** Filling in the test of a loop. */
  lemma {:induction false} LoopTest<S>(mid: seq<Node<S>>, g: seq<Node<S>>, info: Info, l: Option<Expr<S>>,
      step: Option<Expr<S>>, loop: Stmt<S>, p: nat, q: nat)
    requires CodeLoop(mid, BR, None, step, loop, p, q) && p < q && |g| == |mid| == AfterLoop(loop, q).1
    requires forall i :: q <= i < |g| ==> g[i] == mid[i]
    requires g[p] == mid[p].(info := info, l := l)
    ensures CodeLoop(g, info, l, step, loop, p, q)
  {
    hide Code, After;
    CodeKept(mid, g, loop, q, q + 3, To(q + 2), To(q + 1));
  }

  lemma {:induction false} WhileDone<S>(g: seq<Node<S>>, cond: Option<Expr<S>>, loop: Stmt<S>, p: nat, q: nat,
      brk: Ptr, cont: Ptr)
    requires CodeLoop(g, BR, cond, None, loop, p, q)
    ensures Code(g, While(cond, loop), p, q, brk, cont) && After(While(cond, loop), p, q) == AfterLoop(loop, q)
  {
  }

  lemma {:induction false} DoDone<S>(g: seq<Node<S>>, loop: Stmt<S>, cond: Option<Expr<S>>, p: nat, q: nat, brk: Ptr,
      cont: Ptr)
    requires CodeLoop(g, BR, cond, None, loop, q, q + 1) && Is(g, p, EXEC(false), None, Null, To(q + 1))
    ensures Code(g, Do(loop, cond), p, q, brk, cont) && After(Do(loop, cond), p, q) == AfterLoop(loop, q + 1)
  {
  }

  lemma {:induction false} ForDone<S>(g: seq<Node<S>>, init: Option<Expr<S>>, cond: Option<Expr<S>>,
      step: Option<Expr<S>>, loop: Stmt<S>, p: nat, q: nat, brk: Ptr, cont: Ptr)
    requires CodeLoop(g, if cond.None? then EXEC(false) else BR, cond, step, loop, q, q + 1)
            && Is(g, p, EXEC(true), init, Null, To(q))
    ensures Code(g, For(init, cond, step, loop), p, q, brk, cont)
            && After(For(init, cond, step, loop), p, q) == AfterLoop(loop, q + 1)
  {
  }

  lemma {:induction false} ForInDone<S>(g: seq<Node<S>>, start: Expr<S>, advance: Expr<S>, loop: Stmt<S>, p: nat,
      q: nat, brk: Ptr, cont: Ptr)
    requires CodeLoop(g, WALKNEXT, Some(advance), None, loop, q, q + 1) && Is(g, p, WALKINIT, Some(start), Null, To(q))
    ensures Code(g, ForIn(start, advance, loop), p, q, brk, cont)
            && After(ForIn(start, advance, loop), p, q) == AfterLoop(loop, q + 1)
  {
  }

  lemma {:induction false} AllDone<S>(mid: seq<Node<S>>, g: seq<Node<S>>, head: Stmt<S>, tail: Stmts<S>, p: nat,
      q: nat, brk: Ptr, cont: Ptr)
    requires var (m, u) := After(head, p, q);
             p < q && Code(mid, head, p, q, brk, cont) && |mid| == u && Patched(mid, g, {m})
                 && CodeAll(g, tail, m, u, brk, cont)
    ensures CodeAll(g, Cons(head, tail), p, q, brk, cont)
    ensures AfterAll(Cons(head, tail), p, q) == var (m, u) := After(head, p, q); AfterAll(tail, m, u)
  {
    hide Code, After;
    CodeKept(mid, g, head, p, q, brk, cont);
  }

  lemma {:induction false} BlankIsCode<S>(g: seq<Node<S>>, st: Stmt<S>, p: nat, q: nat, brk: Ptr, cont: Ptr)
    requires Blank(st)
    ensures Code(g, st, p, q, brk, cont) && After(st, p, q) == (p, q)
    decreases st
  {
    BlankIsCodeAll(g, st.body, p, q, brk, cont);
  }

  lemma {:induction false} BlankIsCodeAll<S>(g: seq<Node<S>>, ss: Stmts<S>, p: nat, q: nat, brk: Ptr, cont: Ptr)
    requires BlankAll(ss)
    ensures CodeAll(g, ss, p, q, brk, cont) && AfterAll(ss, p, q) == (p, q)
    decreases ss
  {
    match ss
    case Nil =>
    case Cons(head, tail) =>
      BlankIsCode(g, head, p, q, brk, cont);
      BlankIsCodeAll(g, tail, p, q, brk, cont);
  }

  lemma {:induction false} BlankDone<S>(g: seq<Node<S>>, head: Stmt<S>, tail: Stmts<S>, p: nat, q: nat, brk: Ptr,
      cont: Ptr)
    requires Blank(head)
    ensures CodeAll(g, tail, p, q, brk, cont) ==> CodeAll(g, Cons(head, tail), p, q, brk, cont)
    ensures AfterAll(Cons(head, tail), p, q) == AfterAll(tail, p, q)
    ensures BlankAll(Cons(head, tail)) <==> BlankAll(tail)
  {
    BlankIsCode(g, head, p, q, brk, cont);
  }

  lemma {:induction false} LoopHead<S>(g: seq<Node<S>>, info: Info, l: Option<Expr<S>>, step: Option<Expr<S>>,
      loop: Stmt<S>, p: nat, q: nat)
    requires CodeLoop(g, info, l, step, loop, p, q)
    ensures Is(g, p, info, l, To(After(loop, q, q + 3).1), To(q))
            && AfterLoop(loop, q) == (After(loop, q, q + 3).1, After(loop, q, q + 3).1 + 1)
  {
  }

  /** A chain under construction: struct chain_s and the globals of the parser. */
  class Chain<S> {
    var nodes: seq<Node<S>>
    var first: Ptr
    var last: nat
    var programname: Option<string>
    var breakPtr: Ptr
    var continuePtr: Ptr
    const progname: string

    constructor (progname: string)
      ensures nodes == [] && first.Null? && programname == None && breakPtr.Null? && continuePtr.Null?
              && this.progname == progname
    {
      this.progname := progname;
      nodes, first, last, programname, breakPtr, continuePtr := [], Null, 0, None, Null, Null;
    }

    /** Nodes can be appended as they are; the last one is still empty. */
    ghost predicate Steady()
      reads this`nodes, this`first, this`last, this`programname
    {
      first.To? && programname == Some(progname) && last < |nodes| && nodes[last] == NewNode(DONE)
    }

    /** The nodes and the last one before the next node is filled in: chain_node may have to start the chain, and to
        record the name of the source. */
    ghost function Ready(): (r: (seq<Node<S>>, nat))
      requires first.To? ==> Steady()
      ensures r.1 < |r.0|
      reads this`nodes, this`first, this`last, this`programname
    {
      if first.Null? then
        if programname == Some(progname) then (nodes + [NewNode(Unset)], |nodes|)
        else (nodes + [Node(NEWSOURCE(progname), None, Null, To(|nodes| + 1)), NewNode(DONE)], |nodes| + 1)
      else (nodes, last)
    }

    method Alloc(info: Info) returns (n: nat)
      modifies this`nodes
      ensures n == |old(nodes)| && nodes == old(nodes) + [NewNode(info)]
    {
      n := |nodes|;
      nodes := nodes + [NewNode(info)];
    }

    /** chain_node: fills in the last node and appends an empty one. */
    method ChainNode(info: Info) returns (n: nat)
      requires first.To? ==> Steady()
      modifies this`nodes, this`first, this`last, this`programname
      ensures Steady() && first == (if old(first).Null? then To(|old(nodes)|) else old(first))
      ensures var (g, p) := old(Ready()); n == p && last == |g| && Added(g, nodes, p, info)
    {
      if first.Null? {
        last := Alloc(Unset);
        first := To(last);
      }
      if programname != Some(progname) {
        programname := Some(progname);
        var _ := FillNode(NEWSOURCE(progname));
      }
      n := FillNode(info);
    }

    /** The last lines of chain_node. */
    method FillNode(info: Info) returns (n: nat)
      requires last < |nodes| && nodes[last].l == None && nodes[last].r == Null
      modifies this`nodes, this`last
      ensures n == old(last) && last == |old(nodes)|
      ensures nodes == old(nodes)[n := Node(info, None, Null, To(|old(nodes)|))] + [NewNode(DONE)]
    {
      n := last;
      nodes := nodes[n := nodes[n].(info := info)];
      last := Alloc(DONE);
      nodes := nodes[n := nodes[n].(a := To(last))];
    }

    /** chain_node, and then its left expression. */
    method HeadNode(info: Info, l: Option<Expr<S>>) returns (n: nat)
      requires first.To? ==> Steady()
      modifies this`nodes, this`first, this`last, this`programname
      ensures Steady() && Ready() == (nodes, last)
              && first == (if old(first).Null? then To(|old(nodes)|) else old(first))
      ensures var (g, p) := old(Ready());
              && n == p && last == |g| && |nodes| == |g| + 1 && Patched(g, nodes, {p})
              && Is(nodes, p, info, l, Null, To(|g|))
    {
      n := ChainNode(info);
      nodes := nodes[n := nodes[n].(l := l)];
    }

    /** What a piece of code of the chain leaves behind. */
    ghost predicate Extends(g: seq<Node<S>>, p: nat, after: (nat, nat))
      reads this`nodes, this`first, this`last, this`programname
    {
      Steady() && |nodes| == after.1 && last == after.0 && Patched(g, nodes, {p})
    }

    /** The last lines of chain_loop: the jumps of the node after the body, of continue and of break. */
    method CloseLoop(n: nat, c: nat, b: nat, n2: nat, step: Option<Expr<S>>, ghost start: Ptr, ghost next: Ptr)
      requires Steady() && n != c && n != b && n != n2 && n != last && c != b && c != n2 && c != last && b != n2
              && b != last && n2 != last
      requires Is(nodes, n, BR, None, Null, start) && Is(nodes, n2, EXEC(true), None, Null, next)
      requires Is(nodes, c, EXEC(false), None, Null, Null) && Is(nodes, b, EXEC(false), None, Null, Null)
      modifies this`nodes
      ensures Steady() && |nodes| == |old(nodes)| && Patched(old(nodes), nodes, {n, c, b, n2})
      ensures Is(nodes, n, BR, None, To(last), start) && Is(nodes, n2, EXEC(true), step, Null, To(n))
      ensures Is(nodes, c, EXEC(false), None, Null, To(n2)) && Is(nodes, b, EXEC(false), None, Null, To(last))
    {
      nodes := nodes[n2 := nodes[n2].(l := step, a := To(n))];
      nodes := nodes[c := nodes[c].(a := To(n2))];
      nodes := nodes[n := nodes[n].(r := To(last))];
      nodes := nodes[b := nodes[b].(a := nodes[n].r)];
    }

    /** chain_loop: the loop around the given body, with the step to be evaluated after it. */
    method ChainLoop(step: Option<Expr<S>>, loop: Stmt<S>) returns (n: nat)
      requires first.To? ==> Steady()
      modifies this`nodes, this`first, this`last, this`programname, this`breakPtr, this`continuePtr
      ensures var (g, p) := old(Ready());
              && n == p && Extends(g, p, AfterLoop(loop, |g|)) && CodeLoop(nodes, BR, None, step, loop, p, |g|)
              && first == if old(first).Null? then To(|old(nodes)|) else old(first)
      ensures breakPtr == old(breakPtr) && continuePtr == old(continuePtr)
      decreases loop, 5
    {
      hide *;
      ghost var (g, p) := Ready();
      var saveBrk, saveCont := breakPtr, continuePtr;
      n := ChainNode(BR);
      SteadyFacts();
      AddedFacts(g, nodes, p, BR);
      ghost var q, begun := |g|, nodes;
      var c := Alloc(EXEC(false));
      continuePtr := To(c);
      var b := Alloc(EXEC(false));
      breakPtr := To(b);
      ghost var start := nodes;
      Appended(begun, start);
      SteadyAgain();
      ChainGroup(loop);
      EndLoop(n, c, b, step, loop, g, begun, start);
      continuePtr := saveCont;
      breakPtr := saveBrk;
    }

    /** The part of chain_loop that follows the body. */
    method EndLoop(n: nat, c: nat, b: nat, step: Option<Expr<S>>, ghost loop: Stmt<S>, ghost g: seq<Node<S>>,
        ghost begun: seq<Node<S>>, ghost start: seq<Node<S>>)
      requires var q := |g|;
               && n < q && c == q + 1 && b == q + 2 && Added(g, begun, n, BR) && |start| == q + 3
               && Patched(begun, start, {})
               && start[c] == start[b] == NewNode(EXEC(false))
               && Extends(start, q, After(loop, q, q + 3)) && Code(nodes, loop, q, q + 3, To(b), To(c))
      modifies this`nodes, this`first, this`last, this`programname
      ensures Extends(g, n, AfterLoop(loop, |g|)) && CodeLoop(nodes, BR, None, step, loop, n, |g|)
              && first == old(first)
    {
      hide *;
      ghost var mid, q := nodes, |g|;
      ExtendsFacts(start, q, After(loop, q, q + 3));
      SteadyFacts();
      var n2 := ChainNode(EXEC(true));
      SteadyFacts();
      AddedFacts(mid, nodes, n2, EXEC(true));
      ghost var next := nodes;
      LoopNodes(g, begun, start, mid, next, n, q, n2);
      CloseLoop(n, c, b, n2, step, To(q), To(last));
      PatchedAgain(mid, next, nodes, {n2}, {n, c, b, n2}, {n, c, b, n2});
      PatchedAgain(g, next, nodes, {n}, {n, c, b, n2}, {n});
      LoopDone(mid, nodes, step, loop, n, q);
      LoopHead(nodes, BR, None, step, loop, n, q);
      NowExtends(g, n, AfterLoop(loop, q));
    }

    lemma {:induction false} SteadyFacts()
      requires Steady()
      ensures first.To? && programname == Some(progname) && last < |nodes| && nodes[last] == NewNode(DONE)
              && Ready() == (nodes, last)
    {
    }

    lemma {:induction false} SteadyAgain()
      requires first.To? && programname == Some(progname) && last < |nodes| && nodes[last] == NewNode(DONE)
      ensures Steady() && Ready() == (nodes, last)
    {
    }

    lemma {:induction false} ExtendsFacts(g: seq<Node<S>>, p: nat, after: (nat, nat))
      requires Extends(g, p, after)
      ensures Steady() && |nodes| == after.1 && last == after.0 && Patched(g, nodes, {p})
    {
    }

    lemma {:induction false} NowExtends(g: seq<Node<S>>, p: nat, after: (nat, nat))
      requires Steady() && |nodes| == after.1 && last == after.0 && Patched(g, nodes, {p})
      ensures Extends(g, p, after)
    {
    }

    /** chain_group: appends the code of a statement. */
    method ChainGroup(st: Stmt<S>)
      requires first.To? ==> Steady()
      modifies this`nodes, this`first, this`last, this`programname, this`breakPtr, this`continuePtr
      ensures breakPtr == old(breakPtr) && continuePtr == old(continuePtr)
      ensures Blank(st) ==>
                nodes == old(nodes) && first == old(first) && last == old(last) && programname == old(programname)
      ensures !Blank(st) || old(first).To? ==>
                var (g, p) := old(Ready());
                && Extends(g, p, After(st, p, |g|)) && Code(nodes, st, p, |g|, breakPtr, continuePtr)
                && first == if old(first).Null? then To(|old(nodes)|) else old(first)
      decreases st, 4
    {
      hide Code, After, BlankAll;
      ghost var g, p := Ready().0, Ready().1;
      BlankCode(st, p, |g|);
      match st {
        case Group(body) => ChainAll(body); GroupDone(nodes, body, p, |g|, breakPtr, continuePtr);
        case If(cond, thn) => ChainIf(cond, thn);
        case IfElse(cond, thn, els) => ChainIfElse(cond, thn, els);
        case While(cond, loop) => ChainWhile(cond, loop);
        case Do(loop, cond) => ChainDo(loop, cond);
        case For(init, cond, step, loop) => ChainFor(init, cond, step, loop);
        case ForIn(start, advance, loop) => ChainForIn(start, advance, loop);
        case _ => ChainSimple(st);
      }
    }

    /** Statements of a single node: expressions, print and delete, break and continue, return, next and exit. */
    method ChainSimple(st: Stmt<S>)
      requires (first.To? ==> Steady()) && Single(st)
      modifies this`nodes, this`first, this`last, this`programname
      ensures var (g, p) := old(Ready());
              && Extends(g, p, After(st, p, |g|)) && Code(nodes, st, p, |g|, breakPtr, continuePtr)
              && first == if old(first).Null? then To(|old(nodes)|) else old(first)
    {
      match st {
        case Simple(e) => var n := ChainNode(EXEC(true)); nodes := nodes[n := nodes[n].(l := e)];
        case Action(act) => var n := ChainNode(ACTION); nodes := nodes[n := nodes[n].(l := Some(act))];
        case Break => var n := ChainNode(EXEC(false)); nodes := nodes[n := nodes[n].(a := breakPtr)];
        case Continue => var n := ChainNode(EXEC(false)); nodes := nodes[n := nodes[n].(a := continuePtr)];
        case Return(e) => var n := ChainNode(RETURN); nodes := nodes[n := nodes[n].(l := e)];
        case Next(file) => var _ := ChainNode(NEXT(file));
        case Exit(e) => var n := ChainNode(EXIT); nodes := nodes[n := nodes[n].(l := e)];
      }
    }

    method ChainIf(cond: Option<Expr<S>>, thn: Stmt<S>)
      requires first.To? ==> Steady()
      modifies this`nodes, this`first, this`last, this`programname, this`breakPtr, this`continuePtr
      ensures var (g, p) := old(Ready());
              && Extends(g, p, After(If(cond, thn), p, |g|))
              && Code(nodes, If(cond, thn), p, |g|, breakPtr, continuePtr)
              && first == if old(first).Null? then To(|old(nodes)|) else old(first)
      ensures breakPtr == old(breakPtr) && continuePtr == old(continuePtr)
      decreases thn, 5
    {
      hide *;
      ghost var (g, p) := Ready();
      var n := HeadNode(BR, cond);
      ghost var q, start := |g|, nodes;
      HeadFacts(start, p, BR, cond, Null, To(q));
      ChainGroup(thn);
      ghost var mid := nodes;
      ExtendsFacts(start, q, After(thn, q, q + 1));
      SteadyFacts();
      var m := ChainNode(EXEC(false));
      SteadyFacts();
      AddedFacts(mid, nodes, m, EXEC(false));
      ghost var next := nodes;
      nodes := nodes[n := nodes[n].(r := To(last))];
      SteadyAgain();
      IfNodes(g, cond, start, mid, next, p, m);
      IfDone(mid, nodes, cond, thn, p, q, breakPtr, continuePtr);
      NowExtends(g, p, After(If(cond, thn), p, q));
    }

    method ChainIfElse(cond: Option<Expr<S>>, thn: Stmt<S>, els: Stmt<S>)
      requires first.To? ==> Steady()
      modifies this`nodes, this`first, this`last, this`programname, this`breakPtr, this`continuePtr
      ensures var (g, p) := old(Ready());
              && Extends(g, p, After(IfElse(cond, thn, els), p, |g|))
              && Code(nodes, IfElse(cond, thn, els), p, |g|, breakPtr, continuePtr)
              && first == if old(first).Null? then To(|old(nodes)|) else old(first)
      ensures breakPtr == old(breakPtr) && continuePtr == old(continuePtr)
      decreases IfElse(cond, thn, els), 3
    {
      hide *;
      ghost var (g, p) := Ready();
      var n := HeadNode(BR, cond);
      ghost var q := |g|;
      HeadFacts(nodes, p, BR, cond, Null, To(q));
      ghost var start := nodes;
      ChainGroup(thn);
      EndIfElse(cond, thn, els, g, start, n);
    }

    /** The part of an if that belongs to its else. */
    method EndIfElse(ghost cond: Option<Expr<S>>, ghost thn: Stmt<S>, els: Stmt<S>, ghost g: seq<Node<S>>,
        ghost start: seq<Node<S>>, n: nat)
      requires var q := |g|;
               && n < q && |start| == q + 1 && Patched(g, start, {n}) && Is(start, n, BR, cond, Null, To(q))
               && Extends(start, q, After(thn, q, q + 1)) && Code(nodes, thn, q, q + 1, breakPtr, continuePtr)
      modifies this`nodes, this`first, this`last, this`programname, this`breakPtr, this`continuePtr
      ensures Extends(g, n, After(IfElse(cond, thn, els), n, |g|))
              && Code(nodes, IfElse(cond, thn, els), n, |g|, breakPtr, continuePtr)
      ensures first == old(first) && breakPtr == old(breakPtr) && continuePtr == old(continuePtr)
      decreases els, 5
    {
      hide *;
      ghost var p, q := n, |g|;
      ghost var mid := nodes;
      ExtendsFacts(start, q, After(thn, q, q + 1));
      SteadyFacts();
      var n2 := ChainNode(EXEC(false));
      SteadyFacts();
      AddedFacts(mid, nodes, n2, EXEC(false));
      ghost var u, next := |mid|, nodes;
      nodes := nodes[n := nodes[n].(r := To(last))];
      SteadyAgain();
      ghost var start2 := nodes;
      ChainGroup(els);
      ghost var mid2 := nodes;
      ExtendsFacts(start2, u, After(els, u, u + 1));
      SteadyFacts();
      ElseNodes(g, cond, start, mid, next, start2, mid2, p, n2, last);
      nodes := nodes[n2 := nodes[n2].(a := To(last))];
      SteadyAgain();
      IfElseDone(mid, mid2, nodes, cond, thn, els, p, q, breakPtr, continuePtr);
      NowExtends(g, p, After(IfElse(cond, thn, els), p, q));
    }

    method ChainWhile(cond: Option<Expr<S>>, loop: Stmt<S>)
      requires first.To? ==> Steady()
      modifies this`nodes, this`first, this`last, this`programname, this`breakPtr, this`continuePtr
      ensures var (g, p) := old(Ready());
              && Extends(g, p, After(While(cond, loop), p, |g|))
              && Code(nodes, While(cond, loop), p, |g|, breakPtr, continuePtr)
              && first == if old(first).Null? then To(|old(nodes)|) else old(first)
      ensures breakPtr == old(breakPtr) && continuePtr == old(continuePtr)
      decreases loop, 6
    {
      hide Code, After, Blank, CodeLoop;
      ghost var g, p := Ready().0, Ready().1;
      var n := ChainLoop(None, loop);
      ghost var mid := nodes;
      LoopHead(mid, BR, None, None, loop, p, |g|);
      nodes := nodes[n := nodes[n].(l := cond)];
      LoopTest(mid, nodes, BR, cond, None, loop, p, |g|);
      WhileDone(nodes, cond, loop, p, |g|, breakPtr, continuePtr);
    }

    method ChainDo(loop: Stmt<S>, cond: Option<Expr<S>>)
      requires first.To? ==> Steady()
      modifies this`nodes, this`first, this`last, this`programname, this`breakPtr, this`continuePtr
      ensures var (g, p) := old(Ready());
              && Extends(g, p, After(Do(loop, cond), p, |g|))
              && Code(nodes, Do(loop, cond), p, |g|, breakPtr, continuePtr)
              && first == if old(first).Null? then To(|old(nodes)|) else old(first)
      ensures breakPtr == old(breakPtr) && continuePtr == old(continuePtr)
      decreases loop, 6
    {
      hide *;
      ghost var (g, p) := Ready();
      var n2 := ChainNode(EXEC(false));
      SteadyFacts();
      AddedFacts(g, nodes, p, EXEC(false));
      ghost var q, begun := |g|, nodes;
      var n := ChainLoop(None, loop);
      ghost var mid := nodes;
      ExtendsFacts(begun, q, AfterLoop(loop, q + 1));
      LoopHead(mid, BR, None, None, loop, q, q + 1);
      HeadFacts(mid, q, BR, None, To(|mid| - 1), To(q + 1));
      SteadyFacts();
      PatchedFacts(begun, mid, {q});
      nodes := nodes[n2 := nodes[n2].(a := nodes[n].a)];
      nodes := nodes[n := nodes[n].(l := cond)];
      SteadyAgain();
      LoopTest(mid, nodes, BR, cond, None, loop, q, q + 1);
      DoNodes(g, begun, mid, nodes, p, q);
      DoDone(nodes, loop, cond, p, q, breakPtr, continuePtr);
      NowExtends(g, p, After(Do(loop, cond), p, q));
    }

    method ChainFor(init: Option<Expr<S>>, cond: Option<Expr<S>>, step: Option<Expr<S>>, loop: Stmt<S>)
      requires first.To? ==> Steady()
      modifies this`nodes, this`first, this`last, this`programname, this`breakPtr, this`continuePtr
      ensures var (g, p) := old(Ready());
              && Extends(g, p, After(For(init, cond, step, loop), p, |g|))
              && Code(nodes, For(init, cond, step, loop), p, |g|, breakPtr, continuePtr)
              && first == if old(first).Null? then To(|old(nodes)|) else old(first)
      ensures breakPtr == old(breakPtr) && continuePtr == old(continuePtr)
      decreases loop, 6
    {
      hide *;
      ghost var (g, p) := Ready();
      var n0 := ChainNode(EXEC(true));
      SteadyFacts();
      AddedFacts(g, nodes, p, EXEC(true));
      ghost var q, begun := |g|, nodes;
      nodes := nodes[n0 := nodes[n0].(l := init)];
      SteadyAgain();
      ghost var start := nodes;
      var n := ChainLoop(step, loop);
      ghost var mid := nodes;
      ExtendsFacts(start, q, AfterLoop(loop, q + 1));
      LoopHead(mid, BR, None, step, loop, q, q + 1);
      HeadFacts(mid, q, BR, None, To(|mid| - 1), To(q + 1));
      SteadyFacts();
      nodes := nodes[n := nodes[n].(l := cond)];
      if cond.None? { nodes := nodes[n := nodes[n].(info := EXEC(false))]; }
      SteadyAgain();
      LoopTest(mid, nodes, if cond.None? then EXEC(false) else BR, cond, step, loop, q, q + 1);
      ForNodes(g, begun, init, start, mid, nodes, p, q);
      ForDone(nodes, init, cond, step, loop, p, q, breakPtr, continuePtr);
      NowExtends(g, p, After(For(init, cond, step, loop), p, q));
    }

    method ChainForIn(start: Expr<S>, advance: Expr<S>, loop: Stmt<S>)
      requires first.To? ==> Steady()
      modifies this`nodes, this`first, this`last, this`programname, this`breakPtr, this`continuePtr
      ensures var (g, p) := old(Ready());
              && Extends(g, p, After(ForIn(start, advance, loop), p, |g|))
              && Code(nodes, ForIn(start, advance, loop), p, |g|, breakPtr, continuePtr)
              && first == if old(first).Null? then To(|old(nodes)|) else old(first)
      ensures breakPtr == old(breakPtr) && continuePtr == old(continuePtr)
      decreases loop, 6
    {
      hide *;
      ghost var (g, p) := Ready();
      var n0 := HeadNode(WALKINIT, Some(start));
      ghost var q, begun := |g|, nodes;
      var n := ChainLoop(None, loop);
      ghost var mid := nodes;
      ExtendsFacts(begun, q, AfterLoop(loop, q + 1));
      LoopHead(mid, BR, None, None, loop, q, q + 1);
      HeadFacts(mid, q, BR, None, To(|mid| - 1), To(q + 1));
      SteadyFacts();
      nodes := nodes[n := nodes[n].(info := WALKNEXT, l := Some(advance))];
      SteadyAgain();
      LoopTest(mid, nodes, WALKNEXT, Some(advance), None, loop, q, q + 1);
      ForInNodes(g, begun, start, mid, nodes, p, q);
      ForInDone(nodes, start, advance, loop, p, q, breakPtr, continuePtr);
      NowExtends(g, p, After(ForIn(start, advance, loop), p, q));
    }

    method ChainAll(ss: Stmts<S>)
      requires first.To? ==> Steady()
      modifies this`nodes, this`first, this`last, this`programname, this`breakPtr, this`continuePtr
      ensures breakPtr == old(breakPtr) && continuePtr == old(continuePtr)
      ensures BlankAll(ss) ==>
                nodes == old(nodes) && first == old(first) && last == old(last) && programname == old(programname)
      ensures !BlankAll(ss) || old(first).To? ==>
                var (g, p) := old(Ready());
                && Extends(g, p, AfterAll(ss, p, |g|)) && CodeAll(nodes, ss, p, |g|, breakPtr, continuePtr)
                && first == if old(first).Null? then To(|old(nodes)|) else old(first)
      decreases ss, 0
    {
      hide Code, After, Blank;
      match ss
      case Nil =>
      case Cons(head, tail) =>
        ghost var g, p := Ready().0, Ready().1;
        BlankCode(head, p, |g|);
        ChainGroup(head);
        ghost var mid := nodes;
        ChainAll(tail);
        if Blank(head) {
          BlankDone(nodes, head, tail, p, |g|, breakPtr, continuePtr);
        } else {
          if old(first).Null? || !BlankAll(tail) { PatchedAgain(g, mid, nodes, {p}, {After(head, p, |g|).0}, {p}); }
          AllDone(mid, nodes, head, tail, p, |g|, breakPtr, continuePtr);
        }
    }
  }

  /** Where the walk of a chain starts: a null pointer if the chain has no nodes. */
  lemma {:induction false} FromFirst<S>(g: seq<Node<S>>, first: nat, name: string, p: nat, s: S, e: Ending, s': S)
    requires Is(g, first, NEWSOURCE(name), None, Null, To(p))
    ensures Yields(g, To(first), s, e, s') <==> Yields(g, To(p), s, e, s')
  {
    hide Walk;
    TurnAt(g, first, NEWSOURCE(name), None, Null, To(p), s);
    if Yields(g, To(first), s, e, s') {
      var k: nat :| Walk(g, To(first), s, k) == Halt(e, s');
      UnderWay(g, To(first), s, 1, k);
      assert Walk(g, To(p), s, k - 1) == Halt(e, s');
    }
    if Yields(g, To(p), s, e, s') {
      var k: nat :| Walk(g, To(p), s, k) == Halt(e, s');
      WalkOn(g, To(first), s, 1, k);
      assert Walk(g, To(first), s, 1 + k) == Halt(e, s');
    }
  }

  lemma {:induction false} BlankMeans<S>(st: Stmt<S>, s: S, e: Ending, s': S)
    requires Blank(st)
    ensures Means(st, s, e, s') <==> Yields([], Null, s, e, s')
  {
    BlankRuns(st, s);
    assert Walk([], Null, s, 1) == Halt(FellOff, s);
    if Means(st, s, e, s') {
      var n: nat :| Exec(st, s, n).Some? && EndingOf(Exec(st, s, n).value.0) == e && Exec(st, s, n).value.1 == s';
      BlankAlways(st, s, n);
    } else {
      BlankAlways(st, s, 0);
    }
  }

  lemma {:induction false} BlankRuns<S>(st: Stmt<S>, s: S)
    ensures forall k: nat :: Walk([], Null, s, k) == if k == 0 then At(Null, s) else Halt(FellOff, s)
  {
  }

  lemma {:induction false} BlankAlways<S>(st: Stmt<S>, s: S, n: nat)
    requires Blank(st)
    ensures Exec(st, s, n) == Some((Normal, s))
    decreases st
  {
    BlankAlwaysAll(st.body, s, n);
  }

  lemma {:induction false} BlankAlwaysAll<S>(ss: Stmts<S>, s: S, n: nat)
    requires BlankAll(ss)
    ensures ExecAll(ss, s, n) == Some((Normal, s))
    decreases ss
  {
    match ss
    case Nil =>
    case Cons(head, tail) => BlankAlways(head, s, n); BlankAlwaysAll(tail, s, n);
  }

  /** Compiling a statement into a new chain and walking it from the first node gives the meaning of the statement. */
  method Compile<S(!new)>(st: Stmt<S>, progname: string) returns (g: seq<Node<S>>, first: Ptr)
    ensures forall s: S, e, s': S :: Means(st, s, e, s') <==> Yields(g, first, s, e, s')
  {
    hide Means, Yields, Code, After, Walk, Exec, Blank;
    var c := new Chain(progname);
    c.ChainGroup(st);
    g, first := c.nodes, c.first;
    if Blank(st) {
      forall s: S, e, s': S ensures Means(st, s, e, s') <==> Yields(g, first, s, e, s') {
        BlankMeans(st, s, e, s');
      }
    } else {
      BlankCode(st, 1, 2);
      forall s: S, e, s': S ensures Means(st, s, e, s') <==> Yields(g, first, s, e, s') {
        ChainMeans(g, st, 1, 2, s, e, s');
        FromFirst(g, 0, progname, 1, s, e, s');
      }
    }
  }
}
