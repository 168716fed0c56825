/** How awk parses expressions: parse_expr hangs each operator into the right spine of the tree built so far, climbing
    the parent pointers past the operators that bind more tightly. */
module AwkExpr {
  import opened Wrappers

  /** An operator: what it is, and its priority, the highest byte of its info. A smaller number binds more tightly. */
  datatype Op = Op(name: nat, pri: nat)

  /** The tokens of an expression as next_token delivers them; a group is the tokens between two parentheses. */
  datatype Token =
    | Operand(name: nat)
    | Regexp(name: nat)
    | Prefix(op: Op)
    | Binary(op: Op)
    | Postfix(op: Op)
    | Parens(inner: Tokens)

  datatype Tokens = End | More(head: Token, tail: Tokens)

  /** A regular expression that comes before another operand gets that operand below it, as if it were an operator. */
  datatype Tree =
    | Leaf(name: nat)
    | Re(name: nat)
    | Hung(name: nat, right: Tree)
    | Pre(op: Op, right: Tree)
    | Bin(op: Op, left: Tree, right: Tree)
    | Post(op: Op, left: Tree)
    | Group(inner: Tree)

  /** The info of a regular expression has no priority. */
  const REGEXP := Op(0, 0)

  function Append(ts: Tokens, us: Tokens): Tokens {
    match ts
    case End => us
    case More(head, tail) => More(head, Append(tail, us))
  }

  lemma {:induction false} AppendAssoc(ts: Tokens, us: Tokens, vs: Tokens)
    ensures Append(Append(ts, us), vs) == Append(ts, Append(us, vs))
  {
    if ts.More? { AppendAssoc(ts.tail, us, vs); }
  }

  lemma {:induction false} AppendEnd(ts: Tokens)
    ensures Append(ts, End) == ts
  {
    if ts.More? { AppendEnd(ts.tail); }
  }

  /** The in-order reading of a tree. */
  function Reading(t: Tree): Tokens {
    match t
    case Leaf(name) => More(Operand(name), End)
    case Re(name) => More(Regexp(name), End)
    case Hung(name, right) => More(Regexp(name), Reading(right))
    case Pre(op, right) => More(Prefix(op), Reading(right))
    case Bin(op, left, right) => Append(Reading(left), More(Binary(op), Reading(right)))
    case Post(op, left) => Append(Reading(left), More(Postfix(op), End))
    case Group(inner) => More(Parens(Reading(inner)), End)
  }

  // ----- which trees are right

  /** Whether t goes above the operator u to its left: parse_expr compares the priority of t with that of u without its
      lowest bit. */
  predicate Above(t: Op, u: Op) {
    t.pri > u.pri / 2 * 2
  }

  /** That is, u binds more tightly, or both have the same odd priority and group to the left. */
  lemma {:induction false} AboveMeans(t: Op, u: Op)
    ensures Above(t, u) <==> u.pri < t.pri || (u.pri == t.pri && u.pri % 2 == 1)
  {
  }

  /** t goes above every operator that is open to the right in the tree. */
  predicate AboveAll(t: Op, tree: Tree) {
    match tree
    case Pre(op, right) => Above(t, op) && AboveAll(t, right)
    case Hung(_, right) => Above(t, REGEXP) && AboveAll(t, right)
    case Bin(op, _, right) => Above(t, op) && AboveAll(t, right)
    case _ => true
  }

  /** No operator that is open to the left in the tree goes above u. */
  predicate NoneAbove(tree: Tree, u: Op) {
    match tree
    case Bin(op, left, _) => !Above(op, u) && NoneAbove(left, u)
    case Post(op, left) => !Above(op, u) && NoneAbove(left, u)
    case _ => true
  }

  /** The last token is a postfix operator. */
  predicate EndsPost(tree: Tree) {
    match tree
    case Pre(_, right) => EndsPost(right)
    case Hung(_, right) => EndsPost(right)
    case Bin(_, _, right) => EndsPost(right)
    case _ => tree.Post?
  }

  /** The first token is a regular expression. */
  predicate StartsRegexp(tree: Tree) {
    match tree
    case Bin(_, left, _) => StartsRegexp(left)
    case Post(_, left) => StartsRegexp(left)
    case _ => tree.Re? || tree.Hung?
  }

  /** The nesting follows the priorities everywhere; a postfix operator does not follow another one. */
  predicate Nested(tree: Tree) {
    match tree
    case Leaf(_) => true
    case Re(_) => true
    case Hung(_, right) => Nested(right) && NoneAbove(right, REGEXP) && !StartsRegexp(right)
    case Pre(op, right) => Nested(right) && NoneAbove(right, op)
    case Bin(op, left, right) => Nested(left) && Nested(right) && AboveAll(op, left) && NoneAbove(right, op)
    case Post(op, left) => Nested(left) && AboveAll(op, left) && !EndsPost(left)
    case Group(inner) => Nested(inner)
  }

  // ----- parsing with the right spine as a stack

  /** A node of the right spine whose right operand is still open. */
  datatype Frame = FPre(op: Op) | FRe(name: nat) | FBin(op: Op, left: Tree)
  datatype Spine = Root | Push(frame: Frame, below: Spine)

  /** A token that is not expected is a syntax error; the root of an empty group is a null
      pointer, which is followed. */
  datatype Error = Unexpected | NullDereference

  /** The parser wants an operand, has one, or has failed. */
  datatype State = Want(spine: Spine) | Have(spine: Spine, tree: Tree) | Wrong(error: Error)

  function OpOf(f: Frame): Op {
    if f.FRe? then REGEXP else f.op
  }

  function Plug(f: Frame, tree: Tree): Tree {
    match f
    case FPre(op) => Pre(op, tree)
    case FRe(name) => Hung(name, tree)
    case FBin(op, left) => Bin(op, left, tree)
  }

  /** Climbing past the operators that bind more tightly than t. */
  function Climb(spine: Spine, tree: Tree, t: Op): (Spine, Tree) {
    match spine
    case Root => (spine, tree)
    case Push(f, below) => if Above(t, OpOf(f)) then Climb(below, Plug(f, tree), t) else (spine, tree)
  }

  function Close(spine: Spine, tree: Tree): Tree {
    match spine
    case Root => tree
    case Push(f, below) => Close(below, Plug(f, tree))
  }

  /** What an expression yields: a tree, a null pointer if it has no tokens, or an error. */
  datatype Result = Found(tree: Tree) | Nothing | Failed(error: Error)

  /** An operand or a prefix operator goes to the right of the last node. */
  function Take(spine: Spine, tok: Token): State
    decreases tok, 1
  {
    match tok
    case Operand(name) => Have(spine, Leaf(name))
    case Regexp(name) => Have(spine, Re(name))
    case Prefix(op) => Want(Push(FPre(op), spine))
    case Parens(inner) =>
      (match Parse(inner)
       case Found(t) => Have(spine, Group(t))
       case Nothing => Wrong(NullDereference)
       case Failed(e) => Wrong(e))
    case _ => Wrong(Unexpected)
  }

  /** No concatenation is put between a regular expression and what follows it. */
  predicate Attaches(tok: Token) {
    tok.Operand? || tok.Prefix? || tok.Parens?
  }

  function Step(st: State, tok: Token): State
    decreases tok, 2
  {
    match st
    case Wrong(_) => st
    case Want(spine) => Take(spine, tok)
    case Have(spine, tree) =>
      if tok.Binary? then
        var (s, t) := Climb(spine, tree, tok.op);
        Want(Push(FBin(tok.op, t), s))
      else if tok.Postfix? && !tree.Post? then
        var (s, t) := Climb(spine, tree, tok.op);
        Have(s, Post(tok.op, t))
      else if tree.Re? && Attaches(tok) then Take(Push(FRe(tree.name), spine), tok)
      else Wrong(Unexpected)
  }

  function Run(st: State, ts: Tokens): State
    decreases ts, 0
  {
    match ts
    case End => st
    case More(head, tail) => Run(Step(st, head), tail)
  }

  /** An expression that ends with an operator that lacks its operand is an error. */
  function Parse(ts: Tokens): Result
    decreases ts, 1
  {
    match Run(Want(Root), ts)
    case Have(spine, tree) => Found(Close(spine, tree))
    case Want(_) => if ts.End? then Nothing else Failed(Unexpected)
    case Wrong(e) => Failed(e)
  }

  // ----- the tree found has the right reading

  function SpineReading(spine: Spine): Tokens {
    match spine
    case Root => End
    case Push(FPre(op), below) => Append(SpineReading(below), More(Prefix(op), End))
    case Push(FRe(name), below) => Append(SpineReading(below), More(Regexp(name), End))
    case Push(FBin(op, left), below) => Append(SpineReading(below), Append(Reading(left), More(Binary(op), End)))
  }

  function StateReading(st: State): Tokens
    requires !st.Wrong?
  {
    match st
    case Want(spine) => SpineReading(spine)
    case Have(spine, tree) => Append(SpineReading(spine), Reading(tree))
  }

  lemma {:induction false} PlugReading(f: Frame, below: Spine, tree: Tree)
    ensures Append(SpineReading(Push(f, below)), Reading(tree)) == Append(SpineReading(below), Reading(Plug(f, tree)))
  {
    var s, r := SpineReading(below), Reading(tree);
    match f
    case FPre(op) =>
      AppendAssoc(s, More(Prefix(op), End), r);
    case FRe(name) =>
      AppendAssoc(s, More(Regexp(name), End), r);
    case FBin(op, left) =>
      var l, o := Reading(left), More(Binary(op), End);
      AppendAssoc(s, Append(l, o), r);
      AppendAssoc(l, o, r);
  }

  lemma {:induction false} ClimbReading(spine: Spine, tree: Tree, t: Op)
    ensures var (s, u) := Climb(spine, tree, t);
            Append(SpineReading(s), Reading(u)) == Append(SpineReading(spine), Reading(tree))
  {
    if spine.Push? && Above(t, OpOf(spine.frame)) {
      PlugReading(spine.frame, spine.below, tree);
      ClimbReading(spine.below, Plug(spine.frame, tree), t);
    }
  }

  lemma {:induction false} CloseReading(spine: Spine, tree: Tree)
    ensures Reading(Close(spine, tree)) == Append(SpineReading(spine), Reading(tree))
  {
    if spine.Push? {
      PlugReading(spine.frame, spine.below, tree);
      CloseReading(spine.below, Plug(spine.frame, tree));
    }
  }

  lemma {:induction false} TakeReading(spine: Spine, tok: Token)
    requires !Take(spine, tok).Wrong?
    ensures StateReading(Take(spine, tok)) == Append(SpineReading(spine), More(tok, End))
    decreases tok, 1
  {
    if tok.Parens? { ParseReading(tok.inner); }
  }

  lemma {:induction false} StepReading(st: State, tok: Token)
    requires !Step(st, tok).Wrong?
    ensures StateReading(Step(st, tok)) == Append(StateReading(st), More(tok, End))
    decreases tok, 2
  {
    hide Take;
    if st.Want? {
      TakeReading(st.spine, tok);
    } else if tok.Binary? || tok.Postfix? {
      var (s, t) := Climb(st.spine, st.tree, tok.op);
      ClimbReading(st.spine, st.tree, tok.op);
      AppendAssoc(SpineReading(s), Reading(t), More(tok, End));
    } else {
      TakeReading(Push(FRe(st.tree.name), st.spine), tok);
    }
  }

  lemma {:induction false} RunReading(st: State, ts: Tokens)
    requires !Run(st, ts).Wrong?
    ensures !st.Wrong? && StateReading(Run(st, ts)) == Append(StateReading(st), ts)
    decreases ts, 0
  {
    match ts
    case End => AppendEnd(StateReading(st));
    case More(head, tail) =>
      RunReading(Step(st, head), tail);
      StepReading(st, head);
      AppendAssoc(StateReading(st), More(head, End), tail);
  }

  lemma {:induction false} ParseReading(ts: Tokens)
    requires Parse(ts).Found?
    ensures Reading(Parse(ts).tree) == ts
    decreases ts, 1
  {
    RunReading(Want(Root), ts);
    var st := Run(Want(Root), ts);
    CloseReading(st.spine, st.tree);
  }

  // ----- its nesting follows the priorities

  /** The tree may stand to the right of the frame. */
  predicate TreeFits(tree: Tree, f: Frame) {
    NoneAbove(tree, OpOf(f)) && (f.FRe? ==> !StartsRegexp(tree))
  }

  /** Whatever is plugged into the frame may stand to the right of the one below it. */
  predicate FrameFits(f: Frame, below: Frame) {
    match f
    case FPre(_) => true
    case FRe(_) => !below.FRe?
    case FBin(op, left) => !Above(op, OpOf(below)) && TreeFits(left, below)
  }

  predicate SpineNested(spine: Spine) {
    spine.Push? ==>
      && SpineNested(spine.below)
      && (spine.frame.FBin? ==> Nested(spine.frame.left) && AboveAll(spine.frame.op, spine.frame.left))
      && (spine.below.Push? ==> FrameFits(spine.frame, spine.below.frame))
  }

  /** The parser never wants the operand of a regular expression: it gets one when the operand has been read. */
  predicate StateNested(st: State) {
    match st
    case Wrong(_) => true
    case Want(spine) => SpineNested(spine) && (spine.Push? ==> !spine.frame.FRe?)
    case Have(spine, tree) => SpineNested(spine) && Nested(tree) && (spine.Push? ==> TreeFits(tree, spine.frame))
  }

  lemma {:induction false} ClimbNested(spine: Spine, tree: Tree, t: Op)
    requires StateNested(Have(spine, tree)) && AboveAll(t, tree)
    ensures var (s, u) := Climb(spine, tree, t);
            && StateNested(Have(s, u)) && AboveAll(t, u) && EndsPost(u) == EndsPost(tree)
            && (s.Push? ==> !Above(t, OpOf(s.frame)))
  {
    if spine.Push? && Above(t, OpOf(spine.frame)) { ClimbNested(spine.below, Plug(spine.frame, tree), t); }
  }

  lemma {:induction false} CloseNested(spine: Spine, tree: Tree)
    requires StateNested(Have(spine, tree))
    ensures Nested(Close(spine, tree))
  {
    if spine.Push? { CloseNested(spine.below, Plug(spine.frame, tree)); }
  }

  /** What an operand is when it has just been read. */
  predicate Closed(tree: Tree) {
    tree.Leaf? || tree.Re? || tree.Group? || tree.Post?
  }

  lemma {:induction false} TakeNested(spine: Spine, tok: Token)
    requires SpineNested(spine) && (spine.Push? && spine.frame.FRe? ==> Attaches(tok))
    ensures StateNested(Take(spine, tok)) && (Take(spine, tok).Have? ==> Closed(Take(spine, tok).tree))
    decreases tok, 1
  {
    if tok.Parens? && Parse(tok.inner).Found? { ParseNested(tok.inner); }
  }

  lemma {:induction false} StepNested(st: State, tok: Token)
    requires StateNested(st) && (st.Have? ==> Closed(st.tree))
    ensures StateNested(Step(st, tok)) && (Step(st, tok).Have? ==> Closed(Step(st, tok).tree))
    decreases tok, 2
  {
    hide Take;
    if st.Want? {
      TakeNested(st.spine, tok);
    } else if st.Have? && (tok.Binary? || tok.Postfix?) {
      ClimbNested(st.spine, st.tree, tok.op);
    } else if st.Have? && st.tree.Re? && Attaches(tok) {
      TakeNested(Push(FRe(st.tree.name), st.spine), tok);
    }
  }

  lemma {:induction false} RunNested(st: State, ts: Tokens)
    requires StateNested(st) && (st.Have? ==> Closed(st.tree))
    ensures StateNested(Run(st, ts))
    decreases ts, 0
  {
    hide Step;
    if ts.More? {
      StepNested(st, ts.head);
      RunNested(Step(st, ts.head), ts.tail);
    }
  }

  lemma {:induction false} ParseNested(ts: Tokens)
    requires Parse(ts).Found?
    ensures Nested(Parse(ts).tree)
    decreases ts, 1
  {
    RunNested(Want(Root), ts);
    var st := Run(Want(Root), ts);
    CloseNested(st.spine, st.tree);
  }

  // ----- every rightly nested tree is found

  /** The spine with the right spine of a tree on top, and the last operand of the tree. */
  function Unfold(spine: Spine, tree: Tree): (Spine, Tree)
    decreases tree
  {
    match tree
    case Pre(op, right) => Unfold(Push(FPre(op), spine), right)
    case Hung(name, right) => Unfold(Push(FRe(name), spine), right)
    case Bin(op, left, right) => Unfold(Push(FBin(op, left), spine), right)
    case _ => (spine, tree)
  }

  lemma {:induction false} UnfoldClosed(spine: Spine, tree: Tree)
    ensures Closed(Unfold(spine, tree).1) && Unfold(spine, tree).1.Post? == EndsPost(tree)
    decreases tree
  {
    match tree
    case Pre(op, right) => UnfoldClosed(Push(FPre(op), spine), right);
    case Hung(name, right) => UnfoldClosed(Push(FRe(name), spine), right);
    case Bin(op, left, right) => UnfoldClosed(Push(FBin(op, left), spine), right);
    case _ =>
  }

  lemma {:induction false} ClimbUnfold(spine: Spine, tree: Tree, t: Op)
    requires AboveAll(t, tree)
    ensures var (s, u) := Unfold(spine, tree); Climb(s, u, t) == Climb(spine, tree, t)
    decreases tree
  {
    match tree
    case Pre(op, right) => ClimbUnfold(Push(FPre(op), spine), right, t);
    case Hung(name, right) => ClimbUnfold(Push(FRe(name), spine), right, t);
    case Bin(op, left, right) => ClimbUnfold(Push(FBin(op, left), spine), right, t);
    case _ =>
  }

  lemma {:induction false} CloseUnfold(spine: Spine, tree: Tree)
    ensures var (s, u) := Unfold(spine, tree); Close(s, u) == Close(spine, tree)
    decreases tree
  {
    match tree
    case Pre(op, right) => CloseUnfold(Push(FPre(op), spine), right);
    case Hung(name, right) => CloseUnfold(Push(FRe(name), spine), right);
    case Bin(op, left, right) => CloseUnfold(Push(FBin(op, left), spine), right);
    case _ =>
  }

  lemma {:induction false} FirstToken(tree: Tree)
    ensures var ts := Reading(tree);
            ts.More? && (ts.head.Regexp? <==> StartsRegexp(tree)) && (ts.head.Regexp? || Attaches(ts.head))
    decreases tree
  {
    match tree
    case Bin(_, left, _) => FirstToken(left);
    case Post(_, left) => FirstToken(left);
    case _ =>
  }

  /** After a regular expression the parser goes on as if it wanted an operand, unless an operator comes next. */
  lemma {:induction false} AfterRegexp(spine: Spine, name: nat, ts: Tokens)
    requires ts.More? && Attaches(ts.head)
    ensures Run(Have(spine, Re(name)), ts) == Run(Want(Push(FRe(name), spine)), ts)
  {
    hide Take;
  }

  lemma {:induction false} RunTake(spine: Spine, tok: Token, rest: Tokens)
    ensures Run(Want(spine), More(tok, rest)) == Run(Take(spine, tok), rest)
  {
    hide Take;
  }

  /** Reading a rightly nested tree brings the parser to that tree. */
  lemma {:induction false} RunTree(spine: Spine, tree: Tree, rest: Tokens)
    requires Nested(tree) && (spine.Push? ==> TreeFits(tree, spine.frame))
    ensures var (s, u) := Unfold(spine, tree); Run(Want(spine), Append(Reading(tree), rest)) == Run(Have(s, u), rest)
    decreases tree, 0
  {
    match tree
    case Leaf(name) =>
      RunTake(spine, Operand(name), rest);
    case Re(name) =>
      RunTake(spine, Regexp(name), rest);
    case Hung(name, right) =>
      FirstToken(right);
      RunTake(spine, Regexp(name), Append(Reading(right), rest));
      AfterRegexp(spine, name, Append(Reading(right), rest));
      RunTree(Push(FRe(name), spine), right, rest);
    case Pre(op, right) =>
      RunTake(spine, Prefix(op), Append(Reading(right), rest));
      RunTree(Push(FPre(op), spine), right, rest);
    case Bin(op, left, right) =>
      var after := More(Binary(op), Reading(right));
      AppendAssoc(Reading(left), after, rest);
      RunTree(spine, left, Append(after, rest));
      ClimbUnfold(spine, left, op);
      RunTree(Push(FBin(op, left), spine), right, rest);
    case Post(op, left) =>
      var after := More(Postfix(op), End);
      AppendAssoc(Reading(left), after, rest);
      RunTree(spine, left, Append(after, rest));
      ClimbUnfold(spine, left, op);
      UnfoldClosed(spine, left);
    case Group(inner) =>
      ParseTree(inner);
      RunTake(spine, Parens(Reading(inner)), rest);
  }

  lemma {:induction false} ParseTree(tree: Tree)
    requires Nested(tree)
    ensures Parse(Reading(tree)) == Found(tree)
    decreases tree, 1
  {
    AppendEnd(Reading(tree));
    RunTree(Root, tree, End);
    CloseUnfold(Root, tree);
  }

  /** The parser finds a tree exactly if it has the given reading and its nesting follows the priorities. */
  lemma {:induction false} ParseIs(ts: Tokens, tree: Tree)
    ensures Parse(ts) == Found(tree) <==> Reading(tree) == ts && Nested(tree)
  {
    if Parse(ts) == Found(tree) {
      ParseReading(ts);
      ParseNested(ts);
    }
    if Reading(tree) == ts && Nested(tree) { ParseTree(tree); }
  }

  /** So there is at most one such tree. */
  lemma {:induction false} NestingIsUnique(t: Tree, u: Tree)
    requires Reading(t) == Reading(u) && Nested(t) && Nested(u)
    ensures t == u
  {
    ParseTree(t);
    ParseTree(u);
  }

  // ----- which expressions fail

  /** What may come next: an operand, or anything that may follow an operand of the given kind. */
  datatype Place = AtOperand | AfterOperand | AfterRe | AfterPostfix | Stopped(error: Error)

  /** The place after a token, whatever the priorities. */
  function Next(at: Place, tok: Token): Place
    decreases tok, 1
  {
    if at.Stopped? then at
    else if at.AtOperand? || (at.AfterRe? && Attaches(tok)) then
      match tok
      case Operand(_) => AfterOperand
      case Regexp(_) => AfterRe
      case Prefix(_) => AtOperand
      case Parens(inner) =>
        if inner.End? then Stopped(NullDereference)
        else if Verdict(inner).Some? then Stopped(Verdict(inner).value)
        else AfterOperand
      case _ => Stopped(Unexpected)
    else if tok.Binary? then AtOperand
    else if tok.Postfix? && !at.AfterPostfix? then AfterPostfix
    else Stopped(Unexpected)
  }

  function Last(at: Place, ts: Tokens): Place
    decreases ts, 0
  {
    match ts
    case End => at
    case More(head, tail) => Last(Next(at, head), tail)
  }

  /** The first error in a sequence of tokens: a token in the wrong place, or a group with nothing in it. */
  function Verdict(ts: Tokens): Option<Error>
    decreases ts, 1
  {
    match Last(AtOperand, ts)
    case Stopped(e) => Some(e)
    case AtOperand => Some(Unexpected)
    case _ => None
  }

  function PlaceOf(st: State): Place {
    match st
    case Wrong(e) => Stopped(e)
    case Want(_) => AtOperand
    case Have(_, tree) => if tree.Re? then AfterRe else if tree.Post? then AfterPostfix else AfterOperand
  }

  lemma {:induction false} TakePlace(spine: Spine, tok: Token)
    ensures PlaceOf(Take(spine, tok)) == Next(AtOperand, tok)
    decreases tok, 1
  {
    if tok.Parens? { ParseVerdict(tok.inner); }
  }

  lemma {:induction false} StepPlace(st: State, tok: Token)
    ensures PlaceOf(Step(st, tok)) == Next(PlaceOf(st), tok)
    decreases tok, 2
  {
    hide Take;
    if st.Want? {
      TakePlace(st.spine, tok);
    } else if st.Have? && st.tree.Re? && Attaches(tok) {
      TakePlace(Push(FRe(st.tree.name), st.spine), tok);
    }
  }

  lemma {:induction false} RunPlace(st: State, ts: Tokens)
    ensures PlaceOf(Run(st, ts)) == Last(PlaceOf(st), ts)
    decreases ts, 0
  {
    hide Step, Next;
    if ts.More? {
      StepPlace(st, ts.head);
      RunPlace(Step(st, ts.head), ts.tail);
    }
  }

  /** The parser fails exactly on the expressions that are not empty and have an error, with the first one they have. */
  lemma {:induction false} ParseVerdict(ts: Tokens)
    ensures Parse(ts).Nothing? <==> ts.End?
    ensures Parse(ts).Found? <==> Verdict(ts).None?
    ensures forall e :: Parse(ts) == Failed(e) <==> ts.More? && Verdict(ts) == Some(e)
    decreases ts, 1
  {
    RunPlace(Want(Root), ts);
  }

  /** Two parentheses with nothing between them are not a syntax error: a null pointer is followed. */
  lemma {:induction false} EmptyGroup()
    ensures Parse(More(Parens(End), End)) == Failed(NullDereference)
  {
    assert Parse(End) == Nothing;
    assert Take(Root, Parens(End)) == Wrong(NullDereference);
  }

  // ----- what hangs below a regular expression

  /** Every regular expression is followed by an operator, or by nothing. */
  predicate NoneAttached(ts: Tokens)
    decreases ts, 0
  {
    ts.More? ==>
      && (ts.head.Regexp? && ts.tail.More? ==> !Attaches(ts.tail.head))
      && InsideToo(ts.head) && NoneAttached(ts.tail)
  }

  predicate InsideToo(tok: Token)
    decreases tok, 1
  {
    tok.Parens? ==> NoneAttached(tok.inner)
  }

  /** Regular expressions are operands like any other. */
  predicate Plain(tree: Tree) {
    match tree
    case Leaf(_) => true
    case Re(_) => true
    case Hung(_, _) => false
    case Pre(_, right) => Plain(right)
    case Bin(_, left, right) => Plain(left) && Plain(right)
    case Post(_, left) => Plain(left)
    case Group(inner) => Plain(inner)
  }

  lemma {:induction false} NoneAttachedAppend(ts: Tokens, us: Tokens)
    requires us.More? ==> !Attaches(us.head)
    ensures NoneAttached(Append(ts, us)) <==> NoneAttached(ts) && NoneAttached(us)
  {
    if ts.More? { NoneAttachedAppend(ts.tail, us); }
  }

  lemma {:induction false} PlainReading(tree: Tree)
    requires Nested(tree)
    ensures NoneAttached(Reading(tree)) <==> Plain(tree)
    decreases tree
  {
    match tree
    case Leaf(_) =>
    case Re(_) =>
    case Hung(_, right) => FirstToken(right);
    case Pre(_, right) => PlainReading(right);
    case Bin(op, left, right) =>
      NoneAttachedAppend(Reading(left), More(Binary(op), Reading(right)));
      PlainReading(left);
      PlainReading(right);
    case Post(op, left) =>
      NoneAttachedAppend(Reading(left), More(Postfix(op), End));
      PlainReading(left);
    case Group(inner) => PlainReading(inner);
  }

  /** The tree found is made of operands and operators only exactly if no regular expression is followed by an operand
      or a prefix operator. */
  lemma {:induction false} PlainExactly(ts: Tokens)
    requires Parse(ts).Found?
    ensures Plain(Parse(ts).tree) <==> NoneAttached(ts)
  {
    ParseReading(ts);
    ParseNested(ts);
    PlainReading(Parse(ts).tree);
  }

  /** An operand after a regular expression is no syntax error: it hangs below the regular expression. */
  lemma {:induction false} OperandAfterRegexp(r: nat, x: nat)
    ensures Parse(More(Regexp(r), More(Operand(x), End))) == Found(Hung(r, Leaf(x)))
  {
    ParseTree(Hung(r, Leaf(x)));
  }

  // ----- the tree in memory

  /** Nodes are numbered in the order in which they are allocated. The two fields of a regular expression hold what it
      was compiled to; hanging an operand below it overwrites the second one. */
  datatype Ptr = Null | To(index: nat) | Compiled

  /** The info of a node; that of the node on the stack has the greatest possible priority. */
  datatype Info = Stack | Atom(name: nat) | RE(name: nat) | PREFIX(op: Op) | BINARY(op: Op) | POSTFIX(op: Op)
  datatype Node = Node(info: Info, l: Ptr, r: Ptr, a: Ptr)

  function Priority(info: Info): nat {
    match info
    case Stack => 0x7f
    case Atom(_) => 0
    case RE(_) => REGEXP.pri
    case _ => info.op.pri
  }

  /** The priorities fit into the mask, below that of the node on the stack. */
  predicate Fits(ts: Tokens)
    decreases ts, 0
  {
    ts.More? ==> TokenFits(ts.head) && Fits(ts.tail)
  }

  predicate TokenFits(tok: Token)
    decreases tok, 1
  {
    match tok
    case Operand(_) => true
    case Regexp(_) => true
    case Parens(inner) => Fits(inner)
    case _ => tok.op.pri <= 0x7e
  }

  /** How many nodes a tree takes: a group takes two more, one of which is never used. */
  function Size(tree: Tree): (n: nat)
    ensures n >= 1
  {
    match tree
    case Leaf(_) => 1
    case Re(_) => 1
    case Hung(_, right) => 1 + Size(right)
    case Pre(_, right) => 1 + Size(right)
    case Bin(_, left, right) => Size(left) + 1 + Size(right)
    case Post(_, left) => Size(left) + 1
    case Group(inner) => 2 + Size(inner)
  }

  /** The root of a tree whose nodes start at lo: nodes are in reading order. */
  function RootAt(tree: Tree, lo: nat): (i: nat)
    ensures lo <= i < lo + Size(tree)
  {
    match tree
    case Bin(_, left, _) => lo + Size(left)
    case Post(_, left) => lo + Size(left)
    case Group(inner) => RootAt(inner, lo + 2)
    case _ => lo
  }

  /** The nodes from lo on form the tree. */
  ghost predicate Holds(g: seq<Node>, tree: Tree, lo: nat)
  {
    && lo + Size(tree) <= |g|
    && match tree
       case Leaf(name) => g[lo].info == Atom(name)
       case Re(name) => g[lo].info == RE(name) && g[lo].l == Compiled && g[lo].r == Compiled
       case Hung(name, right) =>
         g[lo].info == RE(name) && g[lo].l == Compiled && g[lo].r == To(RootAt(right, lo + 1))
             && Holds(g, right, lo + 1)
       case Pre(op, right) => g[lo].info == PREFIX(op) && g[lo].r == To(RootAt(right, lo + 1))
           && Holds(g, right, lo + 1)
       case Bin(op, left, right) =>
         var i := lo + Size(left);
         && g[i].info == BINARY(op) && g[i].l == To(RootAt(left, lo)) && g[i].r == To(RootAt(right, i + 1))
         && Holds(g, left, lo) && Holds(g, right, i + 1)
       case Post(op, left) =>
         var i := lo + Size(left);
         g[i].info == POSTFIX(op) && g[i].r == To(RootAt(left, lo)) && Holds(g, left, lo)
       case Group(inner) => Holds(g, inner, lo + 2)
  }

  /** Parent pointers do not matter for a finished tree, nor do nodes outside of it. */
  lemma {:induction false} HoldsKept(g: seq<Node>, g': seq<Node>, tree: Tree, lo: nat)
    requires Holds(g, tree, lo) && |g| <= |g'|
    requires forall i :: lo <= i < lo + Size(tree) ==> g'[i].info == g[i].info && g'[i].l == g[i].l && g'[i].r == g[i].r
    ensures Holds(g', tree, lo)
    decreases tree
  {
    hide RootAt;
    match tree
    case Leaf(_) =>
    case Re(_) =>
    case Hung(_, right) => HoldsKept(g, g', right, lo + 1);
    case Pre(_, right) => HoldsKept(g, g', right, lo + 1);
    case Bin(_, left, right) => HoldsKept(g, g', left, lo); HoldsKept(g, g', right, lo + Size(left) + 1);
    case Post(_, left) => HoldsKept(g, g', left, lo);
    case Group(inner) => HoldsKept(g, g', inner, lo + 2);
  }

  function SpineSize(spine: Spine): nat {
    match spine
    case Root => 0
    case Push(FPre(_), below) => SpineSize(below) + 1
    case Push(FRe(_), below) => SpineSize(below) + 1
    case Push(FBin(_, left), below) => SpineSize(below) + Size(left) + 1
  }

  /** The node of the topmost operator; without one, the node on the stack, which is the one before base. */
  function Top(spine: Spine, base: nat): (i: nat)
    requires base > 0
    ensures i + 1 == base + SpineSize(spine)
  {
    base + SpineSize(spine) - 1
  }

  ghost predicate HoldsSpine(g: seq<Node>, spine: Spine, base: nat)
    requires base > 0
  {
    && base + SpineSize(spine) <= |g|
    && match spine
       case Root => g[base - 1].info == Stack
       case Push(f, below) =>
         var i, j := Top(spine, base), Top(below, base);
         && HoldsSpine(g, below, base) && g[i].a == To(j) && g[j].r == To(i)
         && (match f
             case FPre(op) => g[i].info == PREFIX(op)
             case FRe(name) => g[i].info == RE(name) && g[i].l == Compiled
             case FBin(op, left) =>
               g[i].info == BINARY(op) && g[i].l == To(RootAt(left, j + 1)) && Holds(g, left, j + 1))
  }

  /** The topmost operator still waits for its right operand. */
  lemma {:induction false} SpineKept(g: seq<Node>, g': seq<Node>, spine: Spine, base: nat)
    requires base > 0 && HoldsSpine(g, spine, base) && |g| <= |g'|
    requires forall i :: base - 1 <= i <= Top(spine, base) ==>
               g'[i].info == g[i].info && g'[i].l == g[i].l && g'[i].a == g[i].a
                   && (i != Top(spine, base) ==> g'[i].r == g[i].r)
    ensures HoldsSpine(g', spine, base)
    decreases spine
  {
    match spine
    case Root =>
    case Push(f, below) =>
      SpineKept(g, g', below, base);
      if f.FBin? { HoldsKept(g, g', f.left, Top(below, base) + 1); }
  }

  /** The spine with a finished operand to its right. */
  ghost predicate HoldsBoth(g: seq<Node>, spine: Spine, tree: Tree, base: nat, cn: nat)
    requires base > 0
  {
    var j := Top(spine, base);
    && HoldsSpine(g, spine, base) && Holds(g, tree, j + 1) && |g| == j + 1 + Size(tree)
    && cn == RootAt(tree, j + 1) && g[cn].a == To(j) && g[j].r == To(cn)
  }

  /** Climbing one step needs no change. */
  lemma {:induction false} ClimbHolds(g: seq<Node>, f: Frame, below: Spine, tree: Tree, base: nat, cn: nat)
    requires base > 0 && HoldsBoth(g, Push(f, below), tree, base, cn)
    ensures HoldsBoth(g, below, Plug(f, tree), base, Top(Push(f, below), base))
  {
    PlugHolds(g, f, below, tree, base, cn);
    hide Holds;
  }

  lemma {:induction false} PlugHolds(g: seq<Node>, f: Frame, below: Spine, tree: Tree, base: nat, cn: nat)
    requires base > 0 && HoldsBoth(g, Push(f, below), tree, base, cn)
    ensures Holds(g, Plug(f, tree), Top(below, base) + 1)
    ensures RootAt(Plug(f, tree), Top(below, base) + 1) == Top(Push(f, below), base)
  {
    match f
    case FPre(_) =>
    case FRe(_) =>
    case FBin(_, _) =>
  }

  lemma {:induction false} CloseHolds(g: seq<Node>, spine: Spine, tree: Tree, base: nat, cn: nat)
    requires base > 0 && HoldsBoth(g, spine, tree, base, cn)
    ensures HoldsBoth(g, Root, Close(spine, tree), base, RootAt(Close(spine, tree), base))
    decreases spine
  {
    if spine.Push? {
      ClimbHolds(g, spine.frame, spine.below, tree, base, cn);
      CloseHolds(g, spine.below, Plug(spine.frame, tree), base, Top(spine, base));
    }
  }

  /** A new operator with the tree as its left operand. */
  lemma {:induction false} HangBinary(g: seq<Node>, g': seq<Node>, spine: Spine, tree: Tree, base: nat, vn: nat, op: Op)
    requires base > 0 && HoldsBoth(g, spine, tree, base, vn)
    requires var j, n := Top(spine, base), |g|;
             g' == g[j := g[j].(r := To(n))][vn := g[vn].(a := To(n))] + [Node(BINARY(op), To(vn), Null, To(j))]
    ensures HoldsSpine(g', Push(FBin(op, tree), spine), base) && Top(Push(FBin(op, tree), spine), base) == |g|
  {
    hide Holds;
    SpineKept(g, g', spine, base);
    HoldsKept(g, g', tree, Top(spine, base) + 1);
  }

  lemma {:induction false} HangPostfix(g: seq<Node>, g': seq<Node>, spine: Spine, tree: Tree, base: nat, vn: nat,
      op: Op)
    requires base > 0 && HoldsBoth(g, spine, tree, base, vn)
    requires var j, n := Top(spine, base), |g|;
             g' == g[j := g[j].(r := To(n))][vn := g[vn].(a := To(n))] + [Node(POSTFIX(op), Null, To(vn), To(j))]
    ensures HoldsBoth(g', spine, Post(op, tree), base, |g|)
  {
    hide Holds, HoldsSpine;
    SpineKept(g, g', spine, base);
    HoldsKept(g, g', tree, Top(spine, base) + 1);
    PostHolds(g', op, tree, Top(spine, base) + 1);
  }

  lemma {:induction false} PostHolds(g: seq<Node>, op: Op, left: Tree, lo: nat)
    requires Holds(g, left, lo) && lo + Size(left) < |g|
    requires g[lo + Size(left)].info == POSTFIX(op) && g[lo + Size(left)].r == To(RootAt(left, lo))
    ensures Holds(g, Post(op, left), lo)
  {
  }

  /** What mk_re_node puts into both fields. */
  function Fields(info: Info): Ptr {
    if info.RE? then Compiled else Null
  }

  /** A new operand or prefix operator below the topmost operator. */
  lemma {:induction false} HangRight(g: seq<Node>, g': seq<Node>, spine: Spine, base: nat, info: Info)
    requires base > 0 && HoldsSpine(g, spine, base) && |g| == base + SpineSize(spine)
    requires var j, c := Top(spine, base), Fields(info); g' == g[j := g[j].(r := To(|g|))] + [Node(info, c, c, To(j))]
    ensures info.Atom? ==> HoldsBoth(g', spine, Leaf(info.name), base, |g|)
    ensures info.RE? ==> HoldsBoth(g', spine, Re(info.name), base, |g|)
    ensures info.PREFIX? ==>
              HoldsSpine(g', Push(FPre(info.op), spine), base) && Top(Push(FPre(info.op), spine), base) == |g|
  {
    SpineKept(g, g', spine, base);
  }

  /** A regular expression that was the last operand takes one itself. */
  lemma {:induction false} RegexpOpens(g: seq<Node>, spine: Spine, name: nat, base: nat, cn: nat)
    requires base > 0 && HoldsBoth(g, spine, Re(name), base, cn)
    ensures HoldsSpine(g, Push(FRe(name), spine), base) && cn == Top(Push(FRe(name), spine), base)
    ensures |g| == base + SpineSize(Push(FRe(name), spine))
  {
  }

  lemma {:induction false} HangGroup(g: seq<Node>, g1: seq<Node>, g': seq<Node>, spine: Spine, base: nat, inner: Tree)
    requires base > 0 && HoldsSpine(g, spine, base) && |g| == base + SpineSize(spine)
    requires |g1| == |g| + 2 + Size(inner) && (forall i :: 0 <= i < |g| && i != Top(spine, base) ==> g1[i] == g[i])
            && Holds(g1, inner, |g| + 2)
    requires var j, root := Top(spine, base), RootAt(inner, |g| + 2);
             g1[j].info == g[j].info && g1[j].l == g[j].l && g1[j].a == g[j].a
             && g' == g1[j := g1[j].(r := To(root))][root := g1[root].(a := To(j))]
    ensures HoldsBoth(g', spine, Group(inner), base, RootAt(inner, |g| + 2))
  {
    hide Holds, HoldsSpine;
    SpineKept(g, g', spine, base);
    HoldsKept(g1, g', inner, |g| + 2);
    GroupHolds(g', inner, |g|);
  }

  lemma {:induction false} GroupHolds(g: seq<Node>, inner: Tree, lo: nat)
    requires Holds(g, inner, lo + 2)
    ensures Holds(g, Group(inner), lo)
  {
  }

  /** How a call of parse_expr ends. */
  datatype Outcome = Returned(root: Ptr) | Raised(error: Error)

  class Parser {
    var nodes: seq<Node>

    constructor ()
      ensures nodes == []
    {
      nodes := [];
    }

    method NewNode(info: Info) returns (n: nat)
      modifies this
      ensures n == |old(nodes)| && nodes == old(nodes) + [Node(info, Null, Null, Null)]
    {
      n := |nodes|;
      nodes := nodes + [Node(info, Null, Null, Null)];
    }

    /** Climbs from the last operand to where the operator t belongs. */
    method JumpBack(cn: nat, t: Op, ghost spine: Spine, ghost tree: Tree, ghost base: nat)
      returns (vn: nat, ghost s: Spine, ghost u: Tree)
      requires base > 0 && HoldsBoth(nodes, spine, tree, base, cn) && t.pri <= 0x7e
      ensures (s, u) == Climb(spine, tree, t) && HoldsBoth(nodes, s, u, base, vn)
    {
      hide HoldsBoth, Climb;
      vn, s, u := cn, spine, tree;
      BothFacts(nodes, s, u, base, vn, t);
      while t.pri > Priority(nodes[nodes[vn].a.index].info) / 2 * 2
        invariant HoldsBoth(nodes, s, u, base, vn) && Climb(s, u, t) == Climb(spine, tree, t)
        invariant vn < |nodes| && nodes[vn].a == To(Top(s, base)) && Top(s, base) < |nodes|
        invariant t.pri > Priority(nodes[nodes[vn].a.index].info) / 2 * 2 <==> s.Push? && Above(t, OpOf(s.frame))
        decreases s
      {
        assert s == Push(s.frame, s.below);
        ClimbHolds(nodes, s.frame, s.below, u, base, vn);
        ClimbStep(s, u, t);
        vn := nodes[vn].a.index;
        u := Plug(s.frame, u);
        s := s.below;
        BothFacts(nodes, s, u, base, vn, t);
      }
      ClimbStep(s, u, t);
    }

    static lemma {:induction false} ClimbStep(s: Spine, u: Tree, t: Op)
      ensures Climb(s, u, t) == if s.Push?
              && Above(t, OpOf(s.frame)) then Climb(s.below, Plug(s.frame, u), t) else (s, u)
    {
    }

    static lemma {:induction false} BothFacts(g: seq<Node>, s: Spine, u: Tree, base: nat, vn: nat, t: Op)
      requires base > 0 && HoldsBoth(g, s, u, base, vn) && t.pri <= 0x7e
      ensures vn < |g| && g[vn].a == To(Top(s, base)) && base - 1 <= Top(s, base) < vn
      ensures t.pri > Priority(g[Top(s, base)].info) / 2 * 2 <==> s.Push? && Above(t, OpOf(s.frame))
    {
    }

    /** The nodes show the state of the parser; cn is the last node attached. */
    static ghost predicate Shows(g: seq<Node>, st: State, base: nat, cn: nat)
    {
      && base > 0 && cn < |g|
      && match st
         case Wrong(_) => false
         case Want(spine) => HoldsSpine(g, spine, base) && |g| == base + SpineSize(spine) && cn == Top(spine, base)
         case Have(spine, tree) => HoldsBoth(g, spine, tree, base, cn)
    }

    /** A binary or postfix operator. */
    method AddOperator(cn: nat, tok: Token, ghost st: State, ghost base: nat) returns (cn': nat)
      requires (tok.Binary? || tok.Postfix?) && tok.op.pri <= 0x7e && st.Have? && Shows(nodes, st, base, cn)
              && !Step(st, tok).Wrong?
      modifies this
      ensures Shows(nodes, Step(st, tok), base, cn') && |old(nodes)| <= |nodes|
              && forall i :: 0 <= i < base - 1 ==> nodes[i] == old(nodes)[i]
    {
      hide HoldsBoth, HoldsSpine, Holds, Climb, Size, RootAt;
      ghost var before := nodes;
      ghost var spine, tree;
      var vn;
      vn, spine, tree := JumpBack(cn, tok.op, st.spine, st.tree, base);
      BothFacts(nodes, spine, tree, base, vn, tok.op);
      cn' := NewNode(if tok.Binary? then BINARY(tok.op) else POSTFIX(tok.op));
      var parent := nodes[vn].a.index;
      nodes := nodes[parent := nodes[parent].(r := To(cn'))];
      nodes := nodes[cn' := nodes[cn'].(a := To(parent))];
      nodes := nodes[cn' := if tok.Binary? then nodes[cn'].(l := To(vn)) else nodes[cn'].(r := To(vn))];
      nodes := nodes[vn := nodes[vn].(a := To(cn'))];
      if tok.Binary? {
        HangBinary(before, nodes, spine, tree, base, vn, tok.op);
      } else {
        HangPostfix(before, nodes, spine, tree, base, vn, tok.op);
      }
    }

    /** An operand or a prefix operator goes to the right of the last node. */
    method Attach(cn: nat, info: Info, ghost spine: Spine, ghost base: nat) returns (cn': nat)
      requires Shows(nodes, Want(spine), base, cn)
      modifies this
      ensures cn' == |old(nodes)|
      ensures var c := Fields(info);
              nodes == old(nodes)[cn := old(nodes)[cn].(r := To(cn'))] + [Node(info, c, c, To(cn))]
      ensures info.Atom? ==> Shows(nodes, Have(spine, Leaf(info.name)), base, cn')
      ensures info.RE? ==> Shows(nodes, Have(spine, Re(info.name)), base, cn')
      ensures info.PREFIX? ==> Shows(nodes, Want(Push(FPre(info.op), spine)), base, cn')
    {
      hide HoldsBoth, HoldsSpine, Holds;
      ghost var before := nodes;
      cn' := NewNode(info);
      nodes := nodes[cn := nodes[cn].(r := To(cn'))];
      nodes := nodes[cn' := nodes[cn'].(a := To(cn))];
      if info.RE? { nodes := nodes[cn' := nodes[cn'].(l := Compiled, r := Compiled)]; }
      HangRight(before, nodes, spine, base, info);
    }

    /** A group in parentheses: the node allocated for it gives way to the root of the group. */
    method AddGroup(cn: nat, inner: Tokens, ghost spine: Spine, ghost base: nat) returns (o: Outcome)
      requires Fits(inner) && Shows(nodes, Want(spine), base, cn)
      modifies this
      ensures |old(nodes)| <= |nodes| && forall i :: 0 <= i < base - 1 ==> nodes[i] == old(nodes)[i]
      ensures match Take(spine, Parens(inner))
              case Wrong(e) => o == Raised(e)
              case st => o.Returned? && o.root.To? && Shows(nodes, st, base, o.root.index)
      decreases inner, 1
    {
      hide HoldsBoth, HoldsSpine, Holds, Parse, Size, RootAt;
      ghost var before := nodes;
      var _ := Attach(cn, Atom(0), spine, base);
      ghost var mid := nodes;
      o := ParseExpr(inner);
      if o.Raised? { return; }
      if o.root.Null? { return Raised(NullDereference); }
      ghost var g1 := nodes;
      var cn' := o.root.index;
      assert forall i :: 0 <= i < |mid| ==> g1[..|mid|][i] == mid[i];
      nodes := nodes[cn := nodes[cn].(r := To(cn'))];
      nodes := nodes[cn' := nodes[cn'].(a := To(cn))];
      HangGroup(before, g1, nodes, spine, base, Parse(inner).tree);
    }

    /** parse_expr: the root of the tree, or a null pointer for an empty expression. */
    method ParseExpr(ts: Tokens) returns (o: Outcome)
      requires Fits(ts)
      modifies this
      ensures |old(nodes)| <= |nodes| && nodes[..|old(nodes)|] == old(nodes)
      ensures match Parse(ts)
              case Failed(e) => o == Raised(e)
              case Nothing => o == Returned(Null)
              case Found(tree) =>
                var lo := |old(nodes)| + 1;
                o == Returned(To(RootAt(tree, lo))) && Holds(nodes, tree, lo) && |nodes| == lo + Size(tree)
      decreases ts, 0
    {
      hide Shows, Parse, Run, Holds, Size, RootAt, Climb, Step, Take, Fields;
      var sn := NewNode(Stack);
      var cn := sn;
      ghost var base := sn + 1;
      ghost var st := Want(Root);
      StartShows(nodes, base);
      var rest := ts;
      var want, afterPost, afterRe := true, false, false;
      while rest.More?
        invariant Fits(rest) && |old(nodes)| + 1 == base <= |nodes|
                && forall i :: 0 <= i < base - 1 ==> nodes[i] == old(nodes)[i]
        invariant Run(st, rest) == Run(Want(Root), ts) && want == st.Want?
        invariant afterPost == (st.Have? && st.tree.Post?) && afterRe == (st.Have? && st.tree.Re?)
        invariant Shows(nodes, st, base, cn) && (ts.End? ==> rest.End? && nodes[sn].r == Null && want)
        decreases rest
      {
        var tok := rest.head;
        ShowsFacts(nodes, st, base, cn);
        RunOne(st, rest);
        StepOne(st, tok, rest.tail);
        WrongParse(ts);
        if tok.Binary? || tok.Postfix? {
          if want || (afterPost && tok.Postfix?) { return Raised(Unexpected); }
          cn := AddOperator(cn, tok, st, base);
        } else {
          if !want && !(afterRe && Attaches(tok)) { return Raised(Unexpected); }
          ghost var spine := Opened(nodes, st, tok, base, cn);
          TakeOne(spine, tok);
          if tok.Parens? {
            var sub := AddGroup(cn, tok.inner, spine, base);
            if sub.Raised? { return sub; }
            cn := sub.root.index;
          } else {
            cn := Attach(cn, InfoOf(tok), spine, base);
          }
        }
        want, afterPost, afterRe := tok.Binary? || tok.Prefix?, tok.Postfix?, tok.Regexp?;
        st := Step(st, tok);
        rest := rest.tail;
      }
      ShowsFacts(nodes, st, base, cn);
      EndShows(nodes, st, base, cn, ts);
      if want && ts.More? { return Raised(Unexpected); }
      o := Returned(nodes[sn].r);
    }

    static function InfoOf(tok: Token): Info
      requires tok.Operand? || tok.Regexp? || tok.Prefix?
    {
      match tok
      case Operand(name) => Atom(name)
      case Regexp(name) => RE(name)
      case Prefix(op) => PREFIX(op)
    }

    static lemma {:induction false} ShowsFacts(g: seq<Node>, st: State, base: nat, cn: nat)
      requires Shows(g, st, base, cn)
      ensures 1 <= base <= cn + 1 <= |g| && !st.Wrong?
    {
    }

    static lemma {:induction false} StartShows(g: seq<Node>, base: nat)
      requires base == |g| > 0 && g[base - 1].info == Stack && g[base - 1].r == Null
      ensures Shows(g, Want(Root), base, base - 1)
    {
    }

    static lemma {:induction false} StepOne(st: State, tok: Token, rest: Tokens)
      requires !st.Wrong?
      ensures forall e :: Run(Wrong(e), rest) == Wrong(e)
      ensures st.Want? && (tok.Binary? || tok.Postfix?) ==> Step(st, tok) == Wrong(Unexpected)
      ensures st.Have? && st.tree.Post? && tok.Postfix? ==> Step(st, tok) == Wrong(Unexpected)
      ensures st.Have? && !tok.Binary? && !tok.Postfix? && !(st.tree.Re? && Attaches(tok)) ==>
                Step(st, tok) == Wrong(Unexpected)
      ensures st.Have? && tok.Binary? ==> Step(st, tok).Want?
      ensures st.Have? && tok.Postfix? && !st.tree.Post? ==> Step(st, tok).Have? && Step(st, tok).tree.Post?
    {
      forall e ensures Run(Wrong(e), rest) == Wrong(e) { WrongStays(e, rest); }
    }

    /** The spine to whose top the token is attached. */
    static lemma {:induction false} Opened(g: seq<Node>, st: State, tok: Token, base: nat, cn: nat)
      returns (spine: Spine)
      requires Shows(g, st, base, cn) && !tok.Binary? && !tok.Postfix?
      requires st.Want? || (st.Have? && st.tree.Re? && Attaches(tok))
      ensures Shows(g, Want(spine), base, cn) && Step(st, tok) == Take(spine, tok)
    {
      hide HoldsBoth, HoldsSpine, Take;
      if st.Want? { return st.spine; }
      RegexpOpens(g, st.spine, st.tree.name, base, cn);
      spine := Push(FRe(st.tree.name), st.spine);
    }

    static lemma {:induction false} TakeOne(spine: Spine, tok: Token)
      ensures tok.Operand? ==> Take(spine, tok) == Have(spine, Leaf(tok.name))
      ensures tok.Regexp? ==> Take(spine, tok) == Have(spine, Re(tok.name))
      ensures tok.Prefix? ==> Take(spine, tok) == Want(Push(FPre(tok.op), spine))
      ensures tok.Parens? && !Take(spine, tok).Wrong? ==> Take(spine, tok).Have? && Take(spine, tok).tree.Group?
    {
      hide Parse;
    }

    static lemma {:induction false} WrongStays(e: Error, ts: Tokens)
      ensures Run(Wrong(e), ts) == Wrong(e)
    {
      if ts.More? { WrongStays(e, ts.tail); }
    }

    static lemma {:induction false} WrongParse(ts: Tokens)
      ensures forall e :: Run(Want(Root), ts) == Wrong(e) ==> Parse(ts) == Failed(e)
    {
    }

    static lemma {:induction false} EndShows(g: seq<Node>, st: State, base: nat, cn: nat, ts: Tokens)
      requires Shows(g, st, base, cn) && Run(st, End) == Run(Want(Root), ts)
      ensures st.Want? ==> Parse(ts) == if ts.End? then Nothing else Failed(Unexpected)
      ensures st.Have? ==> Parse(ts).Found? && var tree := Parse(ts).tree;
                           Holds(g, tree, base) && |g| == base + Size(tree) && g[base - 1].r == To(RootAt(tree, base))
    {
      hide HoldsSpine, Climb;
      if st.Have? { CloseHolds(g, st.spine, st.tree, base, cn); }
    }

    static lemma {:induction false} RunOne(st: State, ts: Tokens)
      requires ts.More?
      ensures Run(st, ts) == Run(Step(st, ts.head), ts.tail)
    {
    }
  }
}
