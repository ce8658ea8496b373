/** A reference semantics for the calculator's evaluator: arithmetic
    expression trees, their value computed by structural recursion, and
    their rendering as calculator tokens with the fewest parentheses that
    keep the tree's shape under the usual rules (multiplication and
    division bind tighter than addition and subtraction, and operators of
    the same rank group to the left). The theorem is that cal.evaluate
    computes the tree's value from that rendering. */
module ExprTrees {
  import opened Outcomes
  import opened Tokenizer
  import opened Evaluator
  import opened EvaluatorFacts

  type ArithOp = c: char | IsArith(c) witness '+'

  datatype Expr = Lit(v: real) | Bin(op: ArithOp, left: Expr, right: Expr)

  /** The value of a tree; the left operand is evaluated before the right
      one, and the first failure wins. */
  function Value(e: Expr): Result<real, EvalError> {
    match e
    case Lit(v) => Ok(v)
    case Bin(op, l, r) =>
      match Value(l)
      case Err(x) => Err(x)
      case Ok(a) =>
        match Value(r)
        case Err(x) => Err(x)
        case Ok(b) => ApplyOperation(a, b, op)
  }

  /** How tightly the tree's top binds: a literal is atomic. */
  function Rank(e: Expr): nat {
    match e
    case Lit(_) => 3
    case Bin(op, _, _) => Precedence(op)
  }

  function Parenthesized(ts: seq<Token>): seq<Token> {
    [Op('(')] + ts + [Op(')')]
  }

  /** An operand of `op`, in parentheses when it is needed. */
  function Operand(e: Expr, paren: bool): seq<Token>
    decreases e, 1
  {
    if paren then Parenthesized(Render(e)) else Render(e)
  }

  /** The left operand needs parentheses when it binds more loosely than its
      operator, the right operand also when it binds exactly as tightly. */
  function Render(e: Expr): seq<Token>
    decreases e, 0
  {
    match e
    case Lit(v) => [Num(v)]
    case Bin(op, l, r) =>
      Operand(l, Rank(l) < Precedence(op)) + [Op(op)] + Operand(r, Rank(r) <= Precedence(op))
  }

  /** A rendering starts with a number or '(' and ends with a number or ')',
      so a '-' inside it always follows one of those and is never read as a
      sign. */
  lemma {:induction false} RenderEnds(e: Expr)
    ensures Render(e) != []
    ensures Render(e)[0].Num? || Render(e)[0] == Op('(')
    ensures var t := Render(e)[|Render(e)| - 1]; t.Num? || t == Op(')')
  {
    match e
    case Lit(_) =>
    case Bin(op, l, r) =>
      RenderEnds(l);
      RenderEnds(r);
      var L := Operand(l, Rank(l) < Precedence(op));
      var R := Operand(r, Rank(r) <= Precedence(op));
      assert Render(e) == L + [Op(op)] + R;
      assert Render(e)[0] == L[0];
      assert Render(e)[|Render(e)| - 1] == R[|R| - 1];
  }

  // ---------------------------------------------------------------------------
  // Composing the evaluator's steps

  /** Reduce after a computation that may already have failed. */
  function Then(r: Result<Machine, EvalError>, q: nat): Result<Machine, EvalError> {
    match r
    case Ok(m) => Reduce(m, q)
    case Err(e) => Err(e)
  }

  /** m with the value pushed, or the failure. */
  function Pushed(m: Machine, v: Result<real, EvalError>): Result<Machine, EvalError> {
    match v
    case Ok(x) => Ok(Machine(m.values + [x], m.ops))
    case Err(e) => Err(e)
  }

  /** Feeding ts after a computation that may already have failed. */
  function Continue(r: Result<Machine, EvalError>, ts: seq<Token>, last: Option<Token>): Result<Machine, EvalError> {
    match r
    case Ok(m) => Feed(ts, m, last)
    case Err(e) => Err(e)
  }

  lemma {:induction false} FeedAppend(a: seq<Token>, b: seq<Token>, m: Machine, last: Option<Token>)
    requires a != []
    ensures Feed(a + b, m, last) == Continue(Feed(a, m, last), b, Some(a[|a| - 1]))
    decreases |a|
  {
    assert (a + b)[0] == a[0];
    assert (a + b)[1..] == a[1..] + b;
    var s := Step(m, a[0], last);
    if s.Ok? {
      if |a| > 1 {
        FeedAppend(a[1..], b, s.value, Some(a[0]));
        assert a[1..][|a[1..]| - 1] == a[|a| - 1];
      } else {
        assert a[1..] == [];
      }
    }
  }

  lemma PushedTwice(xs: seq<real>, a: real, b: real)
    ensures xs + [a] + [b] == xs + [a, b]
  {
  }

  /** Reducing down to q is reducing down to a higher level q' first. */
  lemma {:induction false} ReduceCompose(m: Machine, q: nat, q': nat)
    requires q <= q'
    ensures Reduce(m, q) == Then(Reduce(m, q'), q)
    decreases |m.ops|
  {
    if !Settled(m, q') {
      var r := ApplyTop(m);
      if r.Ok? {
        ReduceCompose(r.value, q, q');
      }
    }
  }

  /** An operand, like a rendering, ends with a number or ')'. */
  lemma OperandEnds(e: Expr, paren: bool)
    ensures Operand(e, paren) != []
    ensures var t := Operand(e, paren)[|Operand(e, paren)| - 1]; t.Num? || t == Op(')')
  {
    RenderEnds(e);
  }

  /** With a and b on top of a settled machine and op above them, reducing
      applies op and stops. */
  lemma ReduceApplied(m: Machine, a: real, b: real, op: ArithOp, q: nat)
    requires Settled(m, q) && q <= Precedence(op)
    ensures Reduce(Machine(m.values + [a, b], m.ops + [op]), q) == Pushed(m, ApplyOperation(a, b, op))
  {
    var m2 := Machine(m.values + [a, b], m.ops + [op]);
    assert !Settled(m2, q);
    assert Pop(m2.values) == m.values + [a];
    assert Pop(Pop(m2.values)) == m.values;
    assert Pop(m2.ops) == m.ops;
    var c := ApplyOperation(a, b, op);
    if c.Ok? {
      assert ApplyTop(m2) == Ok(Machine(m.values + [c.value], m.ops));
    }
  }

  /** Opening a parenthesis, feeding ts and closing it again pushes the
      value ts reduces to inside the parenthesis. */
  lemma CloseParen(ts: seq<Token>, m: Machine, last: Option<Token>, v: Result<real, EvalError>, q: nat)
    requires ts != []
    requires Settled(m, q)
    requires Then(Feed(ts, Machine(m.values, m.ops + ['(']), Some(Op('('))), 0) == Pushed(Machine(m.values, m.ops + ['(']), v)
    ensures Then(Feed(Parenthesized(ts), m, last), q) == Pushed(m, v)
  {
    var inner := Machine(m.values, m.ops + ['(']);
    assert Parenthesized(ts) == [Op('(')] + (ts + [Op(')')]);
    assert Step(m, Op('('), last) == Ok(inner);
    FeedCons(Op('('), ts + [Op(')')], m, last, inner);
    FeedAppend(ts, [Op(')')], inner, Some(Op('(')));
    var f := Feed(ts, inner, Some(Op('(')));
    if f.Ok? {
      assert [Op(')')][1..] == [];
      if v.Ok? {
        var m2 := Machine(m.values + [v.value], m.ops);
        assert Pop(inner.ops) == m.ops;
        assert Step(f.value, Op(')'), Some(ts[|ts| - 1])) == Ok(m2);
        assert Feed([Op(')')], f.value, Some(ts[|ts| - 1])) == Ok(m2);
        assert Feed(Parenthesized(ts), m, last) == Ok(m2);
        assert Reduce(m2, q) == Ok(m2);
      }
    }
  }

  /** After a left operand that reduced to v, the operator op is pushed on
      top of v and feeding goes on with the right operand. */
  lemma OperatorAfter(L: seq<Token>, R: seq<Token>, op: ArithOp, m: Machine, last: Option<Token>, v: Result<real, EvalError>)
    requires L != [] && (L[|L| - 1].Num? || L[|L| - 1] == Op(')'))
    requires Then(Feed(L, m, last), Precedence(op)) == Pushed(m, v)
    ensures Feed(L + ([Op(op)] + R), m, last)
            == if v.Ok? then Feed(R, Machine(m.values + [v.value], m.ops + [op]), Some(Op(op))) else Err(v.error)
  {
    FeedAppend(L, [Op(op)] + R, m, last);
    var f := Feed(L, m, last);
    if f.Ok? {
      assert ([Op(op)] + R)[0] == Op(op);
      assert ([Op(op)] + R)[1..] == R;
      assert !IsUnaryContext(Some(L[|L| - 1]));
      if v.Ok? {
        assert Step(f.value, Op(op), Some(L[|L| - 1])) == Ok(Machine(m.values + [v.value], m.ops + [op]));
      }
    }
  }

  /** With a and op on a machine settled at q, a right operand that reduces
      to w above op leads, reduced down to q, to a op w. */
  lemma OperatorApplied(R: seq<Token>, a: real, op: ArithOp, m: Machine, w: Result<real, EvalError>, q: nat)
    requires Settled(m, q) && q <= Precedence(op)
    requires var m2 := Machine(m.values + [a], m.ops + [op]);
             Then(Feed(R, m2, Some(Op(op))), Precedence(op) + 1) == Pushed(m2, w)
    ensures Then(Feed(R, Machine(m.values + [a], m.ops + [op]), Some(Op(op))), q)
            == if w.Ok? then Pushed(m, ApplyOperation(a, w.value, op)) else Err(w.error)
  {
    var m2 := Machine(m.values + [a], m.ops + [op]);
    var f := Feed(R, m2, Some(Op(op)));
    if f.Ok? {
      ReduceCompose(f.value, q, Precedence(op) + 1);
      if w.Ok? {
        PushedTwice(m.values, a, w.value);
        ReduceApplied(m, a, w.value, op, q);
      }
    }
  }

  // ---------------------------------------------------------------------------
  // The theorem

  /** Started on a machine whose top operator binds more loosely than q (or
      is '(' or absent), feeding an operand and then reducing down to q
      leaves the machine as it was with the operand's value pushed. */
  lemma {:induction false} OperandReduces(e: Expr, paren: bool, m: Machine, last: Option<Token>, q: nat)
    requires paren || q <= Rank(e)
    requires Settled(m, q)
    ensures Then(Feed(Operand(e, paren), m, last), q) == Pushed(m, Value(e))
    decreases e, 1
  {
    if !paren {
      RenderReduces(e, m, last, q);
    } else {
      RenderEnds(e);
      RenderReduces(e, Machine(m.values, m.ops + ['(']), Some(Op('(')), 0);
      CloseParen(Render(e), m, last, Value(e), q);
    }
  }

  /** A literal is pushed and nothing is reduced. */
  lemma LiteralReduces(v: real, m: Machine, last: Option<Token>, q: nat)
    requires Settled(m, q)
    ensures Then(Feed([Num(v)], m, last), q) == Pushed(m, Ok(v))
  {
    assert [Num(v)][1..] == [];
    assert Reduce(Machine(m.values + [v], m.ops), q) == Ok(Machine(m.values + [v], m.ops));
  }

  lemma {:induction false} RenderReduces(e: Expr, m: Machine, last: Option<Token>, q: nat)
    requires q <= Rank(e)
    requires Settled(m, q)
    ensures Then(Feed(Render(e), m, last), q) == Pushed(m, Value(e))
    decreases e, 0
  {
    match e
    case Lit(v) =>
      LiteralReduces(v, m, last, q);
    case Bin(op, l, r) =>
      var pl := Rank(l) < Precedence(op);
      var pr := Rank(r) <= Precedence(op);
      var L := Operand(l, pl);
      var R := Operand(r, pr);
      assert Render(e) == L + ([Op(op)] + R);
      OperandEnds(l, pl);
      OperandReduces(l, pl, m, last, Precedence(op));
      OperatorAfter(L, R, op, m, last, Value(l));
      if Value(l).Ok? {
        var m2 := Machine(m.values + [Value(l).value], m.ops + [op]);
        OperandReduces(r, pr, m2, Some(Op(op)), Precedence(op) + 1);
        OperatorApplied(R, Value(l).value, op, m, Value(r), q);
      }
  }

  /** cal.evaluate computes the value of the tree from its rendering. */
  lemma EvalRender(e: Expr)
    ensures Eval(Render(e)) == Value(e)
  {
    RenderReduces(e, Machine([], []), None, 0);
  }
}
