/** The calculator's evaluator (cal.evaluate, cal.evaluateTop, cal.precedence
    and cal.applyOperation): a shunting-yard pass over the tokens with a stack
    of values and a stack of operator characters. Both stacks are sequences
    whose top is the LAST element. */
module Evaluator {
  import opened Outcomes
  import opened Tokenizer

  datatype EvalError =
    | MissingOperand(op: char)   // "Missing operand for operator: op"
    | DivisionByZero             // ArithmeticException "Division by zero"
    | MismatchedParentheses      // "Mismatched parentheses"
    | Malformed                  // "Malformed expression. Check operators and operands"
    | InvalidOperator(op: char)  // IllegalArgumentException "Invalid operator: op"

  /** The four arithmetic operator characters. */
  predicate IsArith(c: char) {
    c == '+' || c == '-' || c == '*' || c == '/'
  }

  /** cal.precedence: multiplicative operators bind tighter than additive
      ones; '(' and ')' rank below both. */
  function Precedence(op: char): (p: nat)
    ensures p <= 2
    ensures p > 0 <==> IsArith(op)
    ensures p == 2 <==> op == '*' || op == '/'
    ensures p == 1 <==> op == '+' || op == '-'
  {
    if op == '+' || op == '-' then 1 else if op == '*' || op == '/' then 2 else 0
  }

  /** cal.applyOperation on exact reals. */
  function ApplyOperation(a: real, b: real, op: char): (r: Result<real, EvalError>)
    ensures r.Err? <==> !IsArith(op) || (op == '/' && b == 0.0)
    ensures r.Err? ==> r.error == (if IsArith(op) then DivisionByZero else InvalidOperator(op))
    ensures r.Ok? && op == '+' ==> r.value - b == a
    ensures r.Ok? && op == '-' ==> r.value + b == a
    ensures r.Ok? && op == '/' ==> r.value * b == a
    ensures op == '*' ==> r == Ok(a * b)
  {
    match op
    case '+' => Ok(a + b)
    case '-' => Ok(a - b)
    case '*' => Ok(a * b)
    case '/' => if b == 0.0 then Err(DivisionByZero) else Ok(a / b)
    case _ => Err(InvalidOperator(op))
  }

  function Top<T>(s: seq<T>): T
    requires s != []
  {
    s[|s| - 1]
  }

  function Pop<T>(s: seq<T>): seq<T>
    requires s != []
  {
    s[..|s| - 1]
  }

  /** The two stacks of cal.evaluate as a value. */
  datatype Machine = Machine(values: seq<real>, ops: seq<char>)

  /** cal.evaluateTop: pops b, then a, then the operator, and pushes a op b;
      fewer than two values is a missing operand. */
  function ApplyTop(m: Machine): (r: Result<Machine, EvalError>)
    requires m.ops != []
    ensures r == Err(MissingOperand(Top(m.ops))) <==> |m.values| < 2
    ensures r.Err? ==> r.error.MissingOperand? || r.error == DivisionByZero || r.error.InvalidOperator?
    ensures r.Ok? ==> && |m.values| >= 2
                      && r.value.ops == Pop(m.ops)
                      && |r.value.values| == |m.values| - 1
                      && r.value.values[..|m.values| - 2] == m.values[..|m.values| - 2]
                      && ApplyOperation(m.values[|m.values| - 2], Top(m.values), Top(m.ops)) == Ok(Top(r.value.values))
    ensures |m.values| >= 2 ==>
              var applied := ApplyOperation(m.values[|m.values| - 2], Top(m.values), Top(m.ops));
              && (r.Ok? <==> applied.Ok?)
              && (r.Err? ==> r.error == applied.error)
  {
    var op := Top(m.ops);
    if |m.values| < 2 then Err(MissingOperand(op))
    else
      var b := Top(m.values);
      var rest := Pop(m.values);
      var a := Top(rest);
      match ApplyOperation(a, b, op)
      case Ok(v) => Ok(Machine(Pop(rest) + [v], Pop(m.ops)))
      case Err(e) => Err(e)
  }

  /** No operator on top of the stack that binds at least as tightly as q. */
  predicate Settled(m: Machine, q: nat) {
    m.ops == [] || Top(m.ops) == '(' || Precedence(Top(m.ops)) < q
  }

  /** The inner loops of cal.evaluate: apply the top operator while there is
      one, it is not '(' and its precedence is at least q. With q = 0 this is
      the loop run at ')' and at the end of the input. */
  function Reduce(m: Machine, q: nat): (r: Result<Machine, EvalError>)
    ensures r.Err? ==> r.error.MissingOperand? || r.error == DivisionByZero || r.error.InvalidOperator?
    ensures r.Ok? ==> Settled(r.value, q)
    ensures r.Ok? ==> |r.value.ops| <= |m.ops| && r.value.ops == m.ops[..|r.value.ops|]
    ensures r.Ok? ==> |m.values| - |r.value.values| == |m.ops| - |r.value.ops|
    ensures r.Ok? ==> forall k :: |r.value.ops| <= k < |m.ops| ==> m.ops[k] != '(' && Precedence(m.ops[k]) >= q
    decreases |m.ops|
  {
    if Settled(m, q) then Ok(m)
    else
      match ApplyTop(m)
      case Ok(m') => Reduce(m', q)
      case Err(e) => Err(e)
  }

  /** The tokens after which a '-' is read as a sign and a 0.0 is pushed in
      front of it: none at all, or one of "*" "/" "+" "(". */
  predicate IsUnaryContext(last: Option<Token>) {
    last.None? || (last.value.Op? && last.value.symbol in "*/+(")
  }

  /** One pass of the for loop of cal.evaluate. */
  function Step(m: Machine, t: Token, last: Option<Token>): (r: Result<Machine, EvalError>)
    ensures r.Err? ==> r.error != Malformed
    ensures r == Err(MismatchedParentheses) ==> t == Op(')')
  {
    match t
    case Num(v) => Ok(Machine(m.values + [v], m.ops))
    case Op(c) =>
      if c == '(' then Ok(Machine(m.values, m.ops + ['(']))
      else if c == ')' then
        match Reduce(m, 0)
        case Ok(m') => if m'.ops == [] then Err(MismatchedParentheses) else Ok(Machine(m'.values, Pop(m'.ops)))
        case Err(e) => Err(e)
      else
        var m1 := if c == '-' && IsUnaryContext(last) then Machine(m.values + [0.0], m.ops) else m;
        match Reduce(m1, Precedence(c))
        case Ok(m') => Ok(Machine(m'.values, m'.ops + [c]))
        case Err(e) => Err(e)
  }

  /** The for loop of cal.evaluate over ts, `last` being the token before. */
  function Feed(ts: seq<Token>, m: Machine, last: Option<Token>): (r: Result<Machine, EvalError>)
    ensures r.Err? ==> r.error != Malformed
    ensures r == Err(MismatchedParentheses) ==> Op(')') in ts
  {
    if ts == [] then Ok(m)
    else
      match Step(m, ts[0], last)
      case Ok(m') => Feed(ts[1..], m', Some(ts[0]))
      case Err(e) => Err(e)
  }

  /** After the loop: apply what is left, fail on a '(' still open, and
      demand exactly one value. */
  function Finish(m: Machine): (r: Result<real, EvalError>)
    ensures r.Ok? ==> Reduce(m, 0).Ok? && Reduce(m, 0).value.ops == [] && Reduce(m, 0).value.values == [r.value]
    ensures Reduce(m, 0).Err? ==> r == Err(Reduce(m, 0).error)
    ensures r == Err(MismatchedParentheses)
            <==> Reduce(m, 0).Ok? && Reduce(m, 0).value.ops != [] && Top(Reduce(m, 0).value.ops) == '('
    ensures r == Err(Malformed)
            <==> Reduce(m, 0).Ok? && Reduce(m, 0).value.ops == [] && |Reduce(m, 0).value.values| != 1
    ensures Reduce(m, 0).Ok? && Reduce(m, 0).value.ops == [] && |Reduce(m, 0).value.values| == 1 ==> r.Ok?
    ensures '(' !in m.ops ==> r != Err(MismatchedParentheses)
  {
    match Reduce(m, 0)
    case Ok(m') =>
      if m'.ops != [] then Err(MismatchedParentheses)
      else if |m'.values| != 1 then Err(Malformed)
      else Ok(m'.values[0])
    case Err(e) => Err(e)
  }

  /** The rest of the evaluation from machine m with ts still to come. */
  function Resume(ts: seq<Token>, m: Machine, last: Option<Token>): (r: Result<real, EvalError>)
    ensures r.Ok? || r == Err(Malformed) ==> Feed(ts, m, last).Ok?
  {
    match Feed(ts, m, last)
    case Ok(m') => Finish(m')
    case Err(e) => Err(e)
  }

  /** A lone number, fed to empty stacks, is the whole result. */
  lemma SingleNumber(ts: seq<Token>)
    ensures |ts| == 1 && ts[0].Num? ==> Resume(ts, Machine([], []), None) == Ok(ts[0].value)
  {
    if |ts| == 1 && ts[0].Num? {
      var m := Machine([ts[0].value], []);
      assert ts[0] == Num(ts[0].value) && [] + [ts[0].value] == [ts[0].value];
      assert Step(Machine([], []), ts[0], None) == Ok(m);
      assert Feed(ts[1..], m, Some(ts[0])) == Ok(m);
      assert Settled(m, 0);
    }
  }

  /** cal.evaluate, with its exceptions as errors. */
  function Eval(ts: seq<Token>): (r: Result<real, EvalError>)
    ensures ts == [] ==> r == Err(Malformed)
    ensures |ts| == 1 && ts[0].Num? ==> r == Ok(ts[0].value)
  {
    SingleNumber(ts);
    Resume(ts, Machine([], []), None)
  }

  // ---------------------------------------------------------------------------
  // The imperative evaluator

  /** The two linked lists cal.evaluate allocates and cal.evaluateTop pops. */
  class Stacks {
    var values: seq<real>
    var ops: seq<char>

    constructor()
      ensures values == [] && ops == []
    {
      values, ops := [], [];
    }

    function State(): Machine
      reads this
    {
      Machine(values, ops)
    }

    /** cal.evaluateTop. On an error the stacks are left as the source leaves
        them: the operands and the operator already popped. */
    method EvaluateTop() returns (failure: Option<EvalError>)
      requires ops != []
      modifies this
      ensures ApplyTop(old(State())).Ok? ==> failure.None? && State() == ApplyTop(old(State())).value
      ensures ApplyTop(old(State())).Err? ==> failure == Some(ApplyTop(old(State())).error)
    {
      if |values| < 2 {
        return Some(MissingOperand(ops[|ops| - 1]));
      }
      var b := values[|values| - 1];
      values := values[..|values| - 1];
      var a := values[|values| - 1];
      values := values[..|values| - 1];
      var op := ops[|ops| - 1];
      ops := ops[..|ops| - 1];
      var result := ApplyOperation(a, b, op);
      if result.Err? {
        return Some(result.error);
      }
      values := values + [result.value];
      return None;
    }

    /** The while loops of cal.evaluate that call evaluateTop: pops
        operators binding at least as tightly as q, down to a '('. */
    method ReduceTo(q: nat) returns (failure: Option<EvalError>)
      modifies this
      ensures failure.None? ==> Reduce(old(State()), q) == Ok(State())
      ensures failure.Some? ==> Reduce(old(State()), q) == Err(failure.value)
    {
      while ops != [] && ops[|ops| - 1] != '(' && Precedence(ops[|ops| - 1]) >= q
        invariant Reduce(old(State()), q) == Reduce(State(), q)
        decreases |ops|
      {
        failure := EvaluateTop();
        if failure.Some? {
          return;
        }
      }
      return None;
    }
  }

  /** cal.evaluate over a list of tokens. */
  method Evaluate(tokens: seq<Token>) returns (r: Result<real, EvalError>)
    ensures r == Eval(tokens)
  {
    var stacks := new Stacks();
    var last: Option<Token> := None;
    var i := 0;
    while i < |tokens|
      invariant i <= |tokens|
      invariant Eval(tokens) == Resume(tokens[i..], stacks.State(), last)
    {
      var token := tokens[i];
      ghost var before := stacks.State();
      assert tokens[i..][1..] == tokens[i + 1..];
      match token {
        case Num(v) =>
          stacks.values := stacks.values + [v];
        case Op(c) =>
          if c == '(' {
            stacks.ops := stacks.ops + [c];
          } else if c == ')' {
            var failure := stacks.ReduceTo(0);
            if failure.Some? {
              return Err(failure.value);
            }
            if stacks.ops == [] {
              return Err(MismatchedParentheses);
            }
            stacks.ops := stacks.ops[..|stacks.ops| - 1];
          } else {
            if c == '-' && IsUnaryContext(last) {
              stacks.values := stacks.values + [0.0];
            }
            var failure := stacks.ReduceTo(Precedence(c));
            if failure.Some? {
              return Err(failure.value);
            }
            stacks.ops := stacks.ops + [c];
          }
      }
      assert Step(before, token, last) == Ok(stacks.State());
      last := Some(token);
      i := i + 1;
    }
    assert Feed([], stacks.State(), last) == Ok(stacks.State());

    while stacks.ops != []
      invariant Eval(tokens) == Finish(stacks.State())
      decreases |stacks.ops|
    {
      if stacks.ops[|stacks.ops| - 1] == '(' {
        return Err(MismatchedParentheses);
      }
      var failure := stacks.EvaluateTop();
      if failure.Some? {
        return Err(failure.value);
      }
    }
    if |stacks.values| != 1 {
      return Err(Malformed);
    }
    return Ok(stacks.values[|stacks.values| - 1]);
  }
}
