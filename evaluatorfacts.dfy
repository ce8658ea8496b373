/** What the evaluator promises: the operator stack only ever holds the four
    arithmetic operators and '(', so the IllegalArgumentException branch of
    cal.applyOperation is dead; and on the tokens the tokenizer accepts the
    "Mismatched parentheses" checks of cal.evaluate never fire. */
module EvaluatorFacts {
  import opened Outcomes
  import opened Tokenizer
  import opened TokenizerFacts
  import opened Evaluator

  // ---------------------------------------------------------------------------
  // The operator stack

  /** Every operator on the stack is arithmetic or '('. */
  predicate ValidOps(ops: seq<char>) {
    forall k :: 0 <= k < |ops| ==> IsArith(ops[k]) || ops[k] == '('
  }

  predicate NotInvalidOperator<T>(r: Result<T, EvalError>) {
    r.Err? ==> !r.error.InvalidOperator?
  }

  lemma {:induction false} ReduceValid(m: Machine, q: nat)
    requires ValidOps(m.ops)
    ensures NotInvalidOperator(Reduce(m, q))
    ensures Reduce(m, q).Ok? ==> ValidOps(Reduce(m, q).value.ops)
    decreases |m.ops|
  {
    if !Settled(m, q) {
      assert IsArith(Top(m.ops));
      var r := ApplyTop(m);
      if r.Ok? {
        assert ValidOps(r.value.ops);
        ReduceValid(r.value, q);
      }
    }
  }

  lemma StepValid(m: Machine, t: Token, last: Option<Token>)
    requires ValidOps(m.ops)
    ensures NotInvalidOperator(Step(m, t, last))
    ensures Step(m, t, last).Ok? ==> ValidOps(Step(m, t, last).value.ops)
  {
    if t.Op? && t.symbol != '(' {
      var c := t.symbol;
      if c == ')' {
        ReduceValid(m, 0);
      } else {
        var m1 := if c == '-' && IsUnaryContext(last) then Machine(m.values + [0.0], m.ops) else m;
        ReduceValid(m1, Precedence(c));
      }
    }
  }

  lemma {:induction false} FeedValid(ts: seq<Token>, m: Machine, last: Option<Token>)
    requires ValidOps(m.ops)
    ensures NotInvalidOperator(Feed(ts, m, last))
    ensures Feed(ts, m, last).Ok? ==> ValidOps(Feed(ts, m, last).value.ops)
  {
    if ts != [] {
      StepValid(m, ts[0], last);
      var r := Step(m, ts[0], last);
      if r.Ok? {
        FeedValid(ts[1..], r.value, Some(ts[0]));
      }
    }
  }

  /** cal.applyOperation never meets an operator other than + - * and /: evaluation
      never ends in its IllegalArgumentException. */
  lemma EvalNeverInvalidOperator(ts: seq<Token>)
    ensures NotInvalidOperator(Eval(ts))
  {
    FeedValid(ts, Machine([], []), None);
    var r := Feed(ts, Machine([], []), None);
    if r.Ok? {
      ReduceValid(r.value, 0);
    }
  }

  // ---------------------------------------------------------------------------
  // Parentheses

  /** The number of '(' on the operator stack. */
  function Opens(ops: seq<char>): nat {
    if ops == [] then 0 else Opens(Pop(ops)) + (if Top(ops) == '(' then 1 else 0)
  }

  lemma {:induction false} ReduceKeepsOpens(m: Machine, q: nat)
    ensures Reduce(m, q).Ok? ==> Opens(Reduce(m, q).value.ops) == Opens(m.ops)
    decreases |m.ops|
  {
    if !Settled(m, q) {
      var r := ApplyTop(m);
      if r.Ok? {
        ReduceKeepsOpens(r.value, q);
      }
    }
  }

  /** After the reduction at ')' or at the end, a '(' still on the stack is
      on top. */
  lemma SettledOpens(m: Machine)
    requires Settled(m, 0)
    ensures m.ops != [] <==> Opens(m.ops) > 0
  {
    if m.ops != [] {
      assert Top(m.ops) == '(';
    }
  }

  lemma StepOpens(m: Machine, t: Token, last: Option<Token>)
    requires Opens(m.ops) + Delta(t) >= 0
    ensures Step(m, t, last) != Err(MismatchedParentheses)
    ensures Step(m, t, last).Ok? ==> Opens(Step(m, t, last).value.ops) == Opens(m.ops) + Delta(t)
  {
    match t
    case Num(_) =>
    case Op(c) =>
      if c == '(' {
        assert Pop(m.ops + ['(']) == m.ops;
      } else if c == ')' {
        assert Delta(t) == -1;
        ReduceKeepsOpens(m, 0);
        var r := Reduce(m, 0);
        if r.Ok? {
          SettledOpens(r.value);
          assert Opens(Pop(r.value.ops)) == Opens(r.value.ops) - 1;
        }
      } else {
        var m1 := if c == '-' && IsUnaryContext(last) then Machine(m.values + [0.0], m.ops) else m;
        ReduceKeepsOpens(m1, Precedence(c));
        var r := Reduce(m1, Precedence(c));
        if r.Ok? {
          assert Pop(r.value.ops + [c]) == r.value.ops;
        }
      }
  }

  /** While no prefix of the input closes more parentheses than are open,
      the ')' step never finds the stack without a '(' and the '(' count on
      the stack follows the depth of the input. */
  lemma {:induction false} FeedOpens(ts: seq<Token>, m: Machine, last: Option<Token>)
    requires PrefixesAbove(ts, Opens(m.ops), |ts| + 1)
    ensures Feed(ts, m, last) != Err(MismatchedParentheses)
    ensures Feed(ts, m, last).Ok? ==> Opens(Feed(ts, m, last).value.ops) == Opens(m.ops) + Depth(ts)
  {
    if ts != [] {
      var t := ts[0];
      DepthCons(t, ts[1..]);
      assert [t] + ts[1..] == ts;
      assert ts[..1] == [t];
      StepOpens(m, t, last);
      var r := Step(m, t, last);
      if r.Ok? {
        assert PrefixesAbove(ts[1..], Opens(r.value.ops), |ts[1..]| + 1) by {
          forall k | 0 <= k < |ts[1..]| + 1
            ensures Opens(r.value.ops) + Depth(ts[1..][..k]) >= 0
          {
            assert Depth(ts[..k + 1]) == Delta(t) + Depth(ts[1..][..k]);
          }
        }
        FeedOpens(ts[1..], r.value, Some(t));
      }
    }
  }

  /** On balanced input neither "Mismatched parentheses" check of
      cal.evaluate fires. */
  lemma EvalBalanced(ts: seq<Token>)
    requires Balanced(ts)
    ensures Eval(ts) != Err(MismatchedParentheses)
  {
    assert PrefixesAbove(ts, 0, |ts| + 1);
    FeedOpens(ts, Machine([], []), None);
    var r := Feed(ts, Machine([], []), None);
    if r.Ok? {
      assert Eval(ts) == Finish(r.value);
      assert Opens(r.value.ops) == 0;
      ReduceKeepsOpens(r.value, 0);
      var f := Reduce(r.value, 0);
      if f.Ok? {
        SettledOpens(f.value);
      }
    }
  }

  /** What the tokenizer accepts, the evaluator never rejects for its
      parentheses nor for an unknown operator. */
  lemma TokenizeThenEval(s: string)
    requires Tokenize(s).failure.None?
    ensures Eval(Tokenize(s).tokens) != Err(MismatchedParentheses)
    ensures NotInvalidOperator(Eval(Tokenize(s).tokens))
  {
    TokenizeBalanced(s);
    EvalBalanced(Tokenize(s).tokens);
    EvalNeverInvalidOperator(Tokenize(s).tokens);
  }

  // ---------------------------------------------------------------------------
  // The sign rule

  /** Where IsUnaryContext holds, a '-' acts as a 0 written in front of it:
      the 0 is pushed, and the '-' that follows a number is binary. */
  lemma UnaryMinusStep(m: Machine, last: Option<Token>)
    requires IsUnaryContext(last)
    ensures Step(m, Num(0.0), last) == Ok(Machine(m.values + [0.0], m.ops))
    ensures Step(m, Op('-'), last) == Step(Machine(m.values + [0.0], m.ops), Op('-'), Some(Num(0.0)))
  {
  }

  /** Feeding a '-' in sign position is feeding "0 -" there. */
  lemma UnaryMinusFeed(ts: seq<Token>, m: Machine, last: Option<Token>)
    requires IsUnaryContext(last)
    ensures Feed([Op('-')] + ts, m, last) == Feed([Num(0.0), Op('-')] + ts, m, last)
  {
    UnaryMinusStep(m, last);
    assert ([Op('-')] + ts)[0] == Op('-') && ([Op('-')] + ts)[1..] == ts;
    var zs := [Num(0.0), Op('-')] + ts;
    assert zs[0] == Num(0.0) && zs[1..] == [Op('-')] + ts;
  }

  /** The same after any prefix p, whose last token (or `last` when p is
      empty) puts the '-' in sign position. */
  lemma {:induction false} UnaryMinusAfter(p: seq<Token>, ts: seq<Token>, m: Machine, last: Option<Token>)
    requires IsUnaryContext(if p == [] then last else Some(p[|p| - 1]))
    ensures Feed(p + [Op('-')] + ts, m, last) == Feed(p + [Num(0.0), Op('-')] + ts, m, last)
    decreases |p|
  {
    if p == [] {
      assert p + [Op('-')] + ts == [Op('-')] + ts;
      assert p + [Num(0.0), Op('-')] + ts == [Num(0.0), Op('-')] + ts;
      UnaryMinusFeed(ts, m, last);
    } else {
      var a := p + [Op('-')] + ts;
      var b := p + [Num(0.0), Op('-')] + ts;
      assert a[0] == p[0] && a[1..] == p[1..] + [Op('-')] + ts;
      assert b[0] == p[0] && b[1..] == p[1..] + [Num(0.0), Op('-')] + ts;
      var s := Step(m, p[0], last);
      if s.Ok? {
        if p[1..] != [] {
          assert p[1..][|p[1..]| - 1] == p[|p| - 1];
        }
        UnaryMinusAfter(p[1..], ts, s.value, Some(p[0]));
      }
    }
  }

  /** cal.evaluate reads a leading '-' as "0 -". */
  lemma LeadingMinusIsZero(ts: seq<Token>)
    ensures Eval([Op('-')] + ts) == Eval([Num(0.0), Op('-')] + ts)
  {
    UnaryMinusFeed(ts, Machine([], []), None);
  }

  /** Elsewhere (after a number, a ')' or a '-') no 0 is pushed: the '-' is
      handled as a binary operator, exactly like '+' but for the operator
      pushed. */
  lemma BinaryMinusStep(m: Machine, last: Option<Token>)
    requires !IsUnaryContext(last)
    ensures Step(m, Op('-'), last).Ok? <==> Step(m, Op('+'), last).Ok?
    ensures Step(m, Op('-'), last).Err? ==> Step(m, Op('-'), last).error == Step(m, Op('+'), last).error
    ensures Step(m, Op('-'), last).Ok? ==>
              && Step(m, Op('-'), last).value.values == Step(m, Op('+'), last).value.values
              && Step(m, Op('-'), last).value.ops == Pop(Step(m, Op('+'), last).value.ops) + ['-']
  {
    var r := Reduce(m, 1);
    if r.Ok? {
      assert Pop(r.value.ops + ['+']) == r.value.ops;
    }
  }

  // ---------------------------------------------------------------------------
  // Worked examples of the sign rule

  /** Feed over one more token in front, with its step spelled out. */
  lemma FeedCons(t: Token, ts: seq<Token>, m: Machine, last: Option<Token>, m': Machine)
    requires Step(m, t, last) == Ok(m')
    ensures Feed([t] + ts, m, last) == Feed(ts, m', Some(t))
  {
    assert ([t] + ts)[1..] == ts;
  }

  lemma StepNumber(m: Machine, v: real, last: Option<Token>, values: seq<real>)
    requires values == m.values + [v]
    ensures Step(m, Num(v), last) == Ok(Machine(values, m.ops))
  {
  }

  lemma StepOperator(m: Machine, c: OpChar, last: Option<Token>, pushed: seq<real>, m': Machine, ops: seq<char>)
    requires IsArith(c)
    requires pushed == if c == '-' && IsUnaryContext(last) then m.values + [0.0] else m.values
    requires Reduce(Machine(pushed, m.ops), Precedence(c)) == Ok(m') && ops == m'.ops + [c]
    ensures Step(m, Op(c), last) == Ok(Machine(m'.values, ops))
  {
  }

  /** Reduce applying the top operator once and stopping. */
  lemma ReduceOnce(m: Machine, q: nat, m': Machine)
    requires !Settled(m, q) && ApplyTop(m) == Ok(m') && Settled(m', q)
    ensures Reduce(m, q) == Ok(m')
  {
  }

  /** A leading '-' is a sign: "-5+3" is -2. */
  lemma LeadingMinus()
    ensures Eval([Op('-'), Num(5.0), Op('+'), Num(3.0)]) == Ok(-2.0)
  {
    var m1 := Machine([0.0], ['-']);
    var m2 := Machine([0.0, 5.0], ['-']);
    var m3 := Machine([-5.0], ['+']);
    var m4 := Machine([-5.0, 3.0], ['+']);
    StepOperator(Machine([], []), '-', None, [0.0], Machine([0.0], []), ['-']);
    FeedCons(Op('-'), [Num(5.0), Op('+'), Num(3.0)], Machine([], []), None, m1);
    StepNumber(m1, 5.0, Some(Op('-')), [0.0, 5.0]);
    FeedCons(Num(5.0), [Op('+'), Num(3.0)], m1, Some(Op('-')), m2);
    ReduceOnce(m2, 1, Machine([-5.0], []));
    StepOperator(m2, '+', Some(Num(5.0)), m2.values, Machine([-5.0], []), ['+']);
    FeedCons(Op('+'), [Num(3.0)], m2, Some(Num(5.0)), m3);
    StepNumber(m3, 3.0, Some(Op('+')), [-5.0, 3.0]);
    FeedCons(Num(3.0), [], m3, Some(Op('+')), m4);
    ReduceOnce(m4, 0, Machine([-2.0], []));
  }

  /** After '*' a '-' is a sign: "2*-3" is 2*0-3, that is -3. */
  lemma MinusAfterTimes()
    ensures Eval([Num(2.0), Op('*'), Op('-'), Num(3.0)]) == Ok(-3.0)
  {
    var m4 := Machine([0.0, 3.0], ['-']);
    TimesFirst();
    SignAfterTimes();
    ReduceOnce(m4, 0, Machine([-3.0], []));
  }

  /** "2*" leaves 2 under a pending '*'. */
  lemma TimesFirst()
    ensures Feed([Num(2.0), Op('*'), Op('-'), Num(3.0)], Machine([], []), None)
            == Feed([Op('-'), Num(3.0)], Machine([2.0], ['*']), Some(Op('*')))
  {
    var m1 := Machine([2.0], []);
    StepNumber(Machine([], []), 2.0, None, [2.0]);
    FeedCons(Num(2.0), [Op('*'), Op('-'), Num(3.0)], Machine([], []), None, m1);
    StepOperator(m1, '*', Some(Num(2.0)), [2.0], m1, ['*']);
    FeedCons(Op('*'), [Op('-'), Num(3.0)], m1, Some(Num(2.0)), Machine([2.0], ['*']));
  }

  /** The '-' after '*' pushes 0, which the pending '*' takes as its right
      operand before the '-' is pushed. */
  lemma SignAfterTimes()
    ensures Feed([Op('-'), Num(3.0)], Machine([2.0], ['*']), Some(Op('*'))) == Ok(Machine([0.0, 3.0], ['-']))
  {
    var m2 := Machine([2.0], ['*']);
    var m3 := Machine([0.0], ['-']);
    ReduceOnce(Machine([2.0, 0.0], ['*']), 1, Machine([0.0], []));
    StepOperator(m2, '-', Some(Op('*')), [2.0, 0.0], Machine([0.0], []), ['-']);
    FeedCons(Op('-'), [Num(3.0)], m2, Some(Op('*')), m3);
    StepNumber(m3, 3.0, Some(Op('-')), [0.0, 3.0]);
    FeedCons(Num(3.0), [], m3, Some(Op('-')), Machine([0.0, 3.0], ['-']));
  }

  /** After '-' a '-' is not a sign: "5--3" is missing an operand. */
  lemma MinusAfterMinus()
    ensures Eval([Num(5.0), Op('-'), Op('-'), Num(3.0)]) == Err(MissingOperand('-'))
  {
    var m1 := Machine([5.0], []);
    var m2 := Machine([5.0], ['-']);
    StepNumber(Machine([], []), 5.0, None, [5.0]);
    FeedCons(Num(5.0), [Op('-'), Op('-'), Num(3.0)], Machine([], []), None, m1);
    StepOperator(m1, '-', Some(Num(5.0)), [5.0], m1, ['-']);
    FeedCons(Op('-'), [Op('-'), Num(3.0)], m1, Some(Num(5.0)), m2);
    assert !IsUnaryContext(Some(Op('-')));
    assert Reduce(m2, 1) == Err(MissingOperand('-'));
    assert Step(m2, Op('-'), Some(Op('-'))) == Err(MissingOperand('-'));
    assert [Op('-'), Num(3.0)][0] == Op('-');
  }

  /** Dividing by zero is the ArithmeticException of cal.applyOperation. */
  lemma DivideByZero()
    ensures Eval([Num(5.0), Op('/'), Num(0.0)]) == Err(DivisionByZero)
  {
    var m1 := Machine([5.0], []);
    var m2 := Machine([5.0], ['/']);
    var m3 := Machine([5.0, 0.0], ['/']);
    StepNumber(Machine([], []), 5.0, None, [5.0]);
    FeedCons(Num(5.0), [Op('/'), Num(0.0)], Machine([], []), None, m1);
    StepOperator(m1, '/', Some(Num(5.0)), [5.0], m1, ['/']);
    FeedCons(Op('/'), [Num(0.0)], m1, Some(Num(5.0)), m2);
    StepNumber(m2, 0.0, Some(Op('/')), [5.0, 0.0]);
    FeedCons(Num(0.0), [], m2, Some(Op('/')), m3);
    assert ApplyTop(m3) == Err(DivisionByZero);
  }
}
