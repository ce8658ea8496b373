/** The expression tokenizer of the calculator (cal.tokenizeExpression): a
    left-to-right scan that turns a line of text into numbers and operator
    characters, keeps a running parenthesis balance, and sorts the integral
    literals into an even and an odd bucket supplied by the caller. */
module Tokenizer {
  import opened Outcomes
  import opened JavaText

  /** The six operator characters the tokenizer accepts. */
  predicate IsOpChar(c: char) {
    c == '+' || c == '-' || c == '*' || c == '/' || c == '(' || c == ')'
  }

  type OpChar = c: char | IsOpChar(c) witness '+'

  /** A token is a number (a Java Double) or an operator (a Java Character). */
  datatype Token = Num(value: real) | Op(symbol: OpChar)

  datatype TokenizeError =
    | InvalidCharacter(c: char)          // "Invalid character in expression: c"
    | InvalidNumberFormat(text: string)  // "Invalid number format: text"
    | ExtraClose                         // "Unbalanced parentheses: Extra ')' detected"
    | CountMismatch                      // "Unbalanced parentheses: Mismatch in '(' and ')' count"

  /** Characters that make up a number run: digits and the decimal point. */
  predicate IsNumChar(c: char) {
    IsDigit(c) || c == '.'
  }

  /** Characters the scan accepts at all. */
  predicate IsLexical(c: char) {
    IsWhitespace(c) || IsNumChar(c) || IsOpChar(c)
  }

  // ---------------------------------------------------------------------------
  // Number literals

  function CountDots(text: string): (n: nat)
    ensures n <= |text|
    ensures n == 0 <==> forall k :: 0 <= k < |text| ==> text[k] != '.'
  {
    if text == [] then 0 else (if text[0] == '.' then 1 else 0) + CountDots(text[1..])
  }

  predicate HasDigit(text: string) {
    text != [] && (IsDigit(text[0]) || HasDigit(text[1..]))
  }

  /** Double.parseDouble accepts a run of digits and dots exactly when it has
      at most one dot and at least one digit ("1.", ".5" and "12" are numbers;
      ".", "1.2.3" are not). */
  predicate WellFormedNumeral(text: string) {
    CountDots(text) <= 1 && HasDigit(text)
  }

  function Pow10(n: nat): (p: nat)
    ensures p >= 1
  {
    if n == 0 then 1 else 10 * Pow10(n - 1)
  }

  /** The exact decimal value of a numeral, read from its last character:
      a digit before the dot shifts the integer part, a digit after the dot
      adds its weight in tenths, hundredths, ... */
  function DecimalValue(text: string): (v: real)
    requires forall k :: 0 <= k < |text| ==> IsNumChar(text[k])
    ensures v >= 0.0
  {
    if text == [] then 0.0
    else
      var init := text[..|text| - 1];
      var c := text[|text| - 1];
      assert forall k :: 0 <= k < |init| ==> init[k] == text[k];
      assert IsNumChar(text[|text| - 1]);
      if c == '.' then DecimalValue(init)
      else if CountDots(init) == 0 then 10.0 * DecimalValue(init) + DigitValue(c) as real
      else DecimalValue(init) + DigitValue(c) as real / Pow10(|text| - 1 - FirstIndex(init, '.')) as real
  }

  /** Double.parseDouble applied to a run of digits and dots. */
  function ParseNumeral(text: string): (r: Option<real>)
    requires forall k :: 0 <= k < |text| ==> IsNumChar(text[k])
    ensures r.Some? <==> WellFormedNumeral(text)
    ensures r.Some? ==> r.value >= 0.0
  {
    if WellFormedNumeral(text) then Some(DecimalValue(text)) else None
  }

  // ---------------------------------------------------------------------------
  // Parity buckets

  /** Java's (int) cast of a double: truncation toward zero, saturating at the
      32-bit bounds. */
  function IntCast(v: real): (n: int)
    ensures IntMin <= n <= IntMax
    ensures IntMin as real <= v <= IntMax as real && v >= 0.0 ==> n == v.Floor
  {
    var t := if v >= 0.0 then v.Floor else -((-v).Floor);
    if t > IntMax then IntMax else if t < IntMin then IntMin else t
  }

  /** `num % 1 == 0` */
  predicate IsIntegral(v: real) {
    v.Floor as real == v
  }

  predicate IsEvenLiteral(v: real) {
    IsIntegral(v) && IntCast(v) % 2 == 0
  }

  predicate IsOddLiteral(v: real) {
    IsIntegral(v) && IntCast(v) % 2 != 0
  }

  function IntegralLiterals(ts: seq<Token>): seq<real> {
    if ts == [] then []
    else (if ts[0].Num? && IsIntegral(ts[0].value) then [ts[0].value] else []) + IntegralLiterals(ts[1..])
  }

  function EvenLiterals(ts: seq<Token>): seq<real> {
    if ts == [] then []
    else (if ts[0].Num? && IsEvenLiteral(ts[0].value) then [ts[0].value] else []) + EvenLiterals(ts[1..])
  }

  function OddLiterals(ts: seq<Token>): seq<real> {
    if ts == [] then []
    else (if ts[0].Num? && IsOddLiteral(ts[0].value) then [ts[0].value] else []) + OddLiterals(ts[1..])
  }

  lemma {:induction false} LiteralsAppend(ts: seq<Token>, t: Token)
    ensures EvenLiterals(ts + [t]) == EvenLiterals(ts) + (if t.Num? && IsEvenLiteral(t.value) then [t.value] else [])
    ensures OddLiterals(ts + [t]) == OddLiterals(ts) + (if t.Num? && IsOddLiteral(t.value) then [t.value] else [])
  {
    if ts != [] {
      LiteralsAppend(ts[1..], t);
      assert (ts + [t])[1..] == ts[1..] + [t];
    }
  }

  // ---------------------------------------------------------------------------
  // The scan, as a function of the text

  /** The end of the maximal run of number characters starting at i. */
  function RunEnd(s: string, i: nat): (j: nat)
    requires i <= |s|
    ensures i <= j <= |s|
    ensures forall k :: i <= k < j ==> IsNumChar(s[k])
    ensures j == |s| || !IsNumChar(s[j])
    decreases |s| - i
  {
    if i < |s| && IsNumChar(s[i]) then RunEnd(s, i + 1) else i
  }

  /** What a scan produced: the tokens it emitted and, if it stopped with an
      exception, which one. */
  datatype Scan = Scan(tokens: seq<Token>, failure: Option<TokenizeError>) {
    function AsResult(): Result<seq<Token>, TokenizeError> {
      if failure.None? then Ok(tokens) else Err(failure.value)
    }
  }

  function Prefixed(ts: seq<Token>, sc: Scan): Scan {
    Scan(ts + sc.tokens, sc.failure)
  }

  /** The scan from position i with `balance` parentheses open. */
  function ScanFrom(s: string, i: nat, balance: nat): (r: Scan)
    requires i <= |s|
    ensures |r.tokens| <= |s| - i
    decreases |s| - i
  {
    if i == |s| then
      Scan([], if balance != 0 then Some(CountMismatch) else None)
    else if IsWhitespace(s[i]) then
      ScanFrom(s, i + 1, balance)
    else if IsNumChar(s[i]) then
      var j := RunEnd(s, i);
      var text := s[i..j];
      if WellFormedNumeral(text) then Prefixed([Num(DecimalValue(text))], ScanFrom(s, j, balance))
      else Scan([], Some(InvalidNumberFormat(text)))
    else if IsOpChar(s[i]) then
      if s[i] == ')' && balance == 0 then Scan([Op(')')], Some(ExtraClose))
      else
        var b := if s[i] == '(' then balance + 1 else if s[i] == ')' then balance - 1 else balance;
        Prefixed([Op(s[i])], ScanFrom(s, i + 1, b))
    else
      Scan([], Some(InvalidCharacter(s[i])))
  }

  function Tokenize(s: string): (r: Scan)
    ensures |r.tokens| <= |s|
  {
    ScanFrom(s, 0, 0)
  }

  lemma PrefixedTwice(ts: seq<Token>, us: seq<Token>, sc: Scan)
    ensures Prefixed(ts, Prefixed(us, sc)) == Prefixed(ts + us, sc)
  {
    assert ts + (us + sc.tokens) == (ts + us) + sc.tokens;
  }

  /** One step of the scan at an operator character. */
  lemma ScanAtOperator(s: string, i: nat, balance: nat)
    requires i < |s| && !IsWhitespace(s[i]) && !IsNumChar(s[i]) && IsOpChar(s[i])
    ensures s[i] == ')' && balance == 0 ==> ScanFrom(s, i, balance) == Scan([Op(')')], Some(ExtraClose))
    ensures !(s[i] == ')' && balance == 0) ==>
              ScanFrom(s, i, balance)
              == Prefixed([Op(s[i])], ScanFrom(s, i + 1, if s[i] == '(' then balance + 1 else if s[i] == ')' then balance - 1 else balance))
  {
  }

  /** One step of the scan at a number character. */
  lemma ScanAtNumber(s: string, i: nat, balance: nat)
    requires i < |s| && !IsWhitespace(s[i]) && IsNumChar(s[i])
    ensures var j := RunEnd(s, i);
            ScanFrom(s, i, balance)
            == if WellFormedNumeral(s[i..j]) then Prefixed([Num(DecimalValue(s[i..j]))], ScanFrom(s, j, balance))
               else Scan([], Some(InvalidNumberFormat(s[i..j])))
  {
  }

  /** The scan step at a number run, in terms of what ParseNumeral makes of
      the run's text. */
  lemma ScanAtParsedNumber(s: string, i: nat, balance: nat, text: string, parsed: Option<real>)
    requires i < |s| && !IsWhitespace(s[i]) && IsNumChar(s[i])
    requires text == s[i..RunEnd(s, i)] && parsed == ParseNumeral(text)
    ensures parsed.None? ==> ScanFrom(s, i, balance) == Scan([], Some(InvalidNumberFormat(text)))
    ensures parsed.Some? ==>
              ScanFrom(s, i, balance) == Prefixed([Num(parsed.value)], ScanFrom(s, RunEnd(s, i), balance))
  {
    ScanAtNumber(s, i, balance);
  }

  // ---------------------------------------------------------------------------
  // The imperative tokenizer

  /** A caller-supplied collection (the even or the odd bucket). */
  class Bucket {
    var items: seq<real>

    constructor ()
      ensures items == []
    {
      items := [];
    }

    method Clear()
      modifies this
      ensures items == []
    {
      items := [];
    }

    method Add(v: real)
      modifies this
      ensures items == old(items) + [v]
    {
      items := items + [v];
    }
  }

  /** The inner loop of cal.tokenizeExpression: copies the maximal run of
      digits and dots starting at i, then steps back onto its last character
      so that the enclosing loop's increment lands just after the run. */
  method ReadRun(expr: string, i: nat) returns (sb: string, last: int)
    requires i < |expr| && IsNumChar(expr[i])
    ensures sb == expr[i..RunEnd(expr, i)]
    ensures last + 1 == RunEnd(expr, i) && i <= last
  {
    var j := i;
    sb := [];
    while j < |expr| && IsNumChar(expr[j])
      invariant i <= j <= RunEnd(expr, i)
      invariant sb == expr[i..j]
      decreases |expr| - j
    {
      sb := sb + [expr[j]];
      j := j + 1;
    }
    last := j - 1;
  }

  /** Files an integral literal under the parity of its (int) cast. */
  method Classify(num: real, even: Bucket, odd: Bucket)
    requires even != odd
    modifies even, odd
    ensures even.items == old(even.items) + (if IsEvenLiteral(num) then [num] else [])
    ensures odd.items == old(odd.items) + (if IsOddLiteral(num) then [num] else [])
  {
    if IsIntegral(num) {
      if IntCast(num) % 2 == 0 {
        even.Add(num);
      } else {
        odd.Add(num);
      }
    }
  }

  /** The number branch of the scan: read the run, parse it, and either
      stop with the malformed text or append the number and file it. */
  method NumberStep(expr: string, i: nat, balance: nat, tokens: seq<Token>, even: Bucket, odd: Bucket)
    returns (next: nat, nextTokens: seq<Token>, stop: Option<TokenizeError>)
    requires i < |expr| && IsNumChar(expr[i]) && even != odd
    requires even.items == EvenLiterals(tokens) && odd.items == OddLiterals(tokens)
    modifies even, odd
    ensures i < next <= |expr|
    ensures stop.None? ==>
              Prefixed(tokens, ScanFrom(expr, i, balance)) == Prefixed(nextTokens, ScanFrom(expr, next, balance))
    ensures stop.Some? ==> Prefixed(tokens, ScanFrom(expr, i, balance)) == Scan(nextTokens, stop)
    ensures even.items == EvenLiterals(nextTokens) && odd.items == OddLiterals(nextTokens)
  {
    var sb, last := ReadRun(expr, i);
    var parsed := ParseNumeral(sb);
    ScanAtParsedNumber(expr, i, balance, sb, parsed);
    next := last + 1;
    if parsed.None? {
      assert tokens + [] == tokens;
      nextTokens, stop := tokens, Some(InvalidNumberFormat(sb));
      return;
    }
    var num := parsed.value;
    LiteralsAppend(tokens, Num(num));
    ghost var rest := ScanFrom(expr, next, balance);
    assert ScanFrom(expr, i, balance) == Prefixed([Num(num)], rest);
    PrefixedTwice(tokens, [Num(num)], rest);
    nextTokens, stop := tokens + [Num(num)], None;
    Classify(num, even, odd);
  }

  /** One pass of the for loop of cal.tokenizeExpression at position i, with
      `balance` parentheses open: it skips a whitespace character, or reads a
      number run and files the number in its bucket, or pushes an operator;
      `stop` is the exception the pass throws, if any. */
  method ScanStep(expr: string, i: nat, balance: nat, tokens: seq<Token>, even: Bucket, odd: Bucket)
    returns (next: nat, nextBalance: nat, nextTokens: seq<Token>, stop: Option<TokenizeError>)
    requires i < |expr| && even != odd
    requires even.items == EvenLiterals(tokens) && odd.items == OddLiterals(tokens)
    modifies even, odd
    ensures i < next <= |expr|
    ensures stop.None? ==>
              Prefixed(tokens, ScanFrom(expr, i, balance)) == Prefixed(nextTokens, ScanFrom(expr, next, nextBalance))
    ensures stop.Some? ==> Prefixed(tokens, ScanFrom(expr, i, balance)) == Scan(nextTokens, stop)
    ensures even.items == EvenLiterals(nextTokens) && odd.items == OddLiterals(nextTokens)
  {
    var c := expr[i];
    nextBalance, nextTokens, stop := balance, tokens, None;
    if IsWhitespace(c) {
      assert ScanFrom(expr, i, balance) == ScanFrom(expr, i + 1, balance);
      next := i + 1;
    } else if IsNumChar(c) {
      next, nextTokens, stop := NumberStep(expr, i, balance, tokens, even, odd);
    } else if IsOpChar(c) {
      ScanAtOperator(expr, i, balance);
      LiteralsAppend(tokens, Op(c));
      nextTokens := tokens + [Op(c)];
      next := i + 1;
      if c == ')' && balance == 0 {
        stop := Some(ExtraClose);
        return;
      }
      nextBalance := if c == '(' then balance + 1 else if c == ')' then balance - 1 else balance;
      PrefixedTwice(tokens, [Op(c)], ScanFrom(expr, next, nextBalance));
    } else {
      assert ScanFrom(expr, i, balance) == Scan([], Some(InvalidCharacter(c)));
      assert tokens + [] == tokens;
      next := i + 1;
      stop := Some(InvalidCharacter(c));
    }
  }

  /** cal.tokenizeExpression: returns the tokens or the exception it throws;
      either way the buckets end up holding the even and the odd integral
      literals met before the scan stopped. */
  method TokenizeExpression(expr: string, even: Bucket, odd: Bucket) returns (r: Result<seq<Token>, TokenizeError>)
    requires even != odd
    modifies even, odd
    ensures r == Tokenize(expr).AsResult()
    ensures even.items == EvenLiterals(Tokenize(expr).tokens)
    ensures odd.items == OddLiterals(Tokenize(expr).tokens)
  {
    var tokens: seq<Token> := [];
    var balance := 0;
    even.Clear();
    odd.Clear();

    var i := 0;
    while i < |expr|
      invariant 0 <= i <= |expr|
      invariant Tokenize(expr) == Prefixed(tokens, ScanFrom(expr, i, balance))
      invariant even.items == EvenLiterals(tokens) && odd.items == OddLiterals(tokens)
    {
      var stop: Option<TokenizeError>;
      i, balance, tokens, stop := ScanStep(expr, i, balance, tokens, even, odd);
      if stop.Some? {
        return Err(stop.value);
      }
    }

    assert ScanFrom(expr, i, balance) == Scan([], if balance != 0 then Some(CountMismatch) else None);
    assert tokens + [] == tokens;
    if balance != 0 {
      return Err(CountMismatch);
    }
    return Ok(tokens);
  }
}

/** What the tokenizer promises about its output, stated against the text. */
module TokenizerFacts {
  import opened Outcomes
  import opened JavaText
  import opened Tokenizer

  // ---------------------------------------------------------------------------
  // Accepted characters

  /** The scan accepts only whitespace, digits, dots and the six operator
      characters; the character it reports as invalid is one of the text's
      and is none of those. */
  lemma {:induction false} ScanCharacters(s: string, i: nat, balance: nat)
    requires i <= |s|
    ensures ScanFrom(s, i, balance).failure.None? ==> forall k :: i <= k < |s| ==> IsLexical(s[k])
    ensures var f := ScanFrom(s, i, balance).failure;
            f.Some? && f.value.InvalidCharacter? ==> f.value.c in s[i..] && !IsLexical(f.value.c)
    ensures (forall k :: i <= k < |s| ==> IsLexical(s[k])) ==>
              var f := ScanFrom(s, i, balance).failure; !(f.Some? && f.value.InvalidCharacter?)
    decreases |s| - i
  {
    if i < |s| {
      if IsWhitespace(s[i]) {
        ScanCharacters(s, i + 1, balance);
        assert s[i + 1..] == s[i..][1..];
      } else if IsNumChar(s[i]) {
        var j := RunEnd(s, i);
        if WellFormedNumeral(s[i..j]) {
          ScanCharacters(s, j, balance);
          assert forall c :: c in s[j..] ==> c in s[i..] by {
            assert s[j..] == s[i..][j - i..];
          }
        }
      } else if IsOpChar(s[i]) {
        if !(s[i] == ')' && balance == 0) {
          ScanCharacters(s, i + 1, if s[i] == '(' then balance + 1 else if s[i] == ')' then balance - 1 else balance);
          assert s[i + 1..] == s[i..][1..];
        }
      } else {
        assert s[i] == s[i..][0];
      }
    }
  }

  lemma TokenizeCharacters(s: string)
    ensures Tokenize(s).failure.None? ==> forall k :: 0 <= k < |s| ==> IsLexical(s[k])
    ensures var f := Tokenize(s).failure;
            f.Some? && f.value.InvalidCharacter? ==> f.value.c in s && !IsLexical(f.value.c)
    ensures (forall k :: 0 <= k < |s| ==> IsLexical(s[k])) ==>
              var f := Tokenize(s).failure; !(f.Some? && f.value.InvalidCharacter?)
  {
    ScanCharacters(s, 0, 0);
    assert s[0..] == s;
  }

  // ---------------------------------------------------------------------------
  // Tokens and lexemes

  /** p starts a maximal run of digits and dots. */
  predicate IsRunStart(s: string, p: nat) {
    p < |s| && IsNumChar(s[p]) && (p == 0 || !IsNumChar(s[p - 1]))
  }

  /** p starts a lexeme: an operator character or a maximal number run. */
  predicate IsLexemeStart(s: string, p: nat) {
    p < |s| && (IsOpChar(s[p]) || IsRunStart(s, p))
  }

  /** The positions from i on where a lexeme starts, in increasing order. */
  function LexemeStarts(s: string, i: nat): (ps: seq<nat>)
    requires i <= |s|
    ensures forall k :: 0 <= k < |ps| ==> i <= ps[k] && IsLexemeStart(s, ps[k])
    decreases |s| - i
  {
    if i == |s| then []
    else (if IsLexemeStart(s, i) then [i] else []) + LexemeStarts(s, i + 1)
  }

  /** LexemeStarts lists every lexeme start from i on, each once, in
      increasing order. */
  lemma {:induction false} LexemeStartsComplete(s: string, i: nat)
    requires i <= |s|
    ensures forall k :: 0 <= k < |LexemeStarts(s, i)| ==> LexemeStarts(s, i)[k] < |s|
    ensures forall p :: i <= p < |s| && IsLexemeStart(s, p) ==> p in LexemeStarts(s, i)
    ensures forall a, b :: 0 <= a < b < |LexemeStarts(s, i)| ==> LexemeStarts(s, i)[a] < LexemeStarts(s, i)[b]
    decreases |s| - i
  {
    if i < |s| {
      LexemeStartsComplete(s, i + 1);
      var rest := LexemeStarts(s, i + 1);
      var ps := LexemeStarts(s, i);
      assert ps == (if IsLexemeStart(s, i) then [i] else []) + rest;
      forall p | i < p < |s| && IsLexemeStart(s, p) ensures p in ps {
        assert p in rest;
      }
    }
  }

  function TokenAt(s: string, p: nat): Option<Token>
    requires IsLexemeStart(s, p)
  {
    if IsOpChar(s[p]) then Some(Op(s[p]))
    else
      var text := s[p..RunEnd(s, p)];
      if WellFormedNumeral(text) then Some(Num(DecimalValue(text))) else None
  }

  /** The tokens the lexemes at ps stand for, if every one of them is valid. */
  function TokensAt(s: string, ps: seq<nat>): Option<seq<Token>>
    requires forall k :: 0 <= k < |ps| ==> IsLexemeStart(s, ps[k])
  {
    if ps == [] then Some([])
    else match (TokenAt(s, ps[0]), TokensAt(s, ps[1..]))
      case (Some(t), Some(ts)) => Some([t] + ts)
      case _ => None
  }

  lemma TokensAtCons(s: string, p: nat, ps: seq<nat>, t: Token, ts: seq<Token>)
    requires IsLexemeStart(s, p) && forall k :: 0 <= k < |ps| ==> IsLexemeStart(s, ps[k])
    requires TokenAt(s, p) == Some(t) && TokensAt(s, ps) == Some(ts)
    ensures TokensAt(s, [p] + ps) == Some([t] + ts)
  {
    assert ([p] + ps)[1..] == ps;
  }

  /** Inside a run no lexeme starts. */
  lemma {:induction false} NoStartInsideRun(s: string, k: nat, j: nat)
    requires 0 < k <= j <= |s|
    requires forall m :: k - 1 <= m < j ==> IsNumChar(s[m])
    ensures LexemeStarts(s, k) == LexemeStarts(s, j)
    decreases j - k
  {
    if k < j {
      NoStartInsideRun(s, k + 1, j);
    }
  }

  /** The scan is never started in the middle of a run. */
  predicate NotMidRun(s: string, i: nat) {
    i == 0 || i >= |s| || !IsNumChar(s[i - 1]) || !IsNumChar(s[i])
  }

  /** A successful scan emits exactly one token per lexeme, in text order:
      one number per maximal run of digits and dots, one operator per
      operator character, nothing for whitespace. */
  lemma {:induction false} ScanMatchesLexemes(s: string, i: nat, balance: nat)
    requires i <= |s| && NotMidRun(s, i)
    requires ScanFrom(s, i, balance).failure.None?
    ensures TokensAt(s, LexemeStarts(s, i)) == Some(ScanFrom(s, i, balance).tokens)
    decreases |s| - i, 1
  {
    if i == |s| {
      assert LexemeStarts(s, i) == [];
      assert ScanFrom(s, i, balance).tokens == [];
    } else if IsWhitespace(s[i]) {
      LexemesAtSpace(s, i, balance);
    } else if IsNumChar(s[i]) {
      LexemesAtNumber(s, i, balance);
    } else {
      LexemesAtOperator(s, i, balance);
    }
  }

  /** The step of ScanMatchesLexemes at a whitespace character. */
  lemma {:induction false} LexemesAtSpace(s: string, i: nat, balance: nat)
    requires i < |s| && IsWhitespace(s[i])
    requires ScanFrom(s, i, balance).failure.None?
    ensures TokensAt(s, LexemeStarts(s, i)) == Some(ScanFrom(s, i, balance).tokens)
    decreases |s| - i, 0
  {
    ScanSkipsSpace(s, i, balance);
    LexemeStartsSkipSpace(s, i);
    ScanMatchesLexemes(s, i + 1, balance);
  }

  lemma ScanSkipsSpace(s: string, i: nat, balance: nat)
    requires i < |s| && IsWhitespace(s[i])
    ensures ScanFrom(s, i, balance) == ScanFrom(s, i + 1, balance)
  {
  }

  lemma LexemeStartsSkipSpace(s: string, i: nat)
    requires i < |s| && IsWhitespace(s[i])
    ensures LexemeStarts(s, i) == LexemeStarts(s, i + 1)
  {
    assert !IsLexemeStart(s, i);
    assert [] + LexemeStarts(s, i + 1) == LexemeStarts(s, i + 1);
  }

  /** The step of ScanMatchesLexemes at the start of a number run. */
  lemma {:induction false} LexemesAtNumber(s: string, i: nat, balance: nat)
    requires i < |s| && NotMidRun(s, i) && IsNumChar(s[i]) && !IsWhitespace(s[i])
    requires ScanFrom(s, i, balance).failure.None?
    ensures TokensAt(s, LexemeStarts(s, i)) == Some(ScanFrom(s, i, balance).tokens)
    decreases |s| - i, 0
  {
    var j := RunEnd(s, i);
    var t := Num(DecimalValue(s[i..j]));
    ScanAtNumber(s, i, balance);
    assert WellFormedNumeral(s[i..j]);
    assert ScanFrom(s, i, balance) == Prefixed([t], ScanFrom(s, j, balance));
    assert NotMidRun(s, j);
    ScanMatchesLexemes(s, j, balance);
    assert IsRunStart(s, i);
    NoStartInsideRun(s, i + 1, j);
    assert LexemeStarts(s, i) == [i] + LexemeStarts(s, j);
    assert TokenAt(s, i) == Some(t);
    TokensAtCons(s, i, LexemeStarts(s, j), t, ScanFrom(s, j, balance).tokens);
  }

  /** The step of ScanMatchesLexemes at an operator character. */
  lemma {:induction false} LexemesAtOperator(s: string, i: nat, balance: nat)
    requires i < |s| && !IsWhitespace(s[i]) && !IsNumChar(s[i])
    requires ScanFrom(s, i, balance).failure.None?
    ensures TokensAt(s, LexemeStarts(s, i)) == Some(ScanFrom(s, i, balance).tokens)
    decreases |s| - i, 0
  {
    assert IsOpChar(s[i]);
    ScanAtOperator(s, i, balance);
    var b := if s[i] == '(' then balance + 1 else if s[i] == ')' then balance - 1 else balance;
    ScanMatchesLexemes(s, i + 1, b);
    assert LexemeStarts(s, i) == [i] + LexemeStarts(s, i + 1);
    TokensAtCons(s, i, LexemeStarts(s, i + 1), Op(s[i]), ScanFrom(s, i + 1, b).tokens);
  }

  lemma TokenizeMatchesLexemes(s: string)
    requires Tokenize(s).failure.None?
    ensures TokensAt(s, LexemeStarts(s, 0)) == Some(Tokenize(s).tokens)
  {
    ScanMatchesLexemes(s, 0, 0);
  }

  /** A malformed number is reported with the text of the maximal run it was
      read from, and that run has two or more dots or no digit. */
  lemma {:induction false} ScanBadNumber(s: string, i: nat, balance: nat)
    requires i <= |s| && NotMidRun(s, i)
    ensures var f := ScanFrom(s, i, balance).failure;
            f.Some? && f.value.InvalidNumberFormat? ==>
              exists p :: i <= p < |s| && IsRunStart(s, p) && f.value.text == s[p..RunEnd(s, p)]
                          && (CountDots(f.value.text) >= 2 || !HasDigit(f.value.text))
    decreases |s| - i
  {
    if i < |s| {
      if IsWhitespace(s[i]) {
        ScanBadNumber(s, i + 1, balance);
      } else if IsNumChar(s[i]) {
        assert IsRunStart(s, i);
        ScanBadNumber(s, RunEnd(s, i), balance);
      } else if IsOpChar(s[i]) && !(s[i] == ')' && balance == 0) {
        ScanBadNumber(s, i + 1, if s[i] == '(' then balance + 1 else if s[i] == ')' then balance - 1 else balance);
      }
    }
  }

  // ---------------------------------------------------------------------------
  // Parenthesis balance

  function Delta(t: Token): int {
    if t == Op('(') then 1 else if t == Op(')') then -1 else 0
  }

  /** Open minus closed parentheses among the tokens. */
  function Depth(ts: seq<Token>): int {
    if ts == [] then 0 else Delta(ts[0]) + Depth(ts[1..])
  }

  /** Every prefix closes no more parentheses than it opens, and the whole
      sequence closes all it opens. */
  predicate Balanced(ts: seq<Token>) {
    (forall k :: 0 <= k <= |ts| ==> Depth(ts[..k]) >= 0) && Depth(ts) == 0
  }

  lemma DepthCons(t: Token, ts: seq<Token>)
    ensures Depth([t] + ts) == Delta(t) + Depth(ts)
    ensures forall k :: 1 <= k <= |ts| + 1 ==> Depth(([t] + ts)[..k]) == Delta(t) + Depth(ts[..k - 1])
  {
    assert ([t] + ts)[1..] == ts;
    forall k | 1 <= k <= |ts| + 1 ensures Depth(([t] + ts)[..k]) == Delta(t) + Depth(ts[..k - 1]) {
      assert ([t] + ts)[..k][1..] == ts[..k - 1];
    }
  }

  /** The first m prefixes of ts stay at or above -b. */
  predicate PrefixesAbove(ts: seq<Token>, b: int, m: nat)
    requires m <= |ts| + 1
  {
    forall k :: 0 <= k < m ==> b + Depth(ts[..k]) >= 0
  }

  lemma PrefixesCons(t: Token, ts: seq<Token>, b: nat, m: nat)
    requires m <= |ts| + 1
    requires PrefixesAbove(ts, b + Delta(t), m)
    ensures PrefixesAbove([t] + ts, b, m + 1)
  {
    DepthCons(t, ts);
  }

  /** The balance the scan keeps is the depth of what it has emitted: no
      prefix goes below zero, except that an extra ')' stops the scan at the
      first prefix that does. */
  predicate PrefixesKept(r: Scan, balance: nat) {
    if r.failure == Some(ExtraClose) then PrefixesAbove(r.tokens, balance, |r.tokens|)
    else PrefixesAbove(r.tokens, balance, |r.tokens| + 1)
  }

  lemma PrefixedKept(t: Token, rest: Scan, balance: nat, b: nat)
    requires balance + Delta(t) == b && PrefixesKept(rest, b)
    ensures PrefixesKept(Prefixed([t], rest), balance)
  {
    if rest.failure == Some(ExtraClose) {
      PrefixesCons(t, rest.tokens, balance, |rest.tokens|);
    } else {
      PrefixesCons(t, rest.tokens, balance, |rest.tokens| + 1);
    }
  }

  lemma {:induction false} ScanPrefixes(s: string, i: nat, balance: nat)
    requires i <= |s|
    ensures PrefixesKept(ScanFrom(s, i, balance), balance)
    decreases |s| - i, 1
  {
    var r := ScanFrom(s, i, balance);
    if i == |s| {
      assert r.tokens == [];
    } else if IsWhitespace(s[i]) {
      assert r == ScanFrom(s, i + 1, balance);
      ScanPrefixes(s, i + 1, balance);
    } else if IsNumChar(s[i]) {
      PrefixesAtNumber(s, i, balance);
    } else if IsOpChar(s[i]) {
      PrefixesAtOperator(s, i, balance);
    } else {
      assert r.tokens == [];
    }
  }

  lemma {:induction false} PrefixesAtNumber(s: string, i: nat, balance: nat)
    requires i < |s| && !IsWhitespace(s[i]) && IsNumChar(s[i])
    ensures PrefixesKept(ScanFrom(s, i, balance), balance)
    decreases |s| - i, 0
  {
    var j := RunEnd(s, i);
    ScanAtNumber(s, i, balance);
    if WellFormedNumeral(s[i..j]) {
      ScanPrefixes(s, j, balance);
      PrefixedKept(Num(DecimalValue(s[i..j])), ScanFrom(s, j, balance), balance, balance);
    } else {
      assert ScanFrom(s, i, balance).tokens == [];
    }
  }

  lemma {:induction false} PrefixesAtOperator(s: string, i: nat, balance: nat)
    requires i < |s| && !IsWhitespace(s[i]) && !IsNumChar(s[i]) && IsOpChar(s[i])
    ensures PrefixesKept(ScanFrom(s, i, balance), balance)
    decreases |s| - i, 0
  {
    ScanAtOperator(s, i, balance);
    if s[i] == ')' && balance == 0 {
      assert [Op(')')][..0] == [];
    } else {
      var b := if s[i] == '(' then balance + 1 else if s[i] == ')' then balance - 1 else balance;
      ScanPrefixes(s, i + 1, b);
      PrefixedKept(Op(s[i]), ScanFrom(s, i + 1, b), balance, b);
    }
  }

  /** Where the scan ends up: balanced on success, with parentheses still
      open when it reports a count mismatch, one below zero at an extra ')'. */
  predicate DepthKept(r: Scan, balance: nat) {
    && (r.failure == None ==> balance + Depth(r.tokens) == 0)
    && (r.failure == Some(CountMismatch) ==> balance + Depth(r.tokens) > 0)
    && (r.failure == Some(ExtraClose) ==> |r.tokens| > 0 && balance + Depth(r.tokens) == -1)
  }

  lemma DepthPrefixed(t: Token, rest: Scan, balance: nat, b: nat)
    requires balance + Delta(t) == b && DepthKept(rest, b)
    ensures DepthKept(Prefixed([t], rest), balance)
  {
    DepthCons(t, rest.tokens);
  }

  lemma {:induction false} ScanFinalDepth(s: string, i: nat, balance: nat)
    requires i <= |s|
    ensures DepthKept(ScanFrom(s, i, balance), balance)
    decreases |s| - i, 1
  {
    var r := ScanFrom(s, i, balance);
    if i == |s| {
      assert r.tokens == [];
    } else if IsWhitespace(s[i]) {
      assert r == ScanFrom(s, i + 1, balance);
      ScanFinalDepth(s, i + 1, balance);
    } else if IsNumChar(s[i]) {
      FinalDepthAtNumber(s, i, balance);
    } else if IsOpChar(s[i]) {
      FinalDepthAtOperator(s, i, balance);
    } else {
      assert r.failure.value.InvalidCharacter?;
    }
  }

  lemma {:induction false} FinalDepthAtNumber(s: string, i: nat, balance: nat)
    requires i < |s| && !IsWhitespace(s[i]) && IsNumChar(s[i])
    ensures DepthKept(ScanFrom(s, i, balance), balance)
    decreases |s| - i, 0
  {
    var j := RunEnd(s, i);
    ScanAtNumber(s, i, balance);
    if WellFormedNumeral(s[i..j]) {
      ScanFinalDepth(s, j, balance);
      DepthPrefixed(Num(DecimalValue(s[i..j])), ScanFrom(s, j, balance), balance, balance);
    }
  }

  lemma {:induction false} FinalDepthAtOperator(s: string, i: nat, balance: nat)
    requires i < |s| && !IsWhitespace(s[i]) && !IsNumChar(s[i]) && IsOpChar(s[i])
    ensures DepthKept(ScanFrom(s, i, balance), balance)
    decreases |s| - i, 0
  {
    ScanAtOperator(s, i, balance);
    if s[i] == ')' && balance == 0 {
      assert Depth([Op(')')]) == -1;
    } else {
      var b := if s[i] == '(' then balance + 1 else if s[i] == ')' then balance - 1 else balance;
      ScanFinalDepth(s, i + 1, b);
      DepthPrefixed(Op(s[i]), ScanFrom(s, i + 1, b), balance, b);
    }
  }

  /** On success every prefix of the tokens has at least as many '(' as ')'
      and the totals are equal. */
  lemma TokenizeBalanced(s: string)
    requires Tokenize(s).failure.None?
    ensures Balanced(Tokenize(s).tokens)
  {
    ScanPrefixes(s, 0, 0);
    ScanFinalDepth(s, 0, 0);
  }

  // ---------------------------------------------------------------------------
  // Buckets

  /** An integral literal is filed under exactly one parity; a literal with a
      fraction under none. */
  lemma ParityExclusive(v: real)
    ensures IsIntegral(v) ==> IsEvenLiteral(v) != IsOddLiteral(v)
    ensures !IsIntegral(v) ==> !IsEvenLiteral(v) && !IsOddLiteral(v)
  {
  }

  /** The buckets together hold exactly the integral literals: the two
      bucket contents are a split of them. */
  lemma {:induction false} BucketsSplitIntegralLiterals(ts: seq<Token>)
    ensures multiset(EvenLiterals(ts)) + multiset(OddLiterals(ts)) == multiset(IntegralLiterals(ts))
  {
    if ts != [] {
      var rest := ts[1..];
      BucketsSplitIntegralLiterals(rest);
      if ts[0].Num? {
        ParityExclusive(ts[0].value);
      }
    }
  }

  /** Each bucket holds only literals of the tokens, of its own parity; a
      literal with a fraction is in neither. */
  lemma {:induction false} BucketMembers(ts: seq<Token>)
    ensures forall v :: v in EvenLiterals(ts) ==> Num(v) in ts && IsEvenLiteral(v)
    ensures forall v :: v in OddLiterals(ts) ==> Num(v) in ts && IsOddLiteral(v)
  {
    if ts != [] {
      BucketMembers(ts[1..]);
      assert ts == [ts[0]] + ts[1..];
    }
  }

  /** The (int) cast saturates: an integral literal of 2^31 or more is
      classified by the parity of 2^31 - 1 and so always lands in the odd
      bucket, whatever its own parity. */
  lemma LargeLiteralsAreOdd(v: real)
    requires IsIntegral(v) && v >= 2147483648.0
    ensures IsOddLiteral(v) && !IsEvenLiteral(v)
  {
  }

  /** Below 2^31 the bucket is the literal's own parity. */
  lemma SmallLiteralParity(v: real)
    requires IsIntegral(v) && 0.0 <= v < 2147483648.0
    ensures IsEvenLiteral(v) <==> v.Floor % 2 == 0
    ensures IsOddLiteral(v) <==> v.Floor % 2 == 1
  {
  }

  // ---------------------------------------------------------------------------
  // The values Double.parseDouble gives a numeral

  lemma {:induction false} CountDotsAppend(x: string, y: string)
    ensures CountDots(x + y) == CountDots(x) + CountDots(y)
  {
    if x == [] {
      assert x + y == y;
    } else {
      assert (x + y)[0] == x[0] && (x + y)[1..] == x[1..] + y;
      CountDotsAppend(x[1..], y);
    }
  }

  /** A run of digits reads as the integer it spells. */
  lemma {:induction false} DecimalOfDigits(s: string)
    requires AllDigits(s)
    ensures DecimalValue(s) == DigitsValue(s) as real
  {
    if s != [] {
      var init := s[..|s| - 1];
      assert AllDigits(init) by {
        forall k | 0 <= k < |init| ensures IsDigit(init[k]) {
          assert init[k] == s[k];
        }
      }
      assert CountDots(init) == 0 by {
        forall k | 0 <= k < |init| ensures init[k] != '.' {
          assert IsDigit(init[k]);
        }
      }
      DecimalOfDigits(init);
    }
  }

  /** One more digit after the point: a + x/p + d/(10p) == a + (10x + d)/(10p). */
  lemma DecimalShift(a: real, x: real, d: real, n: real, p: real, q: real, v: real, w: real)
    requires p > 0.0 && q == 10.0 * p && n == 10.0 * x + d
    requires v == a + x / p && w == v + d / q
    ensures w == a + n / q
  {
  }

  /** The unfolding of DecimalValue at a digit after the point. */
  lemma DecimalAfterPoint(text: string, dot: nat)
    requires forall k :: 0 <= k < |text| ==> IsNumChar(text[k])
    requires text != [] && IsDigit(text[|text| - 1])
    requires CountDots(text[..|text| - 1]) != 0 && dot == FirstIndex(text[..|text| - 1], '.')
    ensures dot < |text| - 1
    ensures DecimalValue(text) == DecimalValue(text[..|text| - 1]) + DigitValue(text[|text| - 1]) as real / Pow10(|text| - 1 - dot) as real
  {
  }

  /** "a.b" reads as the integer a plus b tenths, hundredths, ... */
  lemma {:induction false} DecimalOfFraction(a: string, b: string)
    requires AllDigits(a) && AllDigits(b)
    ensures forall k :: 0 <= k < |a + "." + b| ==> IsNumChar((a + "." + b)[k])
    ensures DecimalValue(a + "." + b) == DigitsValue(a) as real + DigitsValue(b) as real / Pow10(|b|) as real
    decreases |b|
  {
    var text := a + "." + b;
    if b == [] {
      assert text[..|text| - 1] == a && text[|text| - 1] == '.';
      assert DecimalValue(text) == DecimalValue(a);
      DecimalOfDigits(a);
      assert DigitsValue(b) == 0 && Pow10(|b|) == 1;
    } else {
      var b' := b[..|b| - 1];
      var c := b[|b| - 1];
      assert AllDigits(b') by {
        forall k | 0 <= k < |b'| ensures IsDigit(b'[k]) {
          assert b'[k] == b[k];
        }
      }
      var init := text[..|text| - 1];
      assert init == a + "." + b';
      assert init[|a|] == '.';
      assert CountDots(init) != 0;
      var dot := FirstIndex(init, '.');
      assert forall k :: 0 <= k < |a| ==> init[k] == a[k];
      assert dot == |a|;
      assert text[|text| - 1] == c;
      DecimalAfterPoint(text, dot);
      DecimalOfFraction(a, b');
      var p := Pow10(|b'|) as real;
      var x := DigitsValue(b') as real;
      var d := DigitValue(c) as real;
      var q := Pow10(|b|) as real;
      assert q == 10.0 * p;
      var n := DigitsValue(b) as real;
      assert n == 10.0 * x + d;
      DecimalShift(DigitsValue(a) as real, x, d, n, p, q, DecimalValue(init), DecimalValue(text));
    }
  }

  /** Double.parseDouble reads a non-empty run of digits as its integer. */
  lemma ParseDigits(s: string)
    requires s != [] && AllDigits(s)
    ensures forall k :: 0 <= k < |s| ==> IsNumChar(s[k])
    ensures ParseNumeral(s) == Some(DigitsValue(s) as real)
  {
    assert CountDots(s) == 0 by {
      forall k | 0 <= k < |s| ensures s[k] != '.' {
        assert IsDigit(s[k]);
      }
    }
    DecimalOfDigits(s);
  }

  /** "a.b" is a well-formed numeral when a digit stands on at least one
      side of the point. */
  lemma FractionWellFormed(a: string, b: string)
    requires AllDigits(a) && AllDigits(b) && a + b != []
    ensures forall k :: 0 <= k < |a + "." + b| ==> IsNumChar((a + "." + b)[k])
    ensures WellFormedNumeral(a + "." + b)
  {
    var text := a + "." + b;
    assert CountDots(a) == 0 by {
      forall k | 0 <= k < |a| ensures a[k] != '.' {
        assert IsDigit(a[k]);
      }
    }
    assert CountDots(b) == 0 by {
      forall k | 0 <= k < |b| ensures b[k] != '.' {
        assert IsDigit(b[k]);
      }
    }
    assert CountDots(".") == 1 by {
      assert "."[1..] == [];
    }
    CountDotsAppend(".", b);
    CountDotsAppend(a, "." + b);
    assert text == a + ("." + b);
    assert HasDigit(text) by {
      if a != [] {
        assert text[0] == a[0];
      } else {
        assert text[1..] == b;
        assert IsDigit(b[0]);
      }
    }
  }

  /** Double.parseDouble reads "a.b", with a digit on at least one side of
      the point, as a plus the fraction b. */
  lemma ParseFraction(a: string, b: string)
    requires AllDigits(a) && AllDigits(b) && a + b != []
    ensures forall k :: 0 <= k < |a + "." + b| ==> IsNumChar((a + "." + b)[k])
    ensures ParseNumeral(a + "." + b) == Some(DigitsValue(a) as real + DigitsValue(b) as real / Pow10(|b|) as real)
  {
    var text := a + "." + b;
    FractionWellFormed(a, b);
    DecimalOfFraction(a, b);
    var v := DigitsValue(a) as real + DigitsValue(b) as real / Pow10(|b|) as real;
    assert DecimalValue(text) == v;
    assert ParseNumeral(text) == Some(v);
  }
}
