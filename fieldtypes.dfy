/** The column-type helpers of the database client (dgfx8.convertType,
    dgfx8.getSqlType and the base-type extraction `type.split("\\(")[0].trim()`):
    turning the text of a form field into a typed value for a column, and
    the JDBC type code used to bind a null. */
module FieldTypes {
  import opened Outcomes
  import opened JavaText

  // ---------------------------------------------------------------------------
  // Integer.parseInt and Integer.toString

  /** The position after an optional leading sign. */
  function SignLength(s: string): (n: nat)
    ensures n <= 1 && n <= |s|
  {
    if s != [] && (s[0] == '-' || s[0] == '+') then 1 else 0
  }

  /** Integer.parseInt(s, 10) on ASCII digits: an optional sign, at least one
      digit, and a value within 32 bits. */
  function ParseInt(s: string): (r: Option<int>)
    ensures r.Some? <==> && |s| > SignLength(s)
                         && AllDigits(s[SignLength(s)..])
                         && InInt32(if SignLength(s) == 1 && s[0] == '-' then -(DigitsValue(s[1..]) as int) else DigitsValue(s[SignLength(s)..]) as int)
    ensures r.Some? ==> InInt32(r.value)
    ensures r.Some? ==> r.value == (if SignLength(s) == 1 && s[0] == '-' then -(DigitsValue(s[1..]) as int) else DigitsValue(s[SignLength(s)..]) as int)
    ensures r.Some? && s[0] == '-' ==> r.value <= 0
    ensures r.Some? && s[0] != '-' ==> r.value >= 0
  {
    var start := SignLength(s);
    var digits := s[start..];
    if digits == [] || !AllDigits(digits) then None
    else
      var v: int := if start == 1 && s[0] == '-' then -(DigitsValue(digits) as int) else DigitsValue(digits) as int;
      if InInt32(v) then Some(v) else None
  }

  /** A sign and leading zeros are read as Integer.parseInt reads them. */
  lemma ParseIntExamples()
    ensures ParseInt("+7") == Some(7)
    ensures ParseInt("007") == Some(7)
    ensures ParseInt("-12") == Some(-12)
    ensures ParseInt("+") == None && ParseInt("1-2") == None
  {
    assert "+7"[1..] == "7" && "7"[..0] == "";
    assert "007"[0..] == "007" && "007"[..2] == "00" && "00"[..1] == "0" && "0"[..0] == "";
    assert "-12"[1..] == "12" && "12"[..1] == "1" && "1"[..0] == "";
    assert "+"[1..] == "";
    assert !IsDigit("1-2"[1]);
  }

  function DigitChar(d: nat): (c: char)
    requires d < 10
    ensures IsDigit(c) && DigitValue(c) == d
  {
    ('0' as int + d) as char
  }

  /** The decimal digits of n without leading zeros. */
  function Digits(n: nat): (s: string)
    ensures s != [] && AllDigits(s)
  {
    if n < 10 then [DigitChar(n)] else Digits(n / 10) + [DigitChar(n % 10)]
  }

  /** Integer.toString. */
  function IntToString(n: int): (r: string)
    ensures r != [] && (n >= 0 <==> AllDigits(r))
    ensures n < 0 ==> r[0] == '-' && AllDigits(r[1..])
  {
    if n < 0 then
      var r := "-" + Digits(-n);
      assert r[1..] == Digits(-n) && !IsDigit(r[0]);
      r
    else Digits(n)
  }

  lemma {:induction false} DigitsValueOf(n: nat)
    ensures DigitsValue(Digits(n)) == n
  {
    var s := Digits(n);
    if n >= 10 {
      DigitsValueOf(n / 10);
      assert s[..|s| - 1] == Digits(n / 10);
    }
  }

  /** Integer.parseInt reads back what Integer.toString writes. */
  lemma ParseIntToString(n: int)
    requires InInt32(n)
    ensures ParseInt(IntToString(n)) == Some(n)
  {
    var s := IntToString(n);
    if n < 0 {
      DigitsValueOf(-n);
      assert s[1..] == Digits(-n);
      assert SignLength(s) == 1;
    } else {
      DigitsValueOf(n);
      var d := Digits(n);
      assert SignLength(s) == 0 by {
        assert IsDigit(d[0]);
      }
      assert s[0..] == s;
    }
  }

  // ---------------------------------------------------------------------------
  // dgfx8.convertType

  /** What convertType returns: null, a String, an Integer or a Double. */
  datatype Value = Null | Text(text: string) | Integer(number: int) | Floating(fraction: real)

  datatype ConvertError =
    | NumberFormat(value: string)   // NumberFormatException from Integer.parseInt or Double.parseDouble
    | InvalidBoolean                // "Invalid boolean value. Expected 'true'/'false' or 'T'/'F'"
    | UnsupportedType(name: string) // "Unsupported data type: " + type

  /** The groups of case labels in the switch of convertType. */
  datatype TypeFamily = TextType | IntegerType | DoubleType | BooleanType | Unsupported

  /** The switch of convertType on the upper-cased type name. */
  function Family(typeName: string): (f: TypeFamily)
    ensures f == TextType <==> ToUpper(typeName) in {"VARCHAR", "VARCHAR2"}
    ensures f == IntegerType <==> ToUpper(typeName) in {"NUMBER", "INT"}
    ensures f == DoubleType <==> ToUpper(typeName) in {"DOUBLE", "DOUBLE PRECISION"}
    ensures f == BooleanType <==> ToUpper(typeName) in {"BOOLEAN", "CHAR"}
  {
    match ToUpper(typeName)
    case "VARCHAR" => TextType
    case "VARCHAR2" => TextType
    case "NUMBER" => IntegerType
    case "INT" => IntegerType
    case "DOUBLE" => DoubleType
    case "DOUBLE PRECISION" => DoubleType
    case "BOOLEAN" => BooleanType
    case "CHAR" => BooleanType
    case _ => Unsupported
  }

  predicate IsTrue(value: string) {
    EqualsIgnoreCase(value, "true") || EqualsIgnoreCase(value, "T")
  }

  predicate IsFalse(value: string) {
    EqualsIgnoreCase(value, "false") || EqualsIgnoreCase(value, "F")
  }

  lemma TrueIsNotFalse(value: string)
    ensures !(IsTrue(value) && IsFalse(value))
  {
    ToUpperOfUpper("T");
    ToUpperOfUpper("F");
    assert |ToUpper("true")| == 4 && |ToUpper("false")| == 5;
  }

  /** dgfx8.convertType. Double.parseDouble is floating point and is passed
      in as `parseDouble`; None stands for its NumberFormatException. */
  function ConvertType(value: string, typeName: string, parseDouble: string -> Option<real>): (r: Result<Value, ConvertError>)
    ensures value == [] ==> r == Ok(Null)
    ensures value != [] && Family(typeName) == Unsupported ==> r == Err(UnsupportedType(typeName))
    ensures r == Ok(Null) ==> value == []
    ensures r.Ok? && r.value.Text? ==> r.value.text == value || r.value.text == "T" || r.value.text == "F"
    ensures r.Ok? && r.value.Integer? ==> InInt32(r.value.number) && ParseInt(value) == Some(r.value.number)
    ensures r.Ok? && r.value.Floating? ==> parseDouble(value) == Some(r.value.fraction)
    ensures r.Err? && r.error.NumberFormat? ==> r.error.value == value
    ensures value != [] && Family(typeName) == TextType ==> r == Ok(Text(value))
    ensures value != [] && Family(typeName) == IntegerType ==>
              && (r.Ok? <==> ParseInt(value).Some?)
              && (r.Ok? ==> r.value == Integer(ParseInt(value).value))
              && (r.Err? ==> r.error == NumberFormat(value))
    ensures value != [] && Family(typeName) == DoubleType ==>
              && (r.Ok? <==> parseDouble(value).Some?)
              && (r.Ok? ==> r.value == Floating(parseDouble(value).value))
              && (r.Err? ==> r.error == NumberFormat(value))
    ensures value != [] && Family(typeName) == BooleanType ==>
              && (r == Ok(Text("T")) <==> IsTrue(value))
              && (r == Ok(Text("F")) <==> !IsTrue(value) && IsFalse(value))
              && (r == Err(InvalidBoolean) <==> !IsTrue(value) && !IsFalse(value))
  {
    if value == [] then Ok(Null)
    else
      match Family(typeName)
      case TextType => Ok(Text(value))
      case IntegerType =>
        (match ParseInt(value)
         case Some(n) => Ok(Integer(n))
         case None => Err(NumberFormat(value)))
      case DoubleType =>
        (match parseDouble(value)
         case Some(d) => Ok(Floating(d))
         case None => Err(NumberFormat(value)))
      case BooleanType =>
        if IsTrue(value) then Ok(Text("T"))
        else if IsFalse(value) then Ok(Text("F"))
        else Err(InvalidBoolean)
      case Unsupported => Err(UnsupportedType(typeName))
  }

  /** The type name is matched without regard to case: two spellings of the
      same name convert alike (an error for an unsupported name still quotes
      the name as it was given). */
  lemma ConvertIgnoresCase(value: string, t1: string, t2: string, parseDouble: string -> Option<real>)
    requires EqualsIgnoreCase(t1, t2)
    ensures ConvertType(value, t1, parseDouble).Ok? == ConvertType(value, t2, parseDouble).Ok?
    ensures ConvertType(value, t1, parseDouble).Ok? ==> ConvertType(value, t1, parseDouble) == ConvertType(value, t2, parseDouble)
    ensures ConvertType(value, t1, parseDouble).Err? && !ConvertType(value, t1, parseDouble).error.UnsupportedType?
            ==> ConvertType(value, t1, parseDouble) == ConvertType(value, t2, parseDouble)
  {
  }

  /** VARCHAR and VARCHAR2 leave the text as it is. */
  lemma ConvertText(value: string, typeName: string, parseDouble: string -> Option<real>)
    requires value != [] && ToUpper(typeName) in {"VARCHAR", "VARCHAR2"}
    ensures ConvertType(value, typeName, parseDouble) == Ok(Text(value))
  {
  }

  /** CHAR and BOOLEAN accept exactly true/T and false/F in any case and
      store them as "T" and "F". */
  lemma ConvertBoolean(value: string, typeName: string, parseDouble: string -> Option<real>)
    requires value != [] && ToUpper(typeName) in {"BOOLEAN", "CHAR"}
    ensures var r := ConvertType(value, typeName, parseDouble);
            && (r == Ok(Text("T")) <==> IsTrue(value))
            && (r == Ok(Text("F")) <==> IsFalse(value))
            && (r.Ok? ==> r.value == Text("T") || r.value == Text("F"))
            && (r.Err? ==> r.error == InvalidBoolean)
  {
    TrueIsNotFalse(value);
  }

  /** NUMBER and INT convert the decimal text of every 32-bit integer back
      to that integer. */
  lemma ConvertIntegerText(n: int, typeName: string, parseDouble: string -> Option<real>)
    requires InInt32(n) && ToUpper(typeName) in {"NUMBER", "INT"}
    ensures ConvertType(IntToString(n), typeName, parseDouble) == Ok(Integer(n))
  {
    ParseIntToString(n);
  }

  // ---------------------------------------------------------------------------
  // dgfx8.getSqlType

  /** java.sql.Types codes. */
  const VARCHAR: int := 12
  const NUMERIC: int := 2
  const DOUBLE: int := 8
  const CHAR: int := 1
  const OTHER: int := 1111

  /** dgfx8.getSqlType. */
  function SqlType(baseType: string): (code: int)
    ensures code in {VARCHAR, NUMERIC, DOUBLE, CHAR, OTHER}
    ensures code == VARCHAR <==> ToUpper(baseType) == "VARCHAR"
    ensures code == NUMERIC <==> ToUpper(baseType) in {"NUMBER", "INT"}
    ensures code == DOUBLE <==> ToUpper(baseType) in {"DOUBLE", "DOUBLE PRECISION"}
    ensures code == CHAR <==> ToUpper(baseType) == "CHAR"
  {
    match ToUpper(baseType)
    case "VARCHAR" => VARCHAR
    case "NUMBER" => NUMERIC
    case "INT" => NUMERIC
    case "DOUBLE" => DOUBLE
    case "DOUBLE PRECISION" => DOUBLE
    case "CHAR" => CHAR
    case _ => OTHER
  }

  lemma SqlTypeIgnoresCase(t1: string, t2: string)
    requires EqualsIgnoreCase(t1, t2)
    ensures SqlType(t1) == SqlType(t2)
  {
  }

  // ---------------------------------------------------------------------------
  // The base type: type.split("\\(")[0].trim()

  predicate AllParens(s: string) {
    forall k :: 0 <= k < |s| ==> s[k] == '('
  }

  /** The text before the first '(', trimmed. String.split drops trailing
      empty pieces, so a non-empty text made only of '(' leaves no piece at
      all and indexing the first one fails: that is None. */
  function BaseType(typeName: string): (r: Option<string>)
    ensures r.None? <==> typeName != [] && AllParens(typeName)
    ensures r.Some? ==> r.value == Trim(typeName[..FirstIndex(typeName, '(')])
    ensures r.Some? ==> '(' !in r.value
    ensures r.Some? ==> Trim(r.value) == r.value
  {
    if typeName != [] && AllParens(typeName) then None
    else
      var before := typeName[..FirstIndex(typeName, '(')];
      var b := Trim(before);
      assert forall k :: 0 <= k < |b| ==> b[k] == before[LeadingTrimmable(before) + k];
      TrimIdempotent(before);
      Some(b)
  }

  /** A type with arguments has the base type of its name. */
  lemma BaseTypeOfArguments(name: string, args: string)
    requires name != [] && '(' !in name
    ensures BaseType(name + "(" + args) == Some(Trim(name))
  {
    var t := name + "(" + args;
    assert t[0] == name[0] && name[0] != '(';
    assert FirstIndex(t, '(') == |name| by {
      assert forall j :: 0 <= j < |name| ==> t[j] == name[j];
      assert t[|name|] == '(';
    }
    assert t[..|name|] == name;
  }

  /** A type without '(' is its own base type, trimmed. */
  lemma BaseTypeWithoutArguments(name: string)
    requires '(' !in name
    ensures BaseType(name) == Some(Trim(name))
  {
    if name != [] {
      assert name[0] != '(';
    }
    assert name[..|name|] == name;
  }
}
