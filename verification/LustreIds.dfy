/**
  Lustre quota ids (`LustreIdStrategy` in lustreengine.rs). An id is computed from a format such
  as "{UID-1483800000}01": the variables are substituted, every expression in braces is replaced
  by its value, and what is left is read as a number.
 */
module LustreIds {
  import opened Wrappers
  import opened Decimal
  import opened Text

  /** One constructor for each way the computation is refused. */
  datatype Error =
    | UidRequired | GidRequired
    | Unmatched(text: string)          // an opening brace with no closing one after it
    | BadOperand(expr: string)         // a side of an operator is not a number
    | Overflow(expr: string)
    | Negative(expr: string, value: int)
    | BadNumber(expr: string)          // no operator, and not a number
    | BadId(text: string)              // the result is not a number
    | ZeroId

  // ---- Expressions ----

  predicate IsOperator(c: char) {
    c == '+' || c == '-'
  }

  /** The rightmost operator that is not the first character. */
  function LastOperator(s: string): (r: Option<nat>)
    ensures r.Some? ==> 0 < r.value < |s| && IsOperator(s[r.value])
    ensures forall i | 0 < i < |s| && IsOperator(s[i]) :: r.Some? && i <= r.value
  {
    if |s| <= 1 then None
    else if IsOperator(s[|s| - 1]) then Some(|s| - 1)
    else
      var r := LastOperator(s[..|s| - 1]);
      assert forall i | 0 < i < |s| - 1 :: s[i] == s[..|s| - 1][i];
      r
  }

  /** The value of `left op right`, in 64 bits and not negative. */
  function Combine(expr: string, left: int, op: char, right: int): Result<nat, Error> {
    var result := if op == '+' then left + right else left - right;
    if !(I64_MIN <= result <= I64_MAX) then Err(Overflow(expr))
    else if result < 0 then Err(Negative(expr, result))
    else Ok(result)
  }

  function Arithmetic(text: string): Result<nat, Error> {
    var expr := Trim(text);
    match LastOperator(expr)
    case Some(pos) =>
      var left, right := ParseI64(Trim(expr[..pos])), ParseI64(Trim(expr[pos + 1..]));
      if left.None? || right.None? then Err(BadOperand(expr))
      else Combine(expr, left.value, expr[pos], right.value)
    case None =>
      match ParseU64(expr)
      case Some(n) => Ok(n)
      case None => Err(BadNumber(expr))
  }

  method ScanForOperator(expr: string) returns (operatorPos: Option<nat>, operator: char)
    ensures operatorPos == LastOperator(expr)
    ensures operatorPos.Some? ==> operator == expr[operatorPos.value]
  {
    operatorPos, operator := None, ' ';
    var i := 1;
    while i < |expr|
      invariant operatorPos.Some? ==> 0 < operatorPos.value < i && operatorPos.value < |expr|
                                      && IsOperator(expr[operatorPos.value]) && operator == expr[operatorPos.value]
      invariant forall k | 0 < k < i && k < |expr| && IsOperator(expr[k]) :: operatorPos.Some? && k <= operatorPos.value
    {
      if IsOperator(expr[i]) {
        operatorPos, operator := Some(i), expr[i];
      }
      i := i + 1;
    }
  }

  method EvaluateArithmetic(text: string) returns (r: Result<nat, Error>)
    ensures r == Arithmetic(text)
  {
    hide ParseI64, ParseU64, Trim, LastOperator;
    var expr := Trim(text);
    var operatorPos, operator := ScanForOperator(expr);
    if operatorPos.Some? {
      var pos := operatorPos.value;
      var left := ParseI64(Trim(expr[..pos]));
      if left.None? {
        return Err(BadOperand(expr));
      }
      var right := ParseI64(Trim(expr[pos + 1..]));
      if right.None? {
        return Err(BadOperand(expr));
      }
      var result := if operator == '+' then left.value + right.value else left.value - right.value;
      if result < I64_MIN || I64_MAX < result {
        return Err(Overflow(expr));
      }
      if result < 0 {
        return Err(Negative(expr, result));
      }
      r := Ok(result);
    } else {
      var number := ParseU64(expr);
      r := if number.Some? then Ok(number.value) else Err(BadNumber(expr));
    }
  }

  /**
    One operation at most: with two operators past its first character an expression is refused,
    rather than read from either end.
   */
  lemma OneOperationAtMost(text: string, i: nat, j: nat)
    requires 0 < i < j < |Trim(text)| && IsOperator(Trim(text)[i]) && IsOperator(Trim(text)[j])
    ensures Arithmetic(text) == Err(BadOperand(Trim(text)))
  {
    var expr := Trim(text);
    var pos := LastOperator(expr).value;
    var left := Trim(expr[..pos]);
    TrimKeepsInner(expr[..pos], i);
    InnerNonDigit(left, i);
  }

  /** Trimming keeps every character up to one that is not a space, if the first is not. */
  lemma {:induction false} TrimKeepsInner(s: string, i: nat)
    requires 0 < i < |s| && !IsSpace(s[i]) && !IsSpace(s[0])
    ensures i < |Trim(s)| && Trim(s)[i] == s[i]
    decreases |s|
  {
    if !IsSpace(s[|s| - 1]) {
    } else {
      TrimKeepsInner(s[..|s| - 1], i);
    }
  }

  /** An expression that ends in an operator and digits is split there. */
  lemma SplitAtOperator(left: string, op: char, b: string)
    requires left != [] && !IsSpace(left[0]) && b != [] && AllDigits(b) && IsOperator(op)
    ensures var expr := left + [op] + b;
            && Trim(expr) == expr && LastOperator(expr) == Some(|left|) && expr[|left|] == op
            && expr[..|left|] == left && expr[|left| + 1..] == b
  {
    var expr := left + [op] + b;
    assert IsDigit(b[|b| - 1]);
    assert expr[0] == left[0] && expr[|expr| - 1] == b[|b| - 1];
    assert expr[|left|] == op;
    forall k | |left| < k < |expr| ensures !IsOperator(expr[k]) {
      assert expr[k] == b[k - |left| - 1];
    }
    assert expr[..|left|] == left && expr[|left| + 1..] == b;
  }

  lemma OperandsOf(a: string, op: char, b: string)
    requires a != [] && b != [] && AllDigits(a) && AllDigits(b) && IsOperator(op)
    ensures Arithmetic(a + [op] + b) ==
            if Value(a) > I64_MAX || Value(b) > I64_MAX then Err(BadOperand(a + [op] + b))
            else Combine(a + [op] + b, Value(a), op, Value(b))
  {
    DigitsAreNotSpaces(a);
    DigitsAreNotSpaces(b);
    assert IsDigit(a[0]);
    SplitAtOperator(a, op, b);
    ParseOfDigits(a);
    ParseOfDigits(b);
    hide Trim, LastOperator, ParseI64, Value;
  }

  /** What the operands are where the first one is negative. */
  lemma SignedOperandsOf(a: string, op: char, b: string)
    requires a != [] && b != [] && AllDigits(a) && AllDigits(b) && IsOperator(op)
    ensures var expr := "-" + a + [op] + b;
            Arithmetic(expr) ==
            if Value(a) > -I64_MIN || Value(b) > I64_MAX then Err(BadOperand(expr))
            else Combine(expr, 0 - Value(a), op, Value(b))
  {
    var left := "-" + a;
    assert left[0] == '-' && !IsSpace('-');
    hide Trim, LastOperator, ParseI64, Value, Combine, IsSpace;
    DigitsAreNotSpaces(b);
    SplitAtOperator(left, op, b);
    NegativeNumber(a);
    ParseOfDigits(b);
  }

  lemma NegativeNumber(a: string)
    requires a != [] && AllDigits(a)
    ensures Trim("-" + a) == "-" + a
    ensures ParseI64("-" + a) == if Value(a) > -I64_MIN then None else Some(0 - Value(a))
  {
    var left := "-" + a;
    assert IsDigit(a[|a| - 1]) && left[|left| - 1] == a[|a| - 1];
    assert left[1..] == a;
  }

  /** A printed number, a sign and a numeral are added or subtracted as the numbers they are. */
  lemma PrintedOperation(a: string, op: char, b: string)
    requires a != [] && b != [] && AllDigits(a) && AllDigits(b) && IsOperator(op)
    ensures Arithmetic(a + [op] + b) ==
            if Value(a) > I64_MAX || Value(b) > I64_MAX then Err(BadOperand(a + [op] + b))
            else if op == '+' && Value(a) + Value(b) > I64_MAX then Err(Overflow(a + [op] + b))
            else if op == '+' then Ok(Value(a) + Value(b))
            else if Value(a) < Value(b) then Err(Negative(a + [op] + b, Value(a) - Value(b)))
            else Ok(Value(a) - Value(b))
  {
    hide Arithmetic, Value;
    OperandsOf(a, op, b);
  }

  /** The same where the first number is negative; the least number of 64 bits is within range. */
  lemma SignedOperation(a: string, op: char, b: string)
    requires a != [] && b != [] && AllDigits(a) && AllDigits(b) && IsOperator(op)
    ensures var expr, m, n := "-" + a + [op] + b, Value(a), Value(b);
            Arithmetic(expr) ==
            if m > I64_MAX + 1 || n > I64_MAX then Err(BadOperand(expr))
            else if op == '+' && n < m then Err(Negative(expr, n - m))
            else if op == '+' then Ok(n - m)
            else if m + n > I64_MAX + 1 then Err(Overflow(expr))
            else if m + n > 0 then Err(Negative(expr, 0 - m - n))
            else Ok(0)
  {
    hide Arithmetic, Value;
    SignedOperandsOf(a, op, b);
  }

  lemma DigitsAreNotSpaces(s: string)
    requires AllDigits(s)
    ensures Trim(s) == s
  {
    if s != [] {
      assert IsDigit(s[0]) && IsDigit(s[|s| - 1]);
    }
  }

  // ---- Formats ----

  /** The first opening brace and the first closing brace after it. */
  datatype Braces = NoBraces | Unclosed | Closed(open: nat, close: nat)

  function FirstBraces(s: string): (b: Braces)
    ensures b.NoBraces? ==> '{' !in s
    ensures b.Closed? ==> b.open < b.close < |s| && s[b.open] == '{' && s[b.close] == '}' && '{' !in s[..b.open]
  {
    var start := Find(s, '{');
    if start.None? then NoBraces
    else
      var length := Find(s[start.value..], '}');
      if length.None? then Unclosed else Closed(start.value, start.value + length.value)
  }

  /** Replacing every expression in one pass from the left; `done` is what has been written. */
  function OnePass(done: string, rest: string): (r: Result<string, Error>)
    ensures r.Ok? && '{' !in done ==> '{' !in r.value
    decreases |rest|
  {
    match FirstBraces(rest)
    case NoBraces => Ok(done + rest)
    case Unclosed => Err(Unmatched(done + rest))
    case Closed(open, close) =>
      match Arithmetic(rest[open + 1..close])
      case Err(e) => Err(e)
      case Ok(n) =>
        assert '{' !in Print(n);
        OnePass(done + rest[..open] + Print(n), rest[close + 1..])
  }

  lemma PrintHasNo(n: nat, c: char)
    requires !IsDigit(c)
    ensures c !in Print(n)
  {
  }

  function Count(s: string, c: char): nat {
    if s == [] then 0 else (if s[0] == c then 1 else 0) + Count(s[1..], c)
  }

  lemma {:induction false} CountOfConcat(a: string, b: string, c: char)
    ensures Count(a + b, c) == Count(a, c) + Count(b, c)
  {
    if a == [] {
      assert a + b == b;
    } else {
      assert (a + b)[1..] == a[1..] + b;
      CountOfConcat(a[1..], b, c);
    }
  }

  lemma {:induction false} CountOfNone(s: string, c: char)
    requires c !in s
    ensures Count(s, c) == 0
  {
    if s == [] {
    } else {
      CountOfNone(s[1..], c);
    }
  }

  method FindBraces(text: string) returns (b: Braces)
    ensures b == FirstBraces(text)
  {
    var start := Find(text, '{');
    if start.None? {
      return NoBraces;
    }
    var length := Find(text[start.value..], '}');
    b := if length.None? then Unclosed else Closed(start.value, start.value + length.value);
  }

  /** The repeated find-and-replace over the whole text is one pass from the left. */
  method EvaluateExpressions(input: string) returns (r: Result<string, Error>)
    ensures r == OnePass([], input)
    ensures r.Ok? ==> '{' !in r.value
  {
    hide Arithmetic, Print, Count, Find, FirstBraces;
    var result := input;
    ghost var done, rest: string := [], input;
    while true
      invariant result == done + rest && '{' !in done
      invariant OnePass(done, rest) == OnePass([], input)
      decreases Count(result, '{')
    {
      AtFirstBrace(done, rest);
      var b := FindBraces(result);
      if b.NoBraces? {
        return Ok(result);
      }
      if b.Unclosed? {
        return Err(Unmatched(result));
      }
      var value := EvaluateArithmetic(result[b.open + 1..b.close]);
      if value.Err? {
        return Err(value.error);
      }
      var printed := Print(value.value);
      PrintHasNo(value.value, '{');
      ReplacedHasFewer(result, b.open, b.close, printed);
      done, rest := result[..b.open] + printed, result[b.close + 1..];
      result := result[..b.open] + printed + result[b.close + 1..];
    }
  }

  function Shifted(b: Braces, n: nat): Braces {
    if b.Closed? then Closed(b.open + n, b.close + n) else b
  }

  lemma BracesPast(done: string, rest: string)
    requires '{' !in done
    ensures FirstBraces(done + rest) == Shifted(FirstBraces(rest), |done|)
  {
    hide Find;
    FindPast(done, rest, '{');
    if Find(rest, '{').Some? {
      var open := Find(rest, '{').value;
      assert (done + rest)[|done| + open..] == rest[open..];
    }
  }

  /** One step of the pass, read off the text as it stands: written part and rest together. */
  lemma AtFirstBrace(done: string, rest: string)
    requires '{' !in done
    ensures FirstBraces(done + rest).NoBraces? ==> OnePass(done, rest) == Ok(done + rest)
    ensures FirstBraces(done + rest).Unclosed? ==> OnePass(done, rest) == Err(Unmatched(done + rest))
    ensures FirstBraces(done + rest).Closed? ==>
              var text, b := done + rest, FirstBraces(done + rest);
              var value := Arithmetic(text[b.open + 1..b.close]);
              OnePass(done, rest) ==
              if value.Err? then Err(value.error) else OnePass(text[..b.open] + Print(value.value), text[b.close + 1..])
  {
    hide Arithmetic, Print, Find, FirstBraces;
    BracesPast(done, rest);
    if FirstBraces(rest).Closed? {
      var text, open, close := done + rest, FirstBraces(rest).open, FirstBraces(rest).close;
      assert text[|done| + open + 1..|done| + close] == rest[open + 1..close];
      assert text[..|done| + open] == done + rest[..open] && text[|done| + close + 1..] == rest[close + 1..];
    }
  }

  /** Replacing an expression takes its opening brace away and adds none. */
  lemma ReplacedHasFewer(s: string, start: nat, end: nat, value: string)
    requires start < end < |s| && s[start] == '{' && '{' !in value
    ensures Count(s[..start] + value + s[end + 1..], '{') < Count(s, '{')
  {
    var expr, last := s[start + 1..end], s[end..end + 1];
    assert s == s[..start] + "{" + expr + last + s[end + 1..];
    CountOfConcat(s[..start] + value, s[end + 1..], '{');
    CountOfConcat(s[..start], value, '{');
    CountOfNone(value, '{');
    CountOfConcat(s[..start] + "{" + expr + last, s[end + 1..], '{');
    CountOfConcat(s[..start] + "{" + expr, last, '{');
    CountOfConcat(s[..start] + "{", expr, '{');
    CountOfConcat(s[..start], "{", '{');
  }

  lemma {:induction false} FindPast(a: string, b: string, c: char)
    requires c !in a
    ensures Find(a + b, c) == match Find(b, c) case None => None case Some(n) => Some(|a| + n)
  {
    if a == [] {
      assert a + b == b;
    } else {
      assert (a + b)[1..] == a[1..] + b;
      FindPast(a[1..], b, c);
    }
  }

  // ---- Ids ----

  function Contains(s: string, pattern: string): bool {
    pattern <= s || (s != [] && Contains(s[1..], pattern))
  }

  function Replace(s: string, pattern: string, with: string): string
    requires pattern != []
    decreases |s|
  {
    if pattern <= s then with + Replace(s[|pattern|..], pattern, with)
    else if s == [] then []
    else [s[0]] + Replace(s[1..], pattern, with)
  }

  const U32_MAX: nat := 0xFFFF_FFFF

  type u32 = n: nat | n <= U32_MAX

  datatype Variable = Uid | Gid

  function Name(v: Variable): (name: string)
    ensures |name| == 3 && name[0] == if v.Uid? then 'U' else 'G'
  {
    match v
    case Uid => "UID"
    case Gid => "GID"
  }

  function Substituted(format: string, uid: Option<u32>, gid: Option<u32>): string {
    var withUid := Replace(format, Name(Uid), Print(if uid.Some? then uid.value else 0));
    Replace(withUid, Name(Gid), Print(if gid.Some? then gid.value else 0))
  }

  function Id(format: string, uid: Option<u32>, gid: Option<u32>): Result<nat, Error> {
    if Contains(format, Name(Uid)) && uid.None? then Err(UidRequired)
    else if Contains(format, Name(Gid)) && gid.None? then Err(GidRequired)
    else
      var text := OnePass([], Substituted(format, uid, gid));
      if text.Err? then Err(text.error) else Number(text.value)
  }

  /** The finished text read as an id, which must not be zero. */
  function Number(text: string): Result<nat, Error> {
    var id := ParseU64(text);
    if id.None? then Err(BadId(text)) else if id.value == 0 then Err(ZeroId) else Ok(id.value)
  }

  method ComputeId(format: string, uid: Option<u32>, gid: Option<u32>) returns (r: Result<nat, Error>)
    ensures r == Id(format, uid, gid)
  {
    if Contains(format, "UID") && uid.None? {
      return Err(UidRequired);
    }
    if Contains(format, "GID") && gid.None? {
      return Err(GidRequired);
    }
    var text := Replace(format, "UID", Print(if uid.Some? then uid.value else 0));
    text := Replace(text, "GID", Print(if gid.Some? then gid.value else 0));
    var evaluated := EvaluateExpressions(text);
    if evaluated.Err? {
      return Err(evaluated.error);
    }
    var id := ParseU64(evaluated.value);
    if id.None? {
      return Err(BadId(evaluated.value));
    }
    if id.value == 0 {
      return Err(ZeroId);
    }
    r := Ok(id.value);
  }

  lemma {:induction false} ReplaceNone(s: string, pattern: string, with: string)
    requires pattern != [] && pattern[0] !in s
    ensures Replace(s, pattern, with) == s && !Contains(s, pattern)
  {
    assert s != [] ==> s[0] != pattern[0];
    if s == [] {
    } else {
      ReplaceNone(s[1..], pattern, with);
    }
  }

  lemma {:induction false} ReplaceOne(before: string, pattern: string, after: string, with: string)
    requires pattern != [] && pattern[0] !in before && pattern[0] !in after
    ensures Replace(before + pattern + after, pattern, with) == before + with + after
    ensures Contains(before + pattern + after, pattern)
  {
    var s := before + pattern + after;
    if before == [] {
      assert s[..|pattern|] == pattern && s[|pattern|..] == after;
      ReplaceNone(after, pattern, with);
    } else {
      assert s[0] == before[0] && s[1..] == before[1..] + pattern + after;
      ReplaceOne(before[1..], pattern, after, with);
    }
  }

  /** A format with one expression, holding one variable: "{UID" + tail + "}" + suffix. */
  function OneVariable(v: Variable, tail: string, suffix: string): string {
    "{" + Name(v) + (tail + "}" + suffix)
  }

  predicate Plain(s: string) {
    '{' !in s && '}' !in s && 'U' !in s && 'G' !in s
  }

  /** What the variable of such a format stands for, and the other one is not asked for. */
  lemma OneVariableSubstituted(v: Variable, tail: string, suffix: string, uid: Option<u32>, gid: Option<u32>)
    requires Plain(tail) && Plain(suffix) && (if v.Uid? then uid else gid).Some?
    ensures Substituted(OneVariable(v, tail, suffix), uid, gid) ==
            "{" + Print((if v.Uid? then uid else gid).value) + (tail + "}" + suffix)
    ensures Contains(OneVariable(v, tail, suffix), Name(v))
    ensures !Contains(OneVariable(v, tail, suffix), Name(if v.Uid? then Gid else Uid))
  {
    hide Print;
    var format, after := OneVariable(v, tail, suffix), tail + "}" + suffix;
    var u, g := Print(if uid.Some? then uid.value else 0), Print(if gid.Some? then gid.value else 0);
    if v.Uid? {
      ReplaceOne("{", Name(Uid), after, u);
      ReplaceNone(format, Name(Gid), g);
      ReplaceNone("{" + u + after, Name(Gid), g);
    } else {
      ReplaceNone(format, Name(Uid), u);
      ReplaceOne("{", Name(Gid), after, g);
    }
  }

  /** One expression between braces and text after it. */
  lemma OneExpression(expr: string, suffix: string)
    requires '}' !in expr && '{' !in suffix
    ensures OnePass([], "{" + expr + "}" + suffix) ==
            if Arithmetic(expr).Err? then Err(Arithmetic(expr).error) else Ok(Print(Arithmetic(expr).value) + suffix)
  {
    hide *;
    var text := "{" + expr + "}" + suffix;
    BracesAround(expr, suffix);
    assert text[1..1 + |expr|] == expr && text[|expr| + 2..] == suffix;
    OnlyExpression(text, expr, suffix);
  }

  lemma OnlyExpression(text: string, expr: string, suffix: string)
    requires FirstBraces(text) == Closed(0, 1 + |expr|) && FirstBraces(suffix).NoBraces?
    requires |expr| + 2 <= |text| && text[1..1 + |expr|] == expr && text[|expr| + 2..] == suffix
    ensures OnePass([], text) ==
            if Arithmetic(expr).Err? then Err(Arithmetic(expr).error) else Ok(Print(Arithmetic(expr).value) + suffix)
  {
    hide *;
    AtFirstBrace([], text);
    assert [] + text == text && text[..0] == [];
    if Arithmetic(expr).Ok? {
      var printed := Print(Arithmetic(expr).value);
      assert [] + printed == printed;
      NothingLeft(printed, suffix);
    }
  }

  lemma NothingLeft(done: string, rest: string)
    requires FirstBraces(rest).NoBraces?
    ensures OnePass(done, rest) == Ok(done + rest)
  {
    hide Arithmetic, Print, Find, FirstBraces;
  }

  lemma BracesAround(expr: string, suffix: string)
    requires '}' !in expr && '{' !in suffix
    ensures FirstBraces("{" + expr + "}" + suffix) == Closed(0, 1 + |expr|)
    ensures FirstBraces(suffix).NoBraces?
  {
    var text := "{" + expr + "}" + suffix;
    FindAfter("{" + expr, '}', suffix);
    assert text[0] == '{' && text[0..] == text;
  }

  /** The id of a format with one expression and a suffix of digits. */
  lemma IdOfOneVariable(v: Variable, tail: string, suffix: string, uid: Option<u32>, gid: Option<u32>)
    requires Plain(tail) && AllDigits(suffix) && (if v.Uid? then uid else gid).Some?
    ensures Id(OneVariable(v, tail, suffix), uid, gid) ==
            var value := Arithmetic(Print((if v.Uid? then uid else gid).value) + tail);
            if value.Err? then Err(value.error) else Number(Print(value.value) + suffix)
  {
    hide Arithmetic, Print, Number, OnePass, Substituted, Contains, OneVariable;
    var u := Print((if v.Uid? then uid else gid).value);
    OneVariableSubstituted(v, tail, suffix, uid, gid);
    OneExpression(u + tail, suffix);
    assert "{" + u + (tail + "}" + suffix) == "{" + (u + tail) + "}" + suffix;
  }

  lemma NumberWithSuffix(n: nat, suffix: string)
    requires AllDigits(suffix)
    ensures var id := n * Pow10(|suffix|) + Value(suffix);
            Number(Print(n) + suffix) ==
            if id > U64_MAX then Err(BadId(Print(n) + suffix)) else if id == 0 then Err(ZeroId) else Ok(id)
  {
    hide Print, Value, Pow10, ParseU64;
    ValueOfConcat(Print(n), suffix);
    ParseOfDigits(Print(n) + suffix);
  }

  /** The format of the documentation: a variable, less an offset, followed by a fixed suffix. */
  function Offset(v: Variable, offset: string, suffix: string): string {
    OneVariable(v, "-" + offset, suffix)
  }

  /** What the offset makes of the number `n`, before the suffix is put after it. */
  lemma OffsetExpression(n: u32, offset: string)
    requires offset != [] && AllDigits(offset)
    ensures var expr := Print(n) + ("-" + offset);
            Arithmetic(expr) ==
            if Value(offset) > I64_MAX then Err(BadOperand(expr))
            else if n < Value(offset) then Err(Negative(expr, n - Value(offset)))
            else Ok(n - Value(offset))
  {
    hide Print, Arithmetic, Value;
    assert Print(n) + ("-" + offset) == Print(n) + ['-'] + offset;
    PrintedOperation(Print(n), '-', offset);
  }

  /** The id that `n` should have. */
  function Expected(n: nat, offset: string, suffix: string): int
    requires AllDigits(offset) && AllDigits(suffix)
  {
    (n - Value(offset)) * Pow10(|suffix|) + Value(suffix)
  }

  /**
    The id is (n - offset) * 10^|suffix| + suffix, never wrapped round, and there is an id
    exactly when the offset is not larger than n and that number is positive and fits.
   */
  lemma OffsetId(v: Variable, offset: string, suffix: string, uid: Option<u32>, gid: Option<u32>)
    requires offset != [] && AllDigits(offset) && AllDigits(suffix) && (if v.Uid? then uid else gid).Some?
    ensures var n := (if v.Uid? then uid else gid).value;
            var expr := Print(n) + ("-" + offset);
            Id(Offset(v, offset, suffix), uid, gid) ==
            if Value(offset) > I64_MAX then Err(BadOperand(expr))
            else if n < Value(offset) then Err(Negative(expr, n - Value(offset)))
            else if Expected(n, offset, suffix) > U64_MAX then Err(BadId(Print(n - Value(offset)) + suffix))
            else if Expected(n, offset, suffix) == 0 then Err(ZeroId)
            else Ok(Expected(n, offset, suffix))
  {
    hide Print, Number, Arithmetic, Id, OneVariable, Value, Pow10;
    var n := (if v.Uid? then uid else gid).value;
    IdOfOneVariable(v, "-" + offset, suffix, uid, gid);
    OffsetExpression(n, offset);
    if Value(offset) <= n {
      NumberWithSuffix(n - Value(offset), suffix);
    }
  }

  /** Quotient and remainder by the same power of ten are unique. */
  lemma SameSplit(m: nat, n: nat, p: nat, a: nat, b: nat)
    requires a < p && b < p && m * p + a == n * p + b
    ensures m == n && a == b
  {
    if m < n {
      LargerProduct(m, n, p);
    } else if n < m {
      LargerProduct(n, m, p);
    }
  }

  lemma {:induction false} LargerProduct(m: nat, n: nat, p: nat)
    requires m < n
    ensures m * p + p <= n * p
    decreases n
  {
    if m + 1 == n {
    } else {
      LargerProduct(m, n - 1, p);
    }
    assert n * p == (n - 1) * p + p;
  }

  // ---- When two formats share an id ----

  /** A format of that kind, as it is configured for a volume. */
  datatype Format = Format(variable: Variable, offset: string, suffix: string) {
    predicate Proper() {
      offset != [] && AllDigits(offset) && AllDigits(suffix)
    }
  }

  /** The id of the user or group number `n`. */
  function IdFor(f: Format, n: u32): Result<nat, Error> {
    Id(Offset(f.variable, f.offset, f.suffix), Some(n), Some(n))
  }

  lemma IdForIff(f: Format, n: u32)
    requires f.Proper()
    ensures IdFor(f, n).Ok? <==> Value(f.offset) <= n && 0 < Expected(n, f.offset, f.suffix) <= U64_MAX
    ensures IdFor(f, n).Ok? ==> IdFor(f, n).value == Expected(n, f.offset, f.suffix)
  {
    hide Print, Number, Arithmetic, Id, Offset, Value, Expected;
    OffsetId(f.variable, f.offset, f.suffix, Some(n), Some(n));
  }

  predicate EndsWith(t: string, s: string) {
    |s| <= |t| && t[|t| - |s|..] == s
  }

  /** What a longer suffix has in front of a shorter one. */
  function Front(t: string, s: string): string
    requires |s| <= |t|
  {
    t[..|t| - |s|]
  }

  lemma {:induction false} PowerOfSum(j: nat, k: nat)
    ensures Pow10(j + k) == Pow10(j) * Pow10(k)
  {
    if j == 0 {
    } else {
      PowerOfSum(j - 1, k);
      assert 10 * (Pow10(j - 1) * Pow10(k)) == (10 * Pow10(j - 1)) * Pow10(k);
    }
  }

  lemma Regrouped(x: nat, a: nat, b: nat, c: nat, p: nat, q: nat, v: nat)
    requires c == a * b && v == p * b + q
    ensures x * c + v == (x * a + p) * b + q
  {
    assert x * (a * b) == (x * a) * b;
    assert (x * a + p) * b == (x * a) * b + p * b;
  }

  /** An id with a longer suffix `p + q`, split where the shorter suffix `q` would begin. */
  lemma SplitNumber(x: nat, p: string, q: string)
    requires AllDigits(p) && AllDigits(q)
    ensures AllDigits(p + q)
    ensures x * Pow10(|p + q|) + Value(p + q) == (x * Pow10(|p|) + Value(p)) * Pow10(|q|) + Value(q)
  {
    ValueOfConcat(p, q);
    PowerOfSum(|p|, |q|);
    hide *;
    Regrouped(x, Pow10(|p|), Pow10(|q|), Pow10(|p + q|), Value(p), Value(q), Value(p + q));
  }

  /** The longer suffix ends with the shorter one, and its front makes up for the difference of the numbers. */
  predicate Agree(f: Format, m: u32, g: Format, n: u32)
    requires f.Proper() && g.Proper() && |f.suffix| <= |g.suffix|
  {
    && EndsWith(g.suffix, f.suffix)
    && m - Value(f.offset) ==
       (n - Value(g.offset)) * Pow10(|g.suffix| - |f.suffix|) + Value(Front(g.suffix, f.suffix))
  }

  /**
    Exactly when two formats give one id: the shorter suffix is the end of the longer one, and
    the rest of the longer suffix makes up for the difference of the numbers.
   */
  lemma SameIdIff(f: Format, m: u32, g: Format, n: u32)
    requires f.Proper() && g.Proper() && |f.suffix| <= |g.suffix|
    ensures IdFor(f, m).Ok? && IdFor(g, n).Ok? ==>
              (IdFor(f, m) == IdFor(g, n) <==> Agree(f, m, g, n))
  {
    hide IdFor, Value, Pow10;
    if IdFor(f, m).Ok? && IdFor(g, n).Ok? {
      IdForIff(f, m);
      IdForIff(g, n);
      var s, t, x := f.suffix, g.suffix, n - Value(g.offset);
      var p, q := Front(t, s), t[|t| - |s|..];
      assert t == p + q && |p| == |t| - |s|;
      SplitNumber(x, p, q);
      ValueBelow(s);
      ValueBelow(q);
      if IdFor(f, m) == IdFor(g, n) {
        SameSplit(m - Value(f.offset), x * Pow10(|p|) + Value(p), Pow10(|s|), Value(s), Value(q));
        ValueIsInjective(s, q);
      }
    }
  }

  /**
    The check on the configuration: if neither of two suffixes is the end of the other, the
    formats never share an id, whatever their variables, their offsets and the numbers.
   */
  lemma UnrelatedSuffixesNeverCollide(f: Format, m: u32, g: Format, n: u32)
    requires f.Proper() && g.Proper()
    requires !EndsWith(f.suffix, g.suffix) && !EndsWith(g.suffix, f.suffix)
    ensures IdFor(f, m).Ok? && IdFor(g, n).Ok? ==> IdFor(f, m) != IdFor(g, n)
  {
    hide IdFor, Value, Pow10;
    if IdFor(f, m).Ok? && IdFor(g, n).Ok? {
      if |f.suffix| <= |g.suffix| {
        SameIdIff(f, m, g, n);
      } else {
        SameIdIff(g, n, f, m);
      }
    }
  }

  /**
    Ids are unique: with one offset and suffixes of one length, users or groups with different
    numbers, or volumes with different suffixes, never share an id.
   */
  lemma IdsAreUnique(v: Variable, offset: string, s: string, t: string, m: u32, n: u32)
    requires offset != [] && AllDigits(offset) && AllDigits(s) && AllDigits(t) && |s| == |t|
    ensures var r, q := IdFor(Format(v, offset, s), m), IdFor(Format(v, offset, t), n);
            r.Ok? && r == q ==> m == n && s == t
  {
    hide IdFor;
    if IdFor(Format(v, offset, s), m).Ok? && IdFor(Format(v, offset, s), m) == IdFor(Format(v, offset, t), n) {
      SameIdIff(Format(v, offset, s), m, Format(v, offset, t), n);
      assert t[|t| - |s|..] == t && Front(t, s) == [];
    }
  }

  /** The smallest multiple of the variable that keeps an id with this suffix from being zero. */
  function Least(suffix: string): nat
    requires AllDigits(suffix)
  {
    if Value(suffix) == 0 then 1 else 0
  }

  predicate Share(f: Format, m: u32, g: Format, n: u32) {
    IdFor(f, m).Ok? && IdFor(f, m) == IdFor(g, n)
  }

  /** Numbers that share an id are at least the smallest that could. */
  lemma LeastToCollide(f: Format, m: u32, g: Format, n: u32)
    requires f.Proper() && g.Proper() && |f.suffix| <= |g.suffix|
    ensures Share(f, m, g, n) ==>
              && EndsWith(g.suffix, f.suffix)
              && Value(g.offset) + Least(g.suffix) <= n
              && Value(f.offset) + Least(g.suffix) * Pow10(|g.suffix| - |f.suffix|)
                 + Value(Front(g.suffix, f.suffix)) <= m
              && Least(g.suffix) * Pow10(|g.suffix|) + Value(g.suffix) <= U64_MAX
  {
    hide IdFor, Value, Pow10;
    if Share(f, m, g, n) {
      SameIdIff(f, m, g, n);
      IdForIff(g, n);
      var y := n - Value(g.offset);
      assert y == 0 ==> Value(g.suffix) > 0;
      LargerMultiple(Least(g.suffix), y, Pow10(|g.suffix| - |f.suffix|));
      LargerMultiple(Least(g.suffix), y, Pow10(|g.suffix|));
    }
  }

  /** The smallest numbers that share an id, where both are numbers and the id is one. */
  lemma LeastCollide(f: Format, m: u32, g: Format, n: u32)
    requires f.Proper() && g.Proper() && EndsWith(g.suffix, f.suffix)
    requires n == Value(g.offset) + Least(g.suffix)
    requires m == Value(f.offset) + Least(g.suffix) * Pow10(|g.suffix| - |f.suffix|) + Value(Front(g.suffix, f.suffix))
    requires Least(g.suffix) * Pow10(|g.suffix|) + Value(g.suffix) <= U64_MAX
    ensures Share(f, m, g, n)
  {
    hide IdFor, Value, Pow10;
    var p := Front(g.suffix, f.suffix);
    assert g.suffix == p + f.suffix;
    SplitNumber(Least(g.suffix), p, f.suffix);
    LargerMultiple(1, Pow10(|g.suffix|), 1);
    IdForIff(g, n);
    IdForIff(f, m);
  }

  /**
    Exactly when two formats can share an id at all, as a check on the configuration: the
    shorter suffix ends the longer one, and the smallest numbers that would collide are numbers
    of users or groups with an id.
   */
  lemma FormatsCollideIff(f: Format, g: Format)
    requires f.Proper() && g.Proper() && |f.suffix| <= |g.suffix|
    ensures (exists m: u32, n: u32 :: Share(f, m, g, n)) <==>
            && EndsWith(g.suffix, f.suffix)
            && Value(g.offset) + Least(g.suffix) <= U32_MAX
            && Value(f.offset) + Least(g.suffix) * Pow10(|g.suffix| - |f.suffix|)
               + Value(Front(g.suffix, f.suffix)) <= U32_MAX
            && Least(g.suffix) * Pow10(|g.suffix|) + Value(g.suffix) <= U64_MAX
  {
    hide IdFor, Value, Pow10, Least;
    if m: u32, n: u32 :| Share(f, m, g, n) {
      LeastToCollide(f, m, g, n);
    }
    var n := Value(g.offset) + Least(g.suffix);
    var m := Value(f.offset) + Least(g.suffix) * Pow10(|g.suffix| - |f.suffix|) + Value(Front(g.suffix, f.suffix));
    if && EndsWith(g.suffix, f.suffix) && n <= U32_MAX && m <= U32_MAX
       && Least(g.suffix) * Pow10(|g.suffix|) + Value(g.suffix) <= U64_MAX {
      LeastCollide(f, m, g, n);
    }
  }

  lemma LargerMultiple(x: nat, y: nat, p: nat)
    requires x <= y
    ensures x * p <= y * p
  {
    if x < y {
      LargerProduct(x, y, p);
    }
  }

  /** An example: user 11 with suffix "1" and user 1 with suffix "11". */
  lemma UnequalSuffixesCollide()
    ensures IdFor(Format(Uid, "0", "1"), 11) == IdFor(Format(Uid, "0", "11"), 1) == Ok(111)
  {
    hide Print, Number, Arithmetic, Id;
    OffsetId(Uid, "0", "1", Some(11), Some(11));
    OffsetId(Uid, "0", "11", Some(1), Some(1));
    assert "11"[..1] == "1" && "1"[..0] == "" && "0"[..0] == "";
    assert Value("1") == 1 && Value("11") == 11 && Value("0") == 0;
    assert Pow10(1) == 10 && Pow10(2) == 100;
  }
}
