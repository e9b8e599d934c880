/** Variable values and the JavaScript operations the engine performs on them:
    truthiness, `String(v)`, strict equality, ordering and arithmetic. */
module Values {
  import opened Wrappers

  /** A story variable's value. Numbers are integers only; `NaN` is the value
      arithmetic yields when an operand is a non-numeric string. */
  datatype Value = Num(n: int) | Str(s: string) | Bool(b: bool) | NaN

  /** Looks a variable up; `None` stands for JavaScript's `undefined`. */
  function Lookup(vars: map<string, Value>, name: string): (r: Option<Value>)
    ensures r.Some? <==> name in vars
    ensures r.Some? ==> r.value == vars[name]
  {
    if name in vars then Some(vars[name]) else None
  }

  /** JavaScript truthiness of a possibly undefined value. */
  predicate Truthy(v: Option<Value>) {
    match v
    case None => false
    case Some(Num(n)) => n != 0
    case Some(Str(s)) => s != ""
    case Some(Bool(b)) => b
    case Some(NaN) => false
  }

  /** The falsy values are exactly `undefined`, `0`, `""`, `false` and `NaN`. */
  lemma FalsyValues(v: Option<Value>)
    ensures !Truthy(v) <==> v in [None, Some(Num(0)), Some(Str("")), Some(Bool(false)), Some(NaN)]
  {
  }

  /** `v || 0`: a falsy value (undefined, 0, "", false, NaN) becomes the number 0. */
  function OrZero(v: Option<Value>): (r: Value)
    ensures Truthy(v) ==> Some(r) == v
    ensures !Truthy(v) ==> r == Num(0)
  {
    if Truthy(v) then v.value else Num(0)
  }

  // ---------------------------------------------------------------------------
  // Decimal rendering of numbers, as `Number.prototype.toString()` does for integers

  predicate IsDigit(c: char) {
    '0' <= c <= '9'
  }

  function DigitChar(d: nat): (c: char)
    requires d < 10
    ensures IsDigit(c)
    ensures c as int - '0' as int == d
  {
    ('0' as int + d) as char
  }

  /** The decimal numeral of a natural number, most significant digit first, no leading zeros. */
  function NatToString(n: nat): (r: string)
    ensures |r| > 0
    ensures forall i :: 0 <= i < |r| ==> IsDigit(r[i])
    ensures |r| > 1 ==> r[0] != '0'
  {
    if n < 10 then [DigitChar(n)] else NatToString(n / 10) + [DigitChar(n % 10)]
  }

  /** The number a string of decimal digits denotes: the reading direction of `NatToString`. */
  function DecimalValue(s: string): nat
    requires forall i :: 0 <= i < |s| ==> IsDigit(s[i])
  {
    if s == [] then 0
    else DecimalValue(s[..|s| - 1]) * 10 + DigitValue(s[|s| - 1])
  }

  function DigitValue(c: char): nat
    requires IsDigit(c)
  {
    c as int - '0' as int
  }

  /** Reading back the numeral `NatToString` prints gives the number printed. */
  lemma {:induction false} NatToStringRoundTrip(n: nat)
    ensures DecimalValue(NatToString(n)) == n
  {
    if n >= 10 {
      var s := NatToString(n);
      assert s[..|s| - 1] == NatToString(n / 10);
      NatToStringRoundTrip(n / 10);
    }
  }

  /** `String(n)` for an integer: an optional minus sign followed by the decimal numeral. */
  function IntToString(i: int): (r: string)
    ensures forall k :: 0 <= k < |r| ==> IsDigit(r[k]) || r[k] == '-'
    ensures |r| > 0
  {
    if i < 0 then "-" + NatToString(-i) else NatToString(i)
  }

  /** Reads a numeral in the form `IntToString` prints. */
  function ParseInt(s: string): Option<int> {
    if |s| > 0 && s[0] == '-' && |s| > 1 && (forall k :: 1 <= k < |s| ==> IsDigit(s[k])) then
      Some(-(DecimalValue(s[1..]) as int))
    else if |s| > 0 && (forall k :: 0 <= k < |s| ==> IsDigit(s[k])) then
      Some(DecimalValue(s))
    else
      None
  }

  /** `IntToString` is injective: its output reads back as the integer printed. */
  lemma {:induction false} IntToStringRoundTrip(i: int)
    ensures ParseInt(IntToString(i)) == Some(i)
  {
    if i < 0 {
      var s := IntToString(i);
      assert s[1..] == NatToString(-i);
      NatToStringRoundTrip(-i);
    } else {
      NatToStringRoundTrip(i);
      assert IntToString(i)[0] != '-';
    }
  }

  /** `String(v)` on a possibly undefined value. */
  function ToText(v: Option<Value>): (r: string)
    ensures v.Some? && v.value.Str? ==> r == v.value.s
    ensures v.Some? && v.value.Num? ==> ParseInt(r) == Some(v.value.n)
    ensures v.Some? && !v.value.Str? ==> '{' !in r
  {
    match v
    case None => "undefined"
    case Some(Num(n)) => IntToStringRoundTrip(n); IntToString(n)
    case Some(Str(s)) => s
    case Some(Bool(b)) => if b then "true" else "false"
    case Some(NaN) => "NaN"
  }

  // ---------------------------------------------------------------------------
  // Comparisons

  /** `a === b` where `b` is a literal from the story document: `undefined` equals no literal,
      and NaN equals nothing, itself included. */
  predicate StrictEquals(a: Option<Value>, b: Value) {
    a == Some(b) && b != NaN
  }

  /** `===` is identity on the modelled values, except that NaN equals nothing and
      `undefined` equals no literal. */
  lemma StrictEqualsIdentity(a: Option<Value>, b: Value)
    ensures StrictEquals(Some(b), b) <==> b != NaN
    ensures !StrictEquals(None, b)
    ensures StrictEquals(a, b) ==> a == Some(b)
  {
  }

  /** The number a value converts to in a numeric context, when the model can tell:
      numbers, booleans (true is 1) and the empty string (0). Other strings are not
      converted (see README). */
  function ToNumber(v: Value): (r: Option<int>)
    ensures v.Num? ==> r == Some(v.n)
    ensures v.Bool? ==> r == Some(if v.b then 1 else 0)
    ensures v == NaN ==> r == None
  {
    match v
    case Num(n) => Some(n)
    case Bool(b) => Some(if b then 1 else 0)
    case Str(s) => if s == "" then Some(0) else None
    case NaN => None
  }

  datatype Ordering = Less | Greater | AtMost | AtLeast

  /** `a < b`, `a > b`, `a <= b`, `a >= b` on numeric operands; any comparison involving
      `undefined` or NaN is false, as in JavaScript. */
  predicate Ordered(ord: Ordering, a: Option<Value>, b: Value) {
    a.Some? && ToNumber(a.value).Some? && ToNumber(b).Some? &&
    var x, y := ToNumber(a.value).value, ToNumber(b).value;
    match ord
    case Less => x < y
    case Greater => x > y
    case AtMost => x <= y
    case AtLeast => x >= y
  }

  // ---------------------------------------------------------------------------
  // Substring containment, as `String.prototype.includes`

  predicate IsPrefix(p: string, s: string) {
    |p| <= |s| && s[..|p|] == p
  }

  /** `hay.includes(needle)`. */
  predicate Includes(hay: string, needle: string)
    decreases |hay|
  {
    IsPrefix(needle, hay) || (|hay| > 0 && Includes(hay[1..], needle))
  }

  /** The needle occurs in the haystack starting at position `i`. */
  predicate OccursAt(hay: string, needle: string, i: int) {
    0 <= i <= |hay| - |needle| && hay[i..i + |needle|] == needle
  }

  /** `includes` holds exactly when the needle occurs at some position of the haystack. */
  lemma {:induction false} IncludesIffOccurs(hay: string, needle: string)
    ensures Includes(hay, needle) <==> exists i :: OccursAt(hay, needle, i)
  {
    if IsPrefix(needle, hay) {
      assert OccursAt(hay, needle, 0);
    }
    if |hay| > 0 {
      IncludesIffOccurs(hay[1..], needle);
      if Includes(hay[1..], needle) {
        var i :| OccursAt(hay[1..], needle, i);
        assert OccursAt(hay, needle, i + 1);
      }
      if exists i :: OccursAt(hay, needle, i) {
        var i :| OccursAt(hay, needle, i);
        if i > 0 {
          assert OccursAt(hay[1..], needle, i - 1);
        }
      }
    }
  }

  // ---------------------------------------------------------------------------
  // Arithmetic

  datatype ArithOp = Add | Subtract | Multiply

  /** `a + b`, `a - b`, `a * b` on JavaScript primitives: `+` concatenates when either
      side is a string; otherwise both sides convert to numbers, and a side that does
      not convert makes the result NaN. */
  function Arith(op: ArithOp, a: Value, b: Value): (r: Value)
    ensures op == Add && (a.Str? || b.Str?) ==> r == Str(ToText(Some(a)) + ToText(Some(b)))
    ensures a.Num? && b.Num? ==>
              r == Num(match op case Add => a.n + b.n case Subtract => a.n - b.n case Multiply => a.n * b.n)
    ensures !(op == Add && (a.Str? || b.Str?)) && (ToNumber(a).None? || ToNumber(b).None?) ==> r == NaN
  {
    if op == Add && (a.Str? || b.Str?) then
      Str(ToText(Some(a)) + ToText(Some(b)))
    else if ToNumber(a).Some? && ToNumber(b).Some? then
      var x, y := ToNumber(a).value, ToNumber(b).value;
      Num(match op case Add => x + y case Subtract => x - y case Multiply => x * y)
    else
      NaN
  }
}
