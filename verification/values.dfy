/**
 The JSON-shaped values the reasoning service returns, how Python's `str()`
 renders them inside the confirmation reply, and the errors that end the
 handling of one message.
 */
module Values {

  /** One decoded JSON value. `Opaque` stands for the values the bot only
      ever stores and prints (floats, arrays, objects); it carries the text
      Python's `str()` gives for that value. */
  datatype Value =
    | Null
    | Bool(b: bool)
    | Int(i: int)
    | Str(s: string)
    | Opaque(rendered: string)

  /** A decoded JSON object: the shape of the service's structured result. */
  type Obj = map<string, Value>

  /** What ends the handling of one message with no reply: the service's
      reply did not decode (`json.JSONDecodeError`), or a field the
      dispatcher reads is absent (`KeyError`). */
  datatype Error = MalformedReply | MissingKey(key: string)

  predicate IsDigit(c: char)
  {
    '0' <= c <= '9'
  }

  function DigitChar(d: nat): (c: char)
    requires d < 10
    ensures IsDigit(c)
  {
    ('0' as int + d) as char
  }

  function DigitValue(c: char): (d: nat)
    requires IsDigit(c)
    ensures d < 10
  {
    c as int - '0' as int
  }

  /** Python's `str(n)` for a non-negative integer: decimal digits with no
      leading zero. */
  function NatToDecimal(n: nat): (r: string)
    ensures |r| >= 1
    ensures forall k :: 0 <= k < |r| ==> IsDigit(r[k])
    ensures n == 0 ==> r == "0"
    ensures n > 0 ==> r[0] != '0'
    decreases n
  {
    if n < 10 then [DigitChar(n)]
    else NatToDecimal(n / 10) + [DigitChar(n % 10)]
  }

  /** The number a string of decimal digits denotes. */
  function DecimalValue(r: string): nat
    requires forall k :: 0 <= k < |r| ==> IsDigit(r[k])
  {
    if r == [] then 0
    else DecimalValue(r[..|r| - 1]) * 10 + DigitValue(r[|r| - 1])
  }

  /** Rendering a natural number in decimal loses nothing. */
  lemma {:induction false} NatToDecimalRoundTrip(n: nat)
    ensures DecimalValue(NatToDecimal(n)) == n
    decreases n
  {
    var r := NatToDecimal(n);
    if n >= 10 {
      var front := NatToDecimal(n / 10);
      assert r[..|r| - 1] == front;
      NatToDecimalRoundTrip(n / 10);
    }
  }

  /** Python's `str(i)` for any integer. */
  function IntToDecimal(i: int): (r: string)
  {
    if i < 0 then "-" + NatToDecimal(-i) else NatToDecimal(i)
  }

  /** Python's `str(v)` for a decoded value, as the f-string in the
      confirmation reply applies it. */
  function Render(v: Value): (r: string)
    ensures v.Str? ==> r == v.s
    ensures v.Int? ==> |r| >= 1 && (r[0] == '-' <==> v.i < 0)
    ensures v.Int? && v.i >= 0 ==> forall k :: 0 <= k < |r| ==> IsDigit(r[k])
  {
    match v
    case Null => "None"
    case Bool(b) => if b then "True" else "False"
    case Int(i) => IntToDecimal(i)
    case Str(s) => s
    case Opaque(rendered) => rendered
  }

  /** Rendered integers read back as the same integer: a minus sign exactly
      for negatives, then the decimal digits of the magnitude. */
  lemma RenderIntFaithful(i: int)
    ensures var r := Render(Int(i));
            && |r| >= 1
            && (r[0] == '-' <==> i < 0)
            && (i < 0 ==> DecimalValue(r[1..]) == -i)
            && (i >= 0 ==> DecimalValue(r) == i)
  {
    var r := Render(Int(i));
    if i < 0 {
      NatToDecimalRoundTrip(-i);
      assert r[1..] == NatToDecimal(-i);
    } else {
      NatToDecimalRoundTrip(i);
    }
  }
}
