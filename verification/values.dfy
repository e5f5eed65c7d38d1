/** JavaScript values as they reach an error constructor, and the two string
    conversions the error registry relies on: the conversion a template
    literal applies to an interpolated value (`${v}`), and the conversion
    `Array.prototype.join(",")` applies to each element of an array. */
module Values {

  /** The kinds of value the registry's callers pass as constructor
      arguments. Numbers are integers (see README, "Left out"). */
  datatype Value = Undefined | Null | Bool(b: bool) | Num(n: int) | Str(s: string)

  predicate IsDigit(c: char) {
    '0' <= c <= '9'
  }

  predicate AllDigits(s: string) {
    forall i :: 0 <= i < |s| ==> IsDigit(s[i])
  }

  function DigitChar(d: nat): (c: char)
    requires d < 10
    ensures IsDigit(c)
    ensures c as int - '0' as int == d
  {
    ('0' as int + d) as char
  }

  /** Decimal text of a natural number, most significant digit first. */
  function NatToDecimal(n: nat): (s: string)
    ensures |s| > 0 && AllDigits(s)
    ensures s[0] == '0' ==> n == 0
    decreases n
  {
    if n < 10 then [DigitChar(n)] else NatToDecimal(n / 10) + [DigitChar(n % 10)]
  }

  /** The number a string of decimal digits denotes. */
  function DecimalValue(s: string): nat
    requires AllDigits(s)
  {
    if |s| == 0 then 0 else DecimalValue(s[..|s| - 1]) * 10 + (s[|s| - 1] as int - '0' as int)
  }

  lemma {:induction false} NatDecimalRoundTrip(n: nat)
    ensures DecimalValue(NatToDecimal(n)) == n
    decreases n
  {
    if n >= 10 {
      var s := NatToDecimal(n);
      assert s[..|s| - 1] == NatToDecimal(n / 10);
      NatDecimalRoundTrip(n / 10);
    }
  }

  /** Decimal text of an integer, with a leading '-' when negative. */
  function IntToDecimal(n: int): (s: string)
    ensures |s| > 0
    ensures s[0] == '-' <==> n < 0
  {
    if n < 0 then "-" + NatToDecimal(-n) else NatToDecimal(n)
  }

  /** The integer text is unambiguous: its sign is its first character and
      its digits denote the magnitude. */
  lemma IntDecimalRoundTrip(n: int)
    ensures var s := IntToDecimal(n);
      && |s| > 0
      && (s[0] == '-' <==> n < 0)
      && (n < 0 ==> AllDigits(s[1..]) && DecimalValue(s[1..]) == -n)
      && (n >= 0 ==> AllDigits(s) && DecimalValue(s) == n)
  {
    if n < 0 {
      assert IntToDecimal(n)[1..] == NatToDecimal(-n);
      NatDecimalRoundTrip(-n);
    } else {
      NatDecimalRoundTrip(n);
    }
  }

  /** The string a template literal interpolates for `v`. */
  function ToJsString(v: Value): (s: string)
    ensures v.Undefined? ==> s == "undefined"
    ensures v.Null? ==> s == "null"
    ensures v.Bool? ==> (s == "true" <==> v.b) && (s == "false" <==> !v.b)
    ensures v.Num? ==> s == IntToDecimal(v.n) && (s[0] == '-' <==> v.n < 0)
    ensures v.Str? ==> s == v.s
  {
    match v
    case Undefined => "undefined"
    case Null => "null"
    case Bool(b) => if b then "true" else "false"
    case Num(n) => IntToDecimal(n)
    case Str(s) => s
  }

  /** The string `Array.prototype.join` writes for one element: undefined and
      null become empty, everything else is converted as by `String(v)`. */
  function JoinElement(v: Value): string {
    if v.Undefined? || v.Null? then "" else ToJsString(v)
  }

  /** `items.join(",")`, which is also what an array interpolated into a
      template literal becomes. */
  function Join(items: seq<Value>): (s: string)
    ensures |items| == 0 ==> s == ""
    ensures |items| == 1 ==> s == JoinElement(items[0])
    ensures |items| > 1 ==> var h := JoinElement(items[0]);
      && |h| < |s|
      && s[..|h|] == h
      && s[|h|] == ','
    decreases |items|
  {
    if |items| == 0 then ""
    else if |items| == 1 then JoinElement(items[0])
    else JoinElement(items[0]) + "," + Join(items[1..])
  }

  /** The per-element strings that `Join` puts between its commas. */
  function Elements(items: seq<Value>): (parts: seq<string>)
    ensures |parts| == |items|
    ensures forall i :: 0 <= i < |items| ==> parts[i] == JoinElement(items[i])
    decreases |items|
  {
    if |items| == 0 then [] else [JoinElement(items[0])] + Elements(items[1..])
  }

  /** Splits a string at every comma, as `s.split(",")` does. */
  function Split(s: string): (parts: seq<string>)
    ensures |parts| > 0
    decreases |s|
  {
    if |s| == 0 then [""]
    else
      var rest := Split(s[1..]);
      if s[0] == ',' then [""] + rest else [[s[0]] + rest[0]] + rest[1..]
  }

  lemma {:induction false} SplitNoComma(a: string)
    requires ',' !in a
    ensures Split(a) == [a]
    decreases |a|
  {
    if |a| > 0 {
      assert ',' !in a[1..] by {
        forall i | 0 <= i < |a[1..]| ensures a[1..][i] != ',' {
          assert a[1..][i] == a[i + 1];
        }
      }
      SplitNoComma(a[1..]);
      assert [a[0]] + a[1..] == a;
    }
  }

  lemma {:induction false} SplitAtFirstComma(a: string, b: string)
    requires ',' !in a
    ensures Split(a + "," + b) == [a] + Split(b)
    decreases |a|
  {
    var s := a + "," + b;
    if |a| == 0 {
      assert s[1..] == b;
    } else {
      assert ',' !in a[1..] by {
        forall i | 0 <= i < |a[1..]| ensures a[1..][i] != ',' {
          assert a[1..][i] == a[i + 1];
        }
      }
      assert s[0] == a[0];
      assert s[1..] == a[1..] + "," + b;
      SplitAtFirstComma(a[1..], b);
      assert [a[0]] + a[1..] == a;
    }
  }

  /** No element's text, as `join` writes it, contains a comma. */
  predicate NoCommaIn(items: seq<Value>) {
    forall i :: 0 <= i < |items| ==> ',' !in JoinElement(items[i])
  }

  /** Splitting a joined array at its commas gives back each element's
      string, provided no element's string itself contains a comma. */
  lemma {:induction false} SplitJoin(items: seq<Value>)
    requires |items| > 0
    requires NoCommaIn(items)
    ensures Split(Join(items)) == Elements(items)
    decreases |items|
  {
    assert ',' !in JoinElement(items[0]);
    if |items| == 1 {
      SplitNoComma(JoinElement(items[0]));
    } else {
      var rest := items[1..];
      assert NoCommaIn(rest) by {
        forall i | 0 <= i < |rest| ensures ',' !in JoinElement(rest[i]) {
          assert rest[i] == items[i + 1];
        }
      }
      SplitJoin(rest);
      SplitAtFirstComma(JoinElement(items[0]), Join(rest));
    }
  }
}
