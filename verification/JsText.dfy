/**
 * The string and array primitives the modelled code leans on: `split`/`join`
 * on a one-character separator, `indexOf` and a one-element `splice`, the decimal rendering of an integer id
 * (`id.toString()` in JavaScript, `str(n)` / f-strings in Python) and the
 * decimal parse behind JavaScript's loose `token == id` and Python's `int(key)`.
 */
module JsText {
  import opened Wrappers

  /** `s.split(sep)`: the fields between occurrences of `sep`; never an empty list. */
  function Split(s: string, sep: char): (r: seq<string>)
    ensures |r| >= 1
    ensures forall k :: 0 <= k < |r| ==> sep !in r[k]
  {
    if s == [] then [""]
    else
      var rest := Split(s[1..], sep);
      if s[0] == sep then [""] + rest
      else [[s[0]] + rest[0]] + rest[1..]
  }

  /** `xs.join(sep)`. */
  function Join(xs: seq<string>, sep: char): string
  {
    if xs == [] then ""
    else if |xs| == 1 then xs[0]
    else xs[0] + [sep] + Join(xs[1..], sep)
  }

  /** `xs.indexOf(t)`: the first position of `t`, else -1; `undefined` is never found. */
  function IndexOf(xs: seq<string>, t: Option<string>): (r: int)
    ensures -1 <= r < |xs|
    ensures r >= 0 ==> t.Some? && xs[r] == t.value && forall j :: 0 <= j < r ==> xs[j] != t.value
    ensures r == -1 ==> t.None? || t.value !in xs
  {
    if xs == [] then -1
    else if t.Some? && xs[0] == t.value then 0
    else
      var k := IndexOf(xs[1..], t);
      if k == -1 then -1 else k + 1
  }

  /** `xs.splice(start, 1)`: a negative start counts from the end, so -1 removes the last element. */
  function SpliceOne(xs: seq<string>, start: int): seq<string>
  {
    var k := if start < 0 then (if |xs| + start < 0 then 0 else |xs| + start) else start;
    if k < |xs| then xs[..k] + xs[k + 1..] else xs
  }

  /** Splitting a string that starts with a separator-free run `a` glues `a` onto the first field. */
  lemma {:induction false} SplitPrefix(a: string, rest: string, sep: char)
    requires sep !in a
    ensures Split(a + rest, sep) == [a + Split(rest, sep)[0]] + Split(rest, sep)[1..]
  {
    if a == [] {
      var r := Split(rest, sep);
      assert a + rest == rest;
      assert a + r[0] == r[0];
      assert r == [r[0]] + r[1..];
    } else {
      assert (a + rest)[1..] == a[1..] + rest;
      SplitPrefix(a[1..], rest, sep);
      assert [a[0]] + (a[1..] + Split(rest, sep)[0]) == a + Split(rest, sep)[0];
    }
  }

  /** Splitting what was joined gives back the fields, provided none of them holds the separator. */
  lemma {:induction false} SplitJoin(xs: seq<string>, sep: char)
    requires |xs| >= 1
    requires forall k :: 0 <= k < |xs| ==> sep !in xs[k]
    ensures Split(Join(xs, sep), sep) == xs
  {
    if |xs| == 1 {
      SplitPrefix(xs[0], "", sep);
      assert xs[0] + "" == xs[0];
    } else {
      SplitJoin(xs[1..], sep);
      var tail := [sep] + Join(xs[1..], sep);
      assert Join(xs, sep) == xs[0] + tail;
      SplitPrefix(xs[0], tail, sep);
      assert tail[1..] == Join(xs[1..], sep);
      assert Split(tail, sep) == [""] + xs[1..];
      assert xs[0] + "" == xs[0];
    }
  }

  /** Joining one more field adds the separator and the field at the end. */
  lemma {:induction false} JoinSnoc(xs: seq<string>, y: string, sep: char)
    requires xs != []
    ensures Join(xs + [y], sep) == Join(xs, sep) + [sep] + y
  {
    if |xs| > 1 {
      assert (xs + [y])[1..] == xs[1..] + [y];
      JoinSnoc(xs[1..], y, sep);
    }
  }

  /** The joined string is at least as long as its first field. */
  lemma {:induction false} JoinLength(xs: seq<string>, sep: char)
    requires |xs| >= 1
    ensures |Join(xs, sep)| >= |xs[0]|
  {
  }

  predicate IsDigit(c: char) {
    '0' <= c <= '9'
  }

  function DigitValue(c: char): (d: nat)
    requires IsDigit(c)
    ensures d < 10
  {
    (c as int) - ('0' as int)
  }

  function DigitChar(d: nat): (c: char)
    requires d < 10
    ensures IsDigit(c) && DigitValue(c) == d
  {
    (('0' as int) + d) as char
  }

  predicate AllDigits(s: string) {
    forall k :: 0 <= k < |s| ==> IsDigit(s[k])
  }

  /** The value of a run of decimal digits, most significant first. */
  function DigitsValue(s: string): nat
    requires AllDigits(s)
  {
    if s == [] then 0 else 10 * DigitsValue(s[..|s| - 1]) + DigitValue(s[|s| - 1])
  }

  /** Decimal digits of a natural number, without leading zeros. */
  function NatToString(n: nat): string
  {
    if n < 10 then [DigitChar(n)] else NatToString(n / 10) + [DigitChar(n % 10)]
  }

  /** `String(n)` of an integer-valued number; Python's `str(n)` agrees. */
  function IntToString(i: int): string
  {
    if i < 0 then "-" + NatToString(-i) else NatToString(i)
  }

  /** A decimal integer literal with an optional sign; anything else is not a number. */
  function ParseDecimal(s: string): (r: Option<int>)
    ensures r.Some? ==> |s| >= 1
  {
    if |s| >= 2 && (s[0] == '-' || s[0] == '+') && AllDigits(s[1..]) then
      var magnitude: int := DigitsValue(s[1..]);
      Some(if s[0] == '-' then -magnitude else magnitude)
    else if |s| >= 1 && AllDigits(s) then
      Some(DigitsValue(s))
    else
      None
  }

  /**
   * JavaScript's `Number(s)` where it yields an integer: the empty string is 0,
   * a signed decimal literal is its value, and everything else is NaN (`None`),
   * which is loosely equal to no number.
   */
  function JsNumber(s: string): Option<int>
  {
    if s == "" then Some(0) else ParseDecimal(s)
  }

  /** JavaScript's loose `token == id` between a string token and a numeric id. */
  predicate LooseEquals(token: string, id: int)
  {
    JsNumber(token) == Some(id)
  }

  lemma {:induction false} NatToStringDigits(n: nat)
    ensures |NatToString(n)| >= 1
    ensures AllDigits(NatToString(n))
    ensures DigitsValue(NatToString(n)) == n
  {
    if n >= 10 {
      NatToStringDigits(n / 10);
      var s := NatToString(n);
      assert s[..|s| - 1] == NatToString(n / 10);
    }
  }

  /** An id's decimal text is non-empty and holds neither a comma nor an ampersand. */
  lemma IntToStringShape(i: int)
    ensures |IntToString(i)| >= 1
    ensures ',' !in IntToString(i) && '&' !in IntToString(i)
  {
    NatToStringDigits(if i < 0 then -i else i);
    var s := IntToString(i);
    assert forall k :: 0 <= k < |s| ==> s[k] == '-' || IsDigit(s[k]);
  }

  /** Rendering an integer and parsing it back gives the integer. */
  lemma ParseIntToString(i: int)
    ensures ParseDecimal(IntToString(i)) == Some(i)
    ensures JsNumber(IntToString(i)) == Some(i)
    ensures LooseEquals(IntToString(i), i)
  {
    if i < 0 {
      NatToStringDigits(-i);
      assert IntToString(i)[1..] == NatToString(-i);
    } else {
      NatToStringDigits(i);
    }
  }

  /** Different integers render differently. */
  lemma IntToStringInjective(i: int, j: int)
    requires IntToString(i) == IntToString(j)
    ensures i == j
  {
    ParseIntToString(i);
    ParseIntToString(j);
  }
}
