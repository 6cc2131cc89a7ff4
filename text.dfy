/** Small text utilities shared by the calculator model: an optional value
    (what `getItem`, `URLSearchParams.get` and `parseInt` can fail to give),
    decimal digit strings and character counting. */
module Text {

  datatype Option<T> = None | Some(value: T) {
    function GetOr(default: T): T {
      match this
      case Some(v) => v
      case None => default
    }
  }

  /** A JavaScript template literal or `URLSearchParams` entry renders a
      missing storage item (`null`) as the text "null". */
  function Render(o: Option<string>): (s: string)
    ensures o.Some? ==> s == o.value
    ensures o.None? ==> s == "null"
  {
    o.GetOr("null")
  }

  /** `getItem` / `get` on a key-value store. */
  function Get(m: map<string, string>, key: string): (r: Option<string>)
    ensures r.Some? <==> key in m
    ensures r.Some? ==> r.value == m[key]
  {
    if key in m then Some(m[key]) else None
  }

  predicate IsDigit(c: char) {
    '0' <= c <= '9'
  }

  predicate AllDigits(s: string) {
    forall i :: 0 <= i < |s| ==> IsDigit(s[i])
  }

  /** A non-empty string of decimal digits. */
  predicate IsDigits(s: string) {
    |s| > 0 && AllDigits(s)
  }

  function DigitValue(c: char): nat
    requires IsDigit(c)
  {
    c as int - '0' as int
  }

  function DigitChar(d: nat): (c: char)
    requires d < 10
    ensures IsDigit(c) && DigitValue(c) == d
  {
    ('0' as int + d) as char
  }

  /** The number a digit string denotes, most significant digit first. */
  function Value(s: string): nat
    requires AllDigits(s)
  {
    if |s| == 0 then 0 else 10 * Value(s[..|s| - 1]) + DigitValue(s[|s| - 1])
  }

  /** Reading a decimal number: defined exactly on non-empty digit strings. */
  function ParseNat(s: string): Option<nat> {
    if IsDigits(s) then Some(Value(s)) else None
  }

  /** The canonical decimal spelling of `n`: digits only, no leading zero,
      and it reads back as `n`. */
  function ShowNat(n: nat): (s: string)
    ensures IsDigits(s) && Value(s) == n
    ensures s[0] == '0' ==> n == 0 && |s| == 1
  {
    if n < 10 then [DigitChar(n)]
    else
      var front := ShowNat(n / 10);
      var s := front + [DigitChar(n % 10)];
      assert s[..|s| - 1] == front;
      s
  }

  lemma ParseShow(n: nat)
    ensures ParseNat(ShowNat(n)) == Some(n)
  {
  }

  /** A canonical digit string (no leading zero) is the spelling of its value. */
  lemma {:induction false} ShowParse(s: string)
    requires IsDigits(s) && (s[0] == '0' ==> |s| == 1)
    ensures ShowNat(Value(s)) == s
  {
    var n := |s|;
    if n > 1 {
      var front := s[..n - 1];
      assert front[0] == s[0];
      assert IsDigits(front);
      ShowParse(front);
      ValuePositive(front);
      assert Value(s) / 10 == Value(front);
      assert Value(s) % 10 == DigitValue(s[n - 1]);
      assert s == front + [DigitChar(Value(s) % 10)];
    } else {
      assert s[..0] == [];
      assert Value(s) == DigitValue(s[0]);
      assert s == [DigitChar(Value(s))];
    }
  }

  lemma {:induction false} ValuePositive(s: string)
    requires IsDigits(s) && s[0] != '0'
    ensures Value(s) > 0
  {
    if |s| > 1 {
      var front := s[..|s| - 1];
      assert front[0] == s[0];
      ValuePositive(front);
    }
  }

  /** Number of occurrences of `c` in `s`. */
  function Count(s: string, c: char): nat {
    if |s| == 0 then 0 else (if s[0] == c then 1 else 0) + Count(s[1..], c)
  }

  lemma {:induction false} CountConcat(a: string, b: string, c: char)
    ensures Count(a + b, c) == Count(a, c) + Count(b, c)
  {
    if |a| > 0 {
      assert (a + b)[1..] == a[1..] + b;
      CountConcat(a[1..], b, c);
    } else {
      assert a + b == b;
    }
  }

  lemma {:induction false} CountAbsent(s: string, c: char)
    requires forall i :: 0 <= i < |s| ==> s[i] != c
    ensures Count(s, c) == 0
  {
    if |s| > 0 {
      CountAbsent(s[1..], c);
    }
  }
}
