/**
  Strings as sequences of characters, the order SQLite and `BTreeMap` sort them in, and Rust's zero-padded
  integers. Both sort UTF-8 bytes, which is the order of the characters' code points.
 */
module Text {
  import opened Prelude

  /** `s` sorts strictly before `t`: the first differing character decides, a proper prefix is smaller. */
  predicate Before(s: string, t: string) {
    if |t| == 0 then false
    else if |s| == 0 then true
    else s[0] < t[0] || (s[0] == t[0] && Before(s[1..], t[1..]))
  }

  lemma {:induction false} BeforeAppend(a: string, b: string, x: string, y: string)
    requires |a| == |b|
    ensures Before(a + x, b + y) <==> Before(a, b) || (a == b && Before(x, y))
  {
    if |a| == 0 {
      assert a + x == x && b + y == y;
    } else {
      assert (a + x)[1..] == a[1..] + x && (b + y)[1..] == b[1..] + y;
      BeforeAppend(a[1..], b[1..], x, y);
      assert a == [a[0]] + a[1..] && b == [b[0]] + b[1..];
    }
  }

  lemma {:induction false} BeforeIsStrict(s: string)
    ensures !Before(s, s)
  {
    if s == [] {
    } else {
      BeforeIsStrict(s[1..]);
    }
  }

  lemma {:induction false} BeforeIsTransitive(a: string, b: string, c: string)
    requires Before(a, b) && Before(b, c)
    ensures Before(a, c)
  {
    if a == [] || a[0] != b[0] || b[0] != c[0] {
    } else {
      BeforeIsTransitive(a[1..], b[1..], c[1..]);
    }
  }

  lemma {:induction false} BeforeIsTotal(a: string, b: string)
    ensures a == b || Before(a, b) || Before(b, a)
  {
    if a == [] || b == [] {
    } else {
      BeforeIsTotal(a[1..], b[1..]);
      assert a == [a[0]] + a[1..] && b == [b[0]] + b[1..];
    }
  }

  /** The position of the first `c`, or the length of `s` when there is none. */
  function IndexOf(s: string, c: char): (i: nat)
    ensures i <= |s| && (i < |s| ==> s[i] == c)
    ensures forall k :: 0 <= k < i ==> s[k] != c
  {
    if s == "" || s[0] == c then 0 else 1 + IndexOf(s[1..], c)
  }

  /** Unicode white space. */
  predicate IsWhitespace(c: char) {
    c in {' ', '\t', '\n', '\r', '\U{0B}', '\U{0C}', '\U{85}', '\U{A0}', '\U{1680}', '\U{2028}', '\U{2029}',
          '\U{202F}', '\U{205F}', '\U{3000}'} || '\U{2000}' <= c <= '\U{200A}'
  }

  /** ASCII lower case; every other character stays. */
  function ToLower(s: string): string {
    if s == "" then ""
    else [if 'A' <= s[0] <= 'Z' then (s[0] as int + 32) as char else s[0]] + ToLower(s[1..])
  }

  /** Letter by letter: each of the 26 capitals becomes the small letter at its place, and nothing else changes. */
  lemma {:induction false} LowerIs(s: string)
    ensures |ToLower(s)| == |s|
    ensures forall i :: 0 <= i < |s| ==>
      ToLower(s)[i] as int == if 'A' <= s[i] <= 'Z' then 'a' as int + (s[i] as int - 'A' as int) else s[i] as int
  {
    if s == "" {
    } else {
      LowerIs(s[1..]);
    }
  }

  predicate IsDigit(c: char) {
    '0' <= c <= '9'
  }

  predicate AllDigits(s: string) {
    forall i :: 0 <= i < |s| ==> IsDigit(s[i])
  }

  function Digit(d: int): (c: char)
    requires 0 <= d < 10
    ensures IsDigit(c) && DigitValue(c) == d
  {
    ('0' as int + d) as char
  }

  function DigitValue(c: char): int {
    c as int - '0' as int
  }

  function Decimal(n: nat): string {
    if n < 10 then [Digit(n)] else Decimal(n / 10) + [Digit(n % 10)]
  }

  function PadLeft(s: string, width: int): (r: string)
    ensures |r| >= width && |r| >= |s|
  {
    if |s| >= width then s else seq(width - |s|, _ => '0') + s
  }

  /** Rust's `{n:0width}`: the sign counts towards the width, a longer number is not cut. */
  function Padded(n: int, width: int): (s: string)
    ensures |s| >= width
  {
    if n < 0 then "-" + PadLeft(Decimal(-n), width - 1) else PadLeft(Decimal(n), width)
  }

  /** A sign takes one place of the width. */
  lemma SignTakesAPlace(n: int)
    requires 0 < n < 10
    ensures Padded(-n, 4) == "-00" + [Digit(n)]
  {
  }

  /** The value of an all-digit field, or None when it is empty or holds anything else. */
  function Digits(s: string): Option<int> {
    if s == "" || !AllDigits(s) then None else Some(Value(s))
  }

  function Value(s: string): int {
    if s == "" then 0 else Value(s[..|s| - 1]) * 10 + DigitValue(s[|s| - 1])
  }

  function Two(n: int): string
    requires 0 <= n < 100
  {
    [Digit(n / 10), Digit(n % 10)]
  }

  function Four(n: int): string
    requires 0 <= n < 10_000
  {
    Two(n / 100) + Two(n % 100)
  }

  /** The last `width` decimal digits of `n`. */
  function FixedWidth(n: nat, width: nat): string {
    if width == 0 then "" else FixedWidth(n / 10, width - 1) + [Digit(n % 10)]
  }

  function Zeros(k: nat): string {
    seq(k, _ => '0')
  }

  lemma {:induction false} FixedWidthOfZero(width: nat)
    ensures FixedWidth(0, width) == Zeros(width)
  {
    if width == 0 {
    } else {
      FixedWidthOfZero(width - 1);
      assert Zeros(width) == Zeros(width - 1) + ['0'];
      assert Digit(0) == '0';
    }
  }

  lemma PadAppend(s: string, c: char, width: nat)
    ensures PadLeft(s + [c], width + 1) == PadLeft(s, width) + [c]
  {
  }

  predicate FitsIn(n: nat, width: nat) {
    if width == 0 then n == 0 else FitsIn(n / 10, width - 1)
  }

  lemma {:induction false} PadIsFixedWidth(n: nat, width: nat)
    requires width > 0 && FitsIn(n, width)
    ensures PadLeft(Decimal(n), width) == FixedWidth(n, width)
    decreases width
  {
    if n < 10 {
      FixedWidthOfZero(width - 1);
      PadAppend("", Digit(n), width - 1);
      assert "" + [Digit(n)] == [Digit(n)];
      assert PadLeft("", width - 1) == Zeros(width - 1);
      assert n / 10 == 0;
    } else {
      PadIsFixedWidth(n / 10, width - 1);
      PadAppend(Decimal(n / 10), Digit(n % 10), width - 1);
    }
  }

  lemma PaddedTwo(n: int)
    requires 0 <= n < 100
    ensures Padded(n, 2) == Two(n)
  {
    FitsTwo(n);
    PadIsFixedWidth(n, 2);
  }

  lemma {:induction false} FitsTwo(n: nat)
    requires n < 100
    ensures FitsIn(n, 2) && FixedWidth(n, 2) == Two(n)
  {
    assert FitsIn(n / 10, 1);
    assert FixedWidth(n / 10, 1) == [Digit(n / 10)];
  }

  lemma PaddedFour(n: int)
    requires 0 <= n < 10_000
    ensures Padded(n, 4) == Four(n)
  {
    FitsTwo(n / 100);
    hide Two;
    assert n / 10 / 10 == n / 100;
    assert FitsIn(n / 10, 3) && FitsIn(n, 4);
    PadIsFixedWidth(n, 4);
    FourIsFixedWidth(n);
  }

  lemma {:induction false} FourIsFixedWidth(n: nat)
    requires n < 10_000
    ensures FixedWidth(n, 4) == Four(n)
  {
    FitsTwo(n / 100);
    assert n / 10 / 10 == n / 100 && n / 10 % 10 == n % 100 / 10 && n % 100 % 10 == n % 10;
    assert FixedWidth(n / 10, 3) == FixedWidth(n / 100, 2) + [Digit(n / 10 % 10)];
    assert FixedWidth(n, 4) == FixedWidth(n / 10, 3) + [Digit(n % 10)];
    hide FixedWidth;
    assert Four(n) == Two(n / 100) + [Digit(n % 100 / 10), Digit(n % 100 % 10)];
  }

  lemma {:induction false} DecimalTail(n: nat)
    ensures Decimal(n) == (if n < 10 then [] else Decimal(n / 10)) + [Digit(n % 10)]
  {
  }

  lemma {:induction false} TwoValue(s: string)
    requires |s| == 2
    ensures AllDigits(s) ==> 0 <= Value(s) < 100 && Two(Value(s)) == s && Digits(s) == Some(Value(s))
  {
    assert s[..1][..0] == "";
    assert Value(s[..1]) == DigitValue(s[0]);
  }

  lemma ValueOfTwo(n: int)
    requires 0 <= n < 100
    ensures |Two(n)| == 2 && AllDigits(Two(n)) && Digits(Two(n)) == Some(n)
  {
    var s := Two(n);
    assert Value(s[..1]) == DigitValue(s[0]);
  }

  lemma {:induction false} FourValue(s: string)
    requires |s| == 4
    ensures AllDigits(s) ==> 0 <= Value(s) < 10_000 && Four(Value(s)) == s && Digits(s) == Some(Value(s))
  {
    if AllDigits(s) {
      var a, b := s[..2], s[2..];
      TwoValue(a);
      TwoValue(b);
      ValueFour(s);
      assert Value(s) / 100 == Value(a) && Value(s) % 100 == Value(b);
      assert s == a + b;
    }
  }

  lemma {:induction false} ValueFour(s: string)
    requires |s| == 4
    ensures Value(s) == Value(s[..2]) * 100 + Value(s[2..])
  {
    assert s[..3][..2] == s[..2];
    assert s[2..][..1] == [s[2]] && [s[2]][..0] == "";
    assert Value([s[2]]) == DigitValue(s[2]);
  }

  lemma ValueOfFour(n: int)
    requires 0 <= n < 10_000
    ensures |Four(n)| == 4 && AllDigits(Four(n)) && Digits(Four(n)) == Some(n)
  {
    ValueOfTwo(n / 100);
    ValueOfTwo(n % 100);
    ValueFour(Four(n));
    assert Four(n)[..2] == Two(n / 100) && Four(n)[2..] == Two(n % 100);
  }

  lemma BeforeOne(a: char, b: char)
    ensures Before([a], [b]) <==> a < b
  {
    assert [a][1..] == [] && [b][1..] == [];
    assert !Before([], []);
  }

  lemma TwoOrder(m: int, n: int)
    requires 0 <= m < 100 && 0 <= n < 100
    ensures |Two(m)| == 2 && |Two(n)| == 2
    ensures (Before(Two(m), Two(n)) <==> m < n) && (Two(m) == Two(n) <==> m == n)
  {
    var a, b, c, d := Digit(m / 10), Digit(m % 10), Digit(n / 10), Digit(n % 10);
    assert Two(m) == [a] + [b] && Two(n) == [c] + [d];
    BeforeAppend([a], [c], [b], [d]);
    BeforeOne(a, c);
    BeforeOne(b, d);
    hide Before, Digit;
    assert DigitValue(a) == m / 10 && DigitValue(b) == m % 10 && DigitValue(c) == n / 10 && DigitValue(d) == n % 10;
    assert Two(m) == Two(n) <==> a == c && b == d by {
      assert Two(m)[0] == a && Two(m)[1] == b && Two(n)[0] == c && Two(n)[1] == d;
    }
  }

  lemma FourOrder(m: int, n: int)
    requires 0 <= m < 10_000 && 0 <= n < 10_000
    ensures |Four(m)| == 4 && |Four(n)| == 4
    ensures (Before(Four(m), Four(n)) <==> m < n) && (Four(m) == Four(n) <==> m == n)
  {
    ValueOfFour(m);
    ValueOfFour(n);
    TwoOrder(m / 100, n / 100);
    TwoOrder(m % 100, n % 100);
    BeforeAppend(Two(m / 100), Two(n / 100), Two(m % 100), Two(n % 100));
  }

  lemma {:induction false} DecimalIsDigits(n: nat)
    ensures AllDigits(Decimal(n)) && |Decimal(n)| >= 1 && (n >= 10_000 ==> |Decimal(n)| >= 5)
    decreases n
  {
    if n < 10 {
    } else {
      DecimalIsDigits(n / 10);
    }
    if n >= 10_000 {
      DecimalTail(n / 10);
      DecimalTail(n / 100);
      DecimalTail(n / 1_000);
      assert n / 10 / 10 == n / 100 && n / 100 / 10 == n / 1_000 && n / 1_000 / 10 >= 1;
      DecimalIsDigits(n / 1_000 / 10);
    }
  }

  /** A padded number is digits, led by a sign when it is negative. */
  lemma PaddedShape(n: int, width: nat)
    ensures '.' !in Padded(n, width)
    ensures n < 0 ==> Padded(n, width)[..1] == "-"
    ensures n >= 10_000 ==> |Padded(n, width)| >= 5
  {
    DecimalIsDigits(if n < 0 then -n else n);
    var s := PadLeft(Decimal(if n < 0 then -n else n), if n < 0 then width - 1 else width);
    assert AllDigits(s);
  }
}
