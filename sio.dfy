/**
 * The signal-safe reporter's number formatting (sio_strlen, sio_reverse,
 * sio_ltoa, sio_putl). Text lives in a fixed char buffer terminated by '\0';
 * the conversion writes the digits least-significant first, appends the sign,
 * terminates the string and reverses it in place.
 */
module Sio {

  const LONG_MIN: int := -0x8000_0000_0000_0000
  const LONG_MAX: int := 0x7fff_ffff_ffff_ffff

  /** Size of the local buffer sio_putl converts into. */
  const PUTL_BUFFER: nat := 128

  predicate ValidBase(b: int) { 2 <= b <= 36 }

  /** The value of a digit character, -1 for anything that is not a digit. */
  function DigitValue(ch: char): int
  {
    if '0' <= ch <= '9' then ch as int - '0' as int
    else if 'a' <= ch <= 'z' then ch as int - 'a' as int + 10
    else -1
  }

  /** The character sio_ltoa writes for one digit value. */
  function DigitChar(c: nat): (ch: char)
    requires c < 36
    ensures DigitValue(ch) == c
  {
    if c < 10 then ('0' as int + c) as char else ('a' as int + c - 10) as char
  }

  /** A number below the base is its own last digit. */
  lemma DivSmall(n: nat, b: nat)
    requires ValidBase(b) && n < b
    ensures n / b == 0 && n % b == n
  {
  }

  /** Dividing a number at least the base by it leaves a smaller, positive quotient. */
  /** A product with a factor of at least two is at least twice the other factor. */
  lemma {:induction false} MulAtLeastTwice(q: nat, b: nat)
    requires b >= 2
    ensures q * b >= 2 * q
    ensures q == 0 ==> q * b == 0
    decreases q
  {
    if q > 0 {
      MulAtLeastTwice(q - 1, b);
      assert q * b == (q - 1) * b + b;
    }
  }

  lemma DivShrinks(n: nat, b: nat)
    requires ValidBase(b) && n >= b
    ensures 1 <= n / b < n
  {
    var q, r := n / b, n % b;
    assert n == q * b + r && 0 <= r < b;
    MulAtLeastTwice(q, b);
  }

  /** Division facts about a base the solver does not find unaided. */
  lemma DivMod(n: nat, b: nat)
    requires ValidBase(b)
    ensures n % b < b && (n / b) * b + n % b == n
    ensures n < b ==> n / b == 0 && n % b == n
    ensures n >= b ==> 1 <= n / b < n
  {
    if n < b {
      DivSmall(n, b);
    } else {
      DivShrinks(n, b);
    }
  }

  /** The digits of n in base b, most significant first, with no leading zero. */
  function Digits(n: nat, b: nat): (r: string)
    requires ValidBase(b)
    ensures 1 <= |r|
    ensures forall k :: 0 <= k < |r| ==> 0 <= DigitValue(r[k]) < b
    ensures n == 0 || r[0] != '0'
    decreases n
  {
    DivMod(n, b);
    if n < b then [DigitChar(n)] else Digits(n / b, b) + [DigitChar(n % b)]
  }

  /** The digits of n in base b in the order sio_ltoa's loop emits them. */
  function LsDigits(n: nat, b: nat): string
    requires ValidBase(b)
    decreases n
  {
    DivMod(n, b);
    if n < b then [DigitChar(n)] else [DigitChar(n % b)] + LsDigits(n / b, b)
  }

  /** The text sio_ltoa(v, s, b) leaves in s: a '-' for negative v, then the digits of |v|. */
  function Text(v: int, b: nat): (r: string)
    requires ValidBase(b)
    ensures |r| == |Digits(if v < 0 then -v else v, b)| + (if v < 0 then 1 else 0)
    ensures (r[0] == '-') <==> v < 0
  {
    (if v < 0 then "-" else "") + Digits(if v < 0 then -v else v, b)
  }

  /** The decimal rendering every "%d"-like output of the shell uses. */
  function Decimal(v: int): string
  {
    Text(v, 10)
  }

  /** Horner evaluation of a digit string: the partner of Digits. */
  function ValueOf(ds: string, b: nat): int
  {
    if ds == [] then 0 else ValueOf(ds[..|ds| - 1], b) * b + DigitValue(ds[|ds| - 1])
  }

  /** Reads back a possibly signed digit string: the partner of Text. */
  function ParseText(s: string, b: nat): int
  {
    if |s| > 0 && s[0] == '-' then -ValueOf(s[1..], b) else ValueOf(s, b)
  }

  function Reversed<T>(s: seq<T>): (r: seq<T>)
    ensures |r| == |s|
  {
    if s == [] then [] else [s[|s| - 1]] + Reversed(s[..|s| - 1])
  }

  /** The length of the C string held in t: the index of its first '\0'. */
  function CLen(t: seq<char>): (m: nat)
    requires '\0' in t
    ensures m < |t| && t[m] == '\0'
    ensures forall k :: 0 <= k < m ==> t[k] != '\0'
  {
    if t[0] == '\0' then 0 else 1 + CLen(t[1..])
  }

  function Power(b: nat, k: nat): nat
  {
    if k == 0 then 1 else b * Power(b, k - 1)
  }

  // ----- lemmas -----

  lemma {:induction false} ReversedAt<T>(s: seq<T>, k: nat)
    requires k < |s|
    ensures Reversed(s)[k] == s[|s| - 1 - k]
  {
    if k > 0 {
      ReversedAt(s[..|s| - 1], k - 1);
    }
  }

  lemma {:induction false} ReversedPrepend<T>(x: T, s: seq<T>)
    ensures Reversed([x] + s) == Reversed(s) + [x]
    decreases |s|
  {
    if s != [] {
      var xs := [x] + s;
      assert xs[..|xs| - 1] == [x] + s[..|s| - 1];
      ReversedPrepend(x, s[..|s| - 1]);
    }
  }

  lemma ReversedAppend<T>(s: seq<T>, x: T)
    ensures Reversed(s + [x]) == [x] + Reversed(s)
  {
    assert (s + [x])[..|s|] == s;
  }

  /** Reversing what the conversion loop emits gives the digits in reading order. */
  lemma {:induction false} ReversedLsDigits(n: nat, b: nat)
    requires ValidBase(b)
    ensures Reversed(LsDigits(n, b)) == Digits(n, b)
    decreases n
  {
    DivMod(n, b);
    if n >= b {
      ReversedLsDigits(n / b, b);
      ReversedPrepend(DigitChar(n % b), LsDigits(n / b, b));
    }
  }

  /** What the conversion loop emits is as long as the number's digits and holds only digits. */
  lemma LsDigitsShape(n: nat, b: nat)
    requires ValidBase(b)
    ensures |LsDigits(n, b)| == |Digits(n, b)|
    ensures forall k :: 0 <= k < |LsDigits(n, b)| ==> 0 <= DigitValue(LsDigits(n, b)[k]) < b
  {
    ReversedLsDigits(n, b);
    var ls := LsDigits(n, b);
    forall k | 0 <= k < |ls|
      ensures 0 <= DigitValue(ls[k]) < b
    {
      ReversedAt(ls, |ls| - 1 - k);
    }
  }

  /** Reading the digits back gives the number: Digits round-trips through ValueOf. */
  lemma {:induction false} DigitsRoundTrip(n: nat, b: nat)
    requires ValidBase(b)
    ensures ValueOf(Digits(n, b), b) == n
    decreases n
  {
    DivMod(n, b);
    if n >= b {
      var d := Digits(n, b);
      assert d[..|d| - 1] == Digits(n / b, b);
      DigitsRoundTrip(n / b, b);
    }
  }

  /** Every text sio_ltoa produces parses back to the value it was made from. */
  lemma TextRoundTrip(v: int, b: nat)
    requires ValidBase(b)
    ensures ParseText(Text(v, b), b) == v
  {
    var m := if v < 0 then -v else v;
    DigitsRoundTrip(m, b);
    var t := Text(v, b);
    if v < 0 {
      assert t[0] == '-' && t[1..] == Digits(m, b);
      assert ParseText(t, b) == -ValueOf(Digits(m, b), b);
    } else {
      assert t == Digits(m, b);
      assert DigitValue(t[0]) >= 0;
      assert ParseText(t, b) == ValueOf(Digits(m, b), b);
    }
  }

  /** Text is injective: two values never share a rendering. */
  lemma TextInjective(v: int, w: int, b: nat)
    requires ValidBase(b)
    requires Text(v, b) == Text(w, b)
    ensures v == w
  {
    TextRoundTrip(v, b);
    TextRoundTrip(w, b);
  }

  /** Dividing by the base takes a number below b * p to one below p. */
  lemma DivBelow(n: nat, b: nat, p: nat)
    requires ValidBase(b) && n < b * p
    ensures n / b < p
  {
    DivMod(n, b);
  }

  /** A number below b^k has at most k digits. */
  lemma {:induction false} DigitsBound(n: nat, b: nat, k: nat)
    requires ValidBase(b)
    requires 1 <= k && n < Power(b, k)
    ensures |Digits(n, b)| <= k
    decreases k
  {
    DivMod(n, b);
    if n >= b {
      DivBelow(n, b, Power(b, k - 1));
      DigitsBound(n / b, b, k - 1);
    }
  }

  /** Any long other than LONG_MIN has at most 20 characters in decimal. */
  lemma DecimalFitsLong(v: int)
    requires LONG_MIN < v <= LONG_MAX
    ensures |Decimal(v)| <= 20
  {
    assert Power(10, 10) == 10_000_000_000;
    assert Power(10, 19) == 10_000_000_000_000_000_000;
    DigitsBound(if v < 0 then -v else v, 10, 19);
  }

  /** What sio_ltoa holds just before it reverses: the digits of |v| as emitted, then the sign. */
  function Emitted(v: int, b: nat): string
    requires ValidBase(b)
  {
    LsDigits(if v < 0 then -v else v, b) + (if v < 0 then ['-'] else [])
  }

  /** Reversing what sio_ltoa emitted gives the text, and nothing emitted is a '\0'. */
  lemma SignedReversal(v: int, b: nat)
    requires ValidBase(b)
    ensures |Emitted(v, b)| == |Text(v, b)| && Reversed(Emitted(v, b)) == Text(v, b)
    ensures forall k :: 0 <= k < |Emitted(v, b)| ==> Emitted(v, b)[k] != '\0'
  {
    var n := if v < 0 then -v else v;
    var e := Emitted(v, b);
    ReversedLsDigits(n, b);
    LsDigitsShape(n, b);
    if v < 0 {
      ReversedAppend(LsDigits(n, b), '-');
    } else {
      assert e == LsDigits(n, b);
    }
    forall k | 0 <= k < |e|
      ensures e[k] != '\0'
    {
      assert k < |LsDigits(n, b)| ==> DigitValue(e[k]) >= 0;
    }
  }

  /** No rendering contains the C string terminator. */
  lemma TextHasNoNul(v: int, b: nat)
    requires ValidBase(b)
    ensures forall k :: 0 <= k < |Text(v, b)| ==> Text(v, b)[k] != '\0'
  {
    var t := Text(v, b);
    forall k | 0 <= k < |t|
      ensures t[k] != '\0'
    {
      assert t[k] == '-' || DigitValue(t[k]) >= 0;
    }
  }

  /** A string with no '\0' followed by a terminated rest: the C string is exactly the first part. */
  lemma TerminatedLayout(e: seq<char>, rest: seq<char>)
    requires forall k :: 0 <= k < |e| ==> e[k] != '\0'
    requires |rest| >= 1 && rest[0] == '\0'
    ensures CLen(e + rest) == |e|
    ensures (e + rest)[..|e|] == e && (e + rest)[|e|..] == rest
  {
    var c := e + rest;
    assert c[|e|] == '\0';
    assert forall k :: 0 <= k < |e| ==> c[k] != '\0';
  }

  /**
   * sio_reverse applied to a buffer holding e (free of '\0'), then '\0',
   * then the untouched rest of the original buffer s0, puts the reversal
   * of e in its place.
   */
  lemma ReversedLayout(e: seq<char>, t: seq<char>, s0: seq<char>, terminated: seq<char>, after: seq<char>)
    requires Reversed(e) == t
    requires forall k :: 0 <= k < |e| ==> e[k] != '\0'
    requires |e| < |s0| == |terminated|
    requires terminated[..|e|] == e && terminated[|e|] == '\0'
    requires terminated[|e| + 1..] == s0[|e| + 1..]
    requires '\0' in terminated
    requires after == Reversed(terminated[..CLen(terminated)]) + terminated[CLen(terminated)..]
    ensures after == t + ['\0'] + s0[|t| + 1..]
  {
    var rest := terminated[|e|..];
    assert terminated == e + rest;
    TerminatedLayout(e, rest);
    assert CLen(terminated) == |e|;
    assert rest == ['\0'] + s0[|e| + 1..] by {
      assert rest[0] == '\0' && rest[1..] == terminated[|e| + 1..];
    }
    assert |t| == |e|;
    assert after == t + rest;
  }

  /** What the swap loop of sio_reverse leaves behind, stated on sequences. */
  lemma MirroredIsReversed(a: seq<char>, r: seq<char>, len: nat)
    requires |a| == |r| && len <= |a|
    requires forall k :: 0 <= k < len ==> r[k] == a[len - 1 - k]
    requires forall k :: len <= k < |a| ==> r[k] == a[k]
    ensures r == Reversed(a[..len]) + a[len..]
  {
    forall k | 0 <= k < len
      ensures r[k] == Reversed(a[..len])[k]
    {
      ReversedAt(a[..len], k);
    }
  }

  // ----- the buffer routines -----

  /** sio_strlen: the index of the first '\0' in s. */
  method StrLen(s: array<char>) returns (n: nat)
    requires '\0' in s[..]
    ensures n < s.Length && s[n] == '\0'
    ensures forall k :: 0 <= k < n ==> s[k] != '\0'
  {
    ghost var end := CLen(s[..]);
    n := 0;
    while s[n] != '\0'
      invariant n <= end
      invariant forall k :: 0 <= k < n ==> s[k] != '\0'
      decreases end - n
    {
      n := n + 1;
    }
  }

  /** sio_reverse: reverses, in place, the C string held in s; the terminator and what follows stay put. */
  method Reverse(s: array<char>)
    requires '\0' in s[..]
    modifies s
    ensures s[..] == Reversed(old(s[..CLen(s[..])])) + old(s[CLen(s[..])..])
  {
    var len := StrLen(s);
    assert len == CLen(s[..]);
    var i, j := 0, len - 1;
    while i < j
      invariant 0 <= i && 2 * i <= len && j == len - 1 - i
      invariant forall k :: 0 <= k < i ==> s[k] == old(s[len - 1 - k]) && s[len - 1 - k] == old(s[k])
      invariant forall k :: i <= k < len - i ==> s[k] == old(s[k])
      invariant forall k :: len <= k < s.Length ==> s[k] == old(s[k])
    {
      var c := s[i];
      s[i] := s[j];
      s[j] := c;
      i, j := i + 1, j - 1;
    }
    forall k | 0 <= k < len
      ensures s[k] == old(s[len - 1 - k])
    {
      if k >= len - i {
        var m := len - 1 - k;
        assert 0 <= m < i;
      }
    }
    MirroredIsReversed(old(s[..]), s[..], len);
  }

  /**
   * The do-while loop of sio_ltoa: writes the digits of n into s[0..],
   * least significant first, and returns how many it wrote.
   */
  method EmitDigits(n0: nat, s: array<char>, b: int) returns (i: nat)
    requires ValidBase(b)
    requires |Digits(n0, b)| < s.Length
    modifies s
    ensures i == |Digits(n0, b)| && s[..i] == LsDigits(n0, b)
    ensures forall k :: i <= k < s.Length ==> s[k] == old(s[k])
  {
    ghost var digits := LsDigits(n0, b);
    LsDigitsShape(n0, b);
    var n: nat := n0;
    i := 0;
    while true
      invariant i <= |digits| && LsDigits(n, b) == digits[i..]
      invariant forall k :: 0 <= k < i ==> s[k] == digits[k]
      invariant forall k :: i <= k < s.Length ==> s[k] == old(s[k])
      decreases n
    {
      DivMod(n, b);
      ghost var rest := if n < b then [] else LsDigits(n / b, b);
      assert digits[i..] == [DigitChar(n % b)] + rest;
      s[i] := DigitChar(n % b);
      i := i + 1;
      n := n / b;
      if n == 0 {
        break;
      }
    }
  }

  /**
   * sio_ltoa: writes Text(v, b) into s followed by '\0', leaving the rest of
   * the buffer alone. Negating LONG_MIN overflows in the source, so that one
   * value is excluded; the buffer must hold the text and its terminator.
   */
  method Ltoa(v: int, s: array<char>, b: int)
    requires LONG_MIN < v <= LONG_MAX
    requires ValidBase(b)
    requires |Text(v, b)| < s.Length
    modifies s
    ensures s[..] == Text(v, b) + ['\0'] + old(s[..])[|Text(v, b)| + 1..]
  {
    var neg := v < 0;
    var n: nat := if neg then -v else v;
    var i := EmitDigits(n, s, b);
    ghost var digits := s[..i];
    if neg {
      s[i] := '-';
      i := i + 1;
    }
    s[i] := '\0';
    SignedReversal(v, b);
    ghost var e := Emitted(v, b);
    assert s[..i] == e by {
      if neg {
        assert s[..i] == digits + ['-'];
      }
    }
    assert s[i + 1..] == old(s[..])[i + 1..];
    ghost var terminated := s[..];
    Reverse(s);
    ReversedLayout(e, Text(v, b), old(s[..]), terminated, s[..]);
  }

  /** sio_putl: converts v in a 128-byte buffer; the text written out is its decimal rendering, which reads back as v. */
  method PutLong(v: int) returns (text: string)
    requires LONG_MIN < v <= LONG_MAX
    ensures text == Decimal(v)
    ensures ParseText(text, 10) == v
  {
    var s := new char[PUTL_BUFFER];
    DecimalFitsLong(v);
    Ltoa(v, s, 10);
    ghost var t := Text(v, 10);
    ghost var buf := s[..];
    TextHasNoNul(v, 10);
    assert buf == t + buf[|t|..];
    TerminatedLayout(t, buf[|t|..]);
    var n := StrLen(s);
    assert n == |t| by {
      assert buf[n] == '\0' && buf[|t|] == '\0';
    }
    text := s[..n];
    TextRoundTrip(v, 10);
  }
}
