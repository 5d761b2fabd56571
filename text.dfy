/** Decimal text and the few JavaScript string operations the core uses:
    `toString`, `padStart`, `substring`, `includes`, `trim`, `toUpperCase`
    and `parseInt`.  Decimal round-trip facts are proved here once and used by
    the date and duration decoders. */
module Text {
  import opened Wrappers

  function Pow10(k: nat): (r: nat)
    ensures r >= 1
  {
    if k == 0 then 1 else 10 * Pow10(k - 1)
  }

  predicate IsDigit(c: char) {
    '0' <= c <= '9'
  }

  predicate AllDigits(s: string) {
    forall i :: 0 <= i < |s| ==> IsDigit(s[i])
  }

  function DigitChar(d: nat): (c: char)
    requires d < 10
    ensures IsDigit(c)
  {
    (48 + d) as char
  }

  function DigitValue(c: char): (d: nat)
    requires IsDigit(c)
    ensures d < 10
  {
    (c as int) - 48
  }

  /** `n.toString()` for a non-negative integer: no leading zeros. */
  function NatToString(n: nat): (s: string)
    ensures 1 <= |s| && AllDigits(s)
    ensures |s| > 1 ==> s[0] != '0'
  {
    if n < 10 then [DigitChar(n)] else NatToString(n / 10) + [DigitChar(n % 10)]
  }

  /** `i.toString()` for any integer. */
  function IntToString(i: int): (s: string)
    ensures i >= 0 ==> s == NatToString(i)
    ensures i < 0 ==> s == "-" + NatToString(-i)
  {
    if i < 0 then "-" + NatToString(-i) else NatToString(i)
  }

  /** The value of a string of decimal digits, most significant first. */
  function DigitsValue(s: string): nat
    requires AllDigits(s)
  {
    if s == [] then 0 else DigitsValue(s[..|s| - 1]) * 10 + DigitValue(s[|s| - 1])
  }

  /** `s.padStart(width, fill)`. */
  function PadStart(s: string, width: nat, fill: char): (r: string)
    ensures |r| == if |s| >= width then |s| else width
    ensures r[|r| - |s|..] == s
    ensures forall i :: 0 <= i < |r| - |s| ==> r[i] == fill
  {
    if |s| >= width then s else Repeat(fill, width - |s|) + s
  }

  function Repeat(c: char, k: nat): (r: string)
    ensures |r| == k && forall i :: 0 <= i < k ==> r[i] == c
  {
    seq(k, _ => c)
  }

  /** `n.toString().padStart(2, '0')`. */
  function Pad2(n: nat): string {
    PadStart(NatToString(n), 2, '0')
  }

  function Clamp(i: int, len: nat): (r: nat)
    ensures r <= len
    ensures 0 <= i <= len ==> r == i
  {
    if i < 0 then 0 else if i > len then len else i
  }

  /** `s.substring(start, end)`: both indexes clamped to [0, |s|] and swapped
      when start > end. */
  function Substring(s: string, start: int, end: int): (r: string)
    ensures 0 <= start <= end <= |s| ==> r == s[start..end]
    ensures |r| <= |s|
  {
    var a := Clamp(start, |s|);
    var b := Clamp(end, |s|);
    if a <= b then s[a..b] else s[b..a]
  }

  /** `s.includes(part)`. */
  predicate Includes(s: string, part: string)
    decreases |s|
  {
    part <= s || (s != [] && Includes(s[1..], part))
  }

  /** The characters `String.prototype.trim` removes (ECMAScript WhiteSpace
      and LineTerminator). */
  predicate IsWhitespace(c: char) {
    var k := c as int;
    k == 0x20 || (0x09 <= k <= 0x0D) || k == 0xA0 || k == 0x1680
    || (0x2000 <= k <= 0x200A) || k == 0x2028 || k == 0x2029 || k == 0x202F
    || k == 0x205F || k == 0x3000 || k == 0xFEFF
  }

  function TrimStart(s: string): (r: string)
    ensures |r| <= |s|
  {
    if s != [] && IsWhitespace(s[0]) then TrimStart(s[1..]) else s
  }

  function TrimEnd(s: string): (r: string)
    ensures |r| <= |s|
  {
    if s != [] && IsWhitespace(s[|s| - 1]) then TrimEnd(s[..|s| - 1]) else s
  }

  /** `s.trim()`. */
  function Trim(s: string): (r: string)
    ensures |r| <= |s|
  {
    TrimEnd(TrimStart(s))
  }

  /** Non-empty, and neither starting nor ending with whitespace. */
  predicate Framed(s: string) {
    s != [] && !IsWhitespace(s[0]) && !IsWhitespace(s[|s| - 1])
  }

  /** A non-empty trim is framed. */
  lemma TrimIsFramed(s: string)
    requires Trim(s) != []
    ensures Framed(Trim(s))
  {
    TrimStartShape(s);
    TrimEndShape(TrimStart(s));
  }

  /** What `TrimStart` leaves is a suffix that does not start with
      whitespace. */
  lemma {:induction false} TrimStartShape(s: string)
    ensures TrimStart(s) == [] || !IsWhitespace(TrimStart(s)[0])
    ensures TrimStart(s) == s[|s| - |TrimStart(s)|..]
    decreases |s|
  {
    if s != [] && IsWhitespace(s[0]) {
      TrimStartShape(s[1..]);
    }
  }

  /** What `TrimEnd` leaves is a prefix that does not end with whitespace. */
  lemma {:induction false} TrimEndShape(s: string)
    ensures TrimEnd(s) == [] || !IsWhitespace(TrimEnd(s)[|TrimEnd(s)| - 1])
    ensures TrimEnd(s) == s[..|TrimEnd(s)|]
    decreases |s|
  {
    if s != [] && IsWhitespace(s[|s| - 1]) {
      TrimEndShape(s[..|s| - 1]);
    }
  }

  /** A string that neither starts nor ends with whitespace is its own
      trim. */
  lemma TrimFramed(s: string)
    requires Framed(s)
    ensures Trim(s) == s
  {
    assert TrimStart(s) == s;
  }

  /** `toUpperCase` on the ASCII letters; other characters are kept. */
  function UpperAscii(s: string): (r: string)
    ensures |r| == |s|
    ensures forall i :: 0 <= i < |s| ==> r[i] == if 'a' <= s[i] <= 'z' then (s[i] as int - 32) as char else s[i]
  {
    seq(|s|, i requires 0 <= i < |s| => if 'a' <= s[i] <= 'z' then (s[i] as int - 32) as char else s[i])
  }

  function CountChar(s: string, c: char): nat {
    if s == [] then 0 else (if s[0] == c then 1 else 0) + CountChar(s[1..], c)
  }

  /** `s.split(sep)` for a one-character separator: the pieces between
      separators, one more than there are separators. */
  function Split(s: string, sep: char): (r: seq<string>)
    ensures |r| == CountChar(s, sep) + 1
  {
    if s == [] then [""]
    else
      var rest := Split(s[1..], sep);
      if s[0] == sep then [""] + rest else [[s[0]] + rest[0]] + rest[1..]
  }

  /** The value of the digits at the head of `s`, read left to right into
      `acc`; scanning stops at the first character that is not a digit. */
  function LeadingValue(s: string, acc: nat): nat
    decreases |s|
  {
    if s != [] && IsDigit(s[0]) then LeadingValue(s[1..], acc * 10 + DigitValue(s[0])) else acc
  }

  /** `parseInt(s)` in base 10; `None` stands for NaN.  Leading whitespace
      is skipped, then one sign is accepted, then as many digits as follow;
      no digit at all is NaN. */
  function ParseInt(s: string): (r: Option<int>)
    ensures AllDigits(s) && s != [] ==> r == Some(DigitsValue(s))
    decreases |s|
  {
    if s != [] && IsWhitespace(s[0]) then ParseInt(s[1..])
    else
      var negative := s != [] && s[0] == '-';
      var u := if s != [] && (s[0] == '-' || s[0] == '+') then s[1..] else s;
      if u == [] || !IsDigit(u[0]) then None
      else
        LeadingValueOfDigits(s, 0);
        var v: int := LeadingValue(u, 0);
        Some(if negative then -v else v)
  }

  // ---------------------------------------------------------------------
  // Lemmas about decimal text
  // ---------------------------------------------------------------------

  lemma AllDigitsTrimStart(s: string)
    requires AllDigits(s)
    ensures TrimStart(s) == s
  {
  }

  /** Scanning a run of digits gives the accumulator shifted by the run's
      length plus the run's value. */
  lemma {:induction false} LeadingValueOfDigits(s: string, acc: nat)
    ensures AllDigits(s) ==> LeadingValue(s, acc) == acc * Pow10(|s|) + DigitsValue(s)
    decreases |s|
  {
    if AllDigits(s) && s != [] {
      var c := s[0];
      var rest := s[1..];
      assert s == [c] + rest;
      LeadingValueOfDigits(rest, acc * 10 + DigitValue(c));
      DigitsValueAppend([c], rest);
      assert DigitsValue([c]) == DigitValue(c) by {
        assert [c][..0] == [];
      }
      ShiftDigitRun(acc, DigitValue(c), Pow10(|rest|), DigitsValue(rest));
    }
  }

  /** `parseInt` reads the leading digits and ignores whatever follows
      them: `parseInt("12abc")` is 12. */
  lemma ParseIntStopsAtNonDigit(d: string, rest: string)
    requires d != [] && AllDigits(d) && (rest == [] || !IsDigit(rest[0]))
    ensures ParseInt(d + rest) == Some(DigitsValue(d))
  {
    var s := d + rest;
    assert s[0] == d[0];
    LeadingValueStops(d, rest, 0);
    LeadingValueOfDigits(d, 0);
  }

  /** The scan of a digit run ends where the run ends. */
  lemma {:induction false} LeadingValueStops(d: string, rest: string, acc: nat)
    requires AllDigits(d) && (rest == [] || !IsDigit(rest[0]))
    ensures LeadingValue(d + rest, acc) == LeadingValue(d, acc)
    decreases |d|
  {
    if d == [] {
      assert d + rest == rest;
    } else {
      assert (d + rest)[1..] == d[1..] + rest;
      LeadingValueStops(d[1..], rest, acc * 10 + DigitValue(d[0]));
    }
  }

  lemma ShiftDigitRun(acc: int, d: int, p: int, v: int)
    ensures (acc * 10 + d) * p + v == acc * (10 * p) + (d * p + v)
  {
  }

  lemma DigitsValueSnoc(s: string, c: char)
    requires AllDigits(s) && IsDigit(c)
    ensures AllDigits(s + [c])
    ensures DigitsValue(s + [c]) == DigitsValue(s) * 10 + DigitValue(c)
  {
    assert (s + [c])[..|s|] == s;
  }

  /** Reading the decimal text of `n` gives back `n`. */
  lemma {:induction false} NatToStringRoundTrip(n: nat)
    ensures DigitsValue(NatToString(n)) == n
  {
    if n >= 10 {
      NatToStringRoundTrip(n / 10);
      DigitsValueSnoc(NatToString(n / 10), DigitChar(n % 10));
    }
  }

  lemma {:induction false} DigitsValueAppend(s: string, t: string)
    requires AllDigits(s) && AllDigits(t)
    ensures AllDigits(s + t)
    ensures DigitsValue(s + t) == DigitsValue(s) * Pow10(|t|) + DigitsValue(t)
    decreases |t|
  {
    if t == [] {
      assert s + t == s;
    } else {
      var t' := t[..|t| - 1];
      var c := t[|t| - 1];
      assert t == t' + [c];
      assert s + t == (s + t') + [c];
      DigitsValueAppend(s, t');
      DigitsValueSnoc(s + t', c);
      DigitsValueSnoc(t', c);
      ShiftDigit(DigitsValue(s), Pow10(|t'|), DigitsValue(t'), DigitValue(c));
    }
  }

  lemma ShiftDigit(a: int, p: int, b: int, d: int)
    ensures (a * p + b) * 10 + d == a * (p * 10) + (b * 10 + d)
  {
  }

  lemma {:induction false} DigitsValueBound(s: string)
    requires AllDigits(s)
    ensures DigitsValue(s) < Pow10(|s|)
    decreases |s|
  {
    if s != [] {
      DigitsValueBound(s[..|s| - 1]);
    }
  }

  lemma {:induction false} ZerosValue(k: nat)
    ensures AllDigits(Repeat('0', k))
    ensures DigitsValue(Repeat('0', k)) == 0
  {
    if k > 0 {
      ZerosValue(k - 1);
      assert Repeat('0', k)[..k - 1] == Repeat('0', k - 1);
    }
  }

  /** Two digit strings of the same length and value are the same string. */
  lemma {:induction false} DigitsInjective(s: string, t: string)
    requires AllDigits(s) && AllDigits(t) && |s| == |t|
    requires DigitsValue(s) == DigitsValue(t)
    ensures s == t
    decreases |s|
  {
    if s != [] {
      var n := |s| - 1;
      assert DigitsValue(s) % 10 == DigitValue(s[n]);
      assert DigitsValue(t) % 10 == DigitValue(t[n]);
      assert DigitsValue(s) / 10 == DigitsValue(s[..n]);
      assert DigitsValue(t) / 10 == DigitsValue(t[..n]);
      DigitsInjective(s[..n], t[..n]);
      assert s == s[..n] + [s[n]];
      assert t == t[..n] + [t[n]];
    }
  }

  lemma {:induction false} Pow10Monotone(a: nat, b: nat)
    ensures a <= b ==> Pow10(a) <= Pow10(b)
    decreases b
  {
    if a < b {
      Pow10Monotone(a, b - 1);
    }
  }

  /** A decimal text longer than one digit starts at the highest power of ten below its value. */
  lemma {:induction false} NatToStringLowerBound(n: nat)
    ensures |NatToString(n)| > 1 ==> n >= Pow10(|NatToString(n)| - 1)
  {
    if n >= 10 {
      NatToStringLowerBound(n / 10);
      var k := |NatToString(n / 10)|;
      assert |NatToString(n)| == k + 1;
      assert Pow10(k) == 10 * Pow10(k - 1);
    }
  }

  lemma NatToStringFits(n: nat, w: nat)
    requires 1 <= w && n < Pow10(w)
    ensures |NatToString(n)| <= w
  {
    var k: nat := |NatToString(n)| - 1;
    NatToStringLowerBound(n);
    Pow10Monotone(w, k);
  }

  /** `n.toString().padStart(w, '0')` of a number below 10^w is a w-digit
      string whose value is n. */
  lemma FixedWidth(n: nat, w: nat)
    requires 1 <= w && n < Pow10(w)
    ensures |PadStart(NatToString(n), w, '0')| == w
    ensures AllDigits(PadStart(NatToString(n), w, '0'))
    ensures DigitsValue(PadStart(NatToString(n), w, '0')) == n
  {
    var s := NatToString(n);
    NatToStringFits(n, w);
    var z := Repeat('0', w - |s|);
    PadStartZeros(s, w);
    ZeroPaddedValue(z, s, w - |s|);
    NatToStringRoundTrip(n);
  }

  lemma ZeroPaddedValue(z: string, s: string, k: nat)
    requires z == Repeat('0', k) && AllDigits(s)
    ensures AllDigits(z + s) && DigitsValue(z + s) == DigitsValue(s)
  {
    ZerosValue(k);
    DigitsValueAppend(z, s);
  }

  lemma PadStartZeros(s: string, w: nat)
    requires |s| <= w
    ensures PadStart(s, w, '0') == Repeat('0', w - |s|) + s
  {
  }

  /** A two-digit field: `Pad2(n)` for n < 100 is two digits of value n. */
  lemma Pad2Digits(n: nat)
    requires n < 100
    ensures |Pad2(n)| == 2 && AllDigits(Pad2(n)) && DigitsValue(Pad2(n)) == n
  {
    FixedWidth(n, 2);
  }

  lemma DivModUnique(n: int, p: int, a: int, b: int)
    requires p > 0 && n == a * p + b && 0 <= b < p
    ensures a == n / p && b == n % p
  {
    var q, r := n / p, n % p;
    assert n == q * p + r && 0 <= r < p;
    var d := a - q;
    assert d * p == a * p - q * p;
    assert d * p == r - b;
    if d >= 1 {
      MulAtLeast(d, p);
    } else if d <= -1 {
      MulAtLeast(-d, p);
    }
  }

  lemma MulAtLeast(d: int, p: int)
    requires d >= 1 && p > 0
    ensures d * p >= p
  {
    assert d * p == (d - 1) * p + p;
    assert (d - 1) * p >= 0;
  }

  /** Cutting a digit string at k splits its value into quotient and
      remainder by 10^(|s|-k). */
  lemma DigitsSplit(s: string, k: nat)
    requires AllDigits(s) && k <= |s|
    ensures AllDigits(s[..k]) && AllDigits(s[k..])
    ensures DigitsValue(s[..k]) == DigitsValue(s) / Pow10(|s| - k)
    ensures DigitsValue(s[k..]) == DigitsValue(s) % Pow10(|s| - k)
  {
    assert s == s[..k] + s[k..];
    DigitsValueAppend(s[..k], s[k..]);
    DigitsValueBound(s[k..]);
    DivModUnique(DigitsValue(s), Pow10(|s| - k), DigitsValue(s[..k]), DigitsValue(s[k..]));
  }

  /** The value of the digits between positions i and j. */
  lemma DigitsSlice(s: string, i: nat, j: nat)
    requires AllDigits(s) && i <= j <= |s|
    ensures AllDigits(s[i..j])
    ensures DigitsValue(s[i..j]) == (DigitsValue(s) / Pow10(|s| - j)) % Pow10(j - i)
  {
    DigitsSplit(s, j);
    assert s[..j][i..] == s[i..j];
    DigitsSplit(s[..j], i);
  }

  /** A number with exactly w decimal digits prints as w characters. */
  lemma PrintedWidth(n: nat, w: nat)
    requires 1 <= w && Pow10(w - 1) <= n < Pow10(w)
    ensures |NatToString(n)| == w
  {
    NatToStringFits(n, w);
    NatToStringRoundTrip(n);
    DigitsValueBound(NatToString(n));
    Pow10Monotone(|NatToString(n)|, w - 1);
  }

  /** `parseInt` of the digits between positions i and j, where p and q
      are the powers of ten below and across the field. */
  lemma ParseField(s: string, i: nat, j: nat, p: nat, q: nat)
    requires AllDigits(s) && i < j <= |s|
    requires p == Pow10(|s| - j) && q == Pow10(j - i)
    ensures ParseInt(s[i..j]) == Some((DigitsValue(s) / p) % q)
  {
    DigitsSlice(s, i, j);
  }

  /** The leading field of a number below p * q is its quotient by p. */
  lemma LeadingField(n: nat, p: nat, q: nat)
    requires p > 0 && q > 0 && n < p * q
    ensures (n / p) % q == n / p
  {
    var a := n / p;
    assert a * p <= n;
    if a >= q {
      MulMono(q, a, p);
    }
    DivModUnique(a, q, 0, a);
  }

  lemma MulMono(x: int, y: int, p: int)
    requires x <= y && p >= 0
    ensures x * p <= y * p
  {
    assert y * p - x * p == (y - x) * p;
  }

  lemma {:induction false} CountCharAppend(s: string, t: string, c: char)
    ensures CountChar(s + t, c) == CountChar(s, c) + CountChar(t, c)
  {
    if s != [] {
      assert (s + t)[1..] == s[1..] + t;
      CountCharAppend(s[1..], t, c);
    } else {
      assert s + t == t;
    }
  }

  lemma {:induction false} CountAbsent(s: string, c: char)
    requires c !in s
    ensures CountChar(s, c) == 0
  {
    if s != [] {
      CountAbsent(s[1..], c);
    }
  }

  /** Splitting at the first separator: the part before it is the first
      piece, and the rest is split on its own. */
  lemma {:induction false} SplitAtFirst(a: string, sep: char, b: string)
    requires sep !in a
    ensures Split(a + [sep] + b, sep) == [a] + Split(b, sep)
  {
    if a == [] {
      assert a + [sep] + b == [sep] + b;
      assert ([sep] + b)[1..] == b;
    } else {
      assert (a + [sep] + b)[1..] == a[1..] + [sep] + b;
      SplitAtFirst(a[1..], sep, b);
      assert [a[0]] + a[1..] == a;
    }
  }

  /** A text without the separator splits into itself alone. */
  lemma {:induction false} SplitAbsent(s: string, sep: char)
    requires sep !in s
    ensures Split(s, sep) == [s]
  {
    if s != [] {
      SplitAbsent(s[1..], sep);
      assert [s[0]] + s[1..] == s;
    }
  }
}
