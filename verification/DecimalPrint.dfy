/** Printing numbers (pp_printf/vsprintf-full.c): put_dec, which divides by ten with multiplications and shifts,
    and number, which lays out sign, prefix, padding and digits. */
module DecimalPrint {

  // ----- numerals -----

  const DIGITS := "0123456789ABCDEF"

  /** digits[d] | locase, where locase is 0x20 for lower case: the bit is already set in '0' to '9'. */
  function DigitChar(d: nat, small: bool): char
    requires d < 16
  {
    if d < 10 || !small then DIGITS[d] else ((DIGITS[d] as int) + 0x20) as char
  }

  function DigitValue(c: char): (d: nat)
    ensures d <= 16
  {
    if '0' <= c <= '9' then (c as int) - ('0' as int)
    else if 'a' <= c <= 'f' then (c as int) - ('a' as int) + 10
    else if 'A' <= c <= 'F' then (c as int) - ('A' as int) + 10
    else 16
  }

  lemma DigitRoundTrip(d: nat, small: bool)
    requires d < 16
    ensures DigitValue(DigitChar(d, small)) == d
  {
  }

  /** The digits of n, least significant first. */
  function Numeral(n: nat, base: nat, small: bool): (s: string)
    requires 2 <= base <= 16
    ensures |s| > 0
    decreases n
  {
    [DigitChar(n % base, small)] + (if n < base then [] else Numeral(n / base, base, small))
  }

  /** The number written in s, least significant digit first. */
  function ReverseValue(s: string, base: nat): nat {
    if s == [] then 0 else DigitValue(s[0]) + base * ReverseValue(s[1..], base)
  }

  predicate AllDigits(s: string, base: nat) { forall k :: 0 <= k < |s| ==> DigitValue(s[k]) < base }

  /** No zero in front, except for the number 0 itself. */
  predicate Canonical(s: string) { |s| > 0 && (|s| > 1 ==> Leading(s) != 0) }

  function Leading(s: string): nat
    requires |s| > 0
  {
    DigitValue(s[|s| - 1])
  }

  lemma DivMod(n: nat, base: nat)
    requires 2 <= base <= n
    ensures n == base * (n / base) + n % base && 0 < n / base < n && n % base < base
  {
    assert n / base >= 1;
    assert base * (n / base) >= 2 * (n / base);
  }

  lemma BelowBase(n: nat, base: nat)
    requires n < base
    ensures n / base == 0 && n % base == n && base * 0 == 0
  {
  }

  lemma LastDigit(n: nat, base: nat, small: bool)
    requires 2 <= base <= 16
    ensures var s := Numeral(n, base, small);
            && s[0] == DigitChar(n % base, small) && DigitValue(s[0]) == n % base
            && s[1..] == if n < base then [] else Numeral(n / base, base, small)
  {
    DigitRoundTrip(n % base, small);
  }

  /** Numeral writes n: its digits mean n again. */
  lemma {:induction false} NumeralValue(n: nat, base: nat, small: bool)
    requires 2 <= base <= 16
    ensures ReverseValue(Numeral(n, base, small), base) == n
    decreases n
  {
    var s := Numeral(n, base, small);
    LastDigit(n, base, small);
    assert ReverseValue(s, base) == DigitValue(s[0]) + base * ReverseValue(s[1..], base);
    hide Numeral, DigitChar, DigitValue;
    if n < base {
      BelowBase(n, base);
    } else {
      hide ReverseValue;
      DivMod(n, base);
      NumeralValue(n / base, base, small);
    }
  }

  /** Numeral has no leading zero. */
  lemma {:induction false} NumeralCanonical(n: nat, base: nat, small: bool)
    requires 2 <= base <= 16
    ensures AllDigits(Numeral(n, base, small), base) && Canonical(Numeral(n, base, small))
    ensures n > 0 ==> Leading(Numeral(n, base, small)) != 0
    decreases n
  {
    LastDigit(n, base, small);
    var s := Numeral(n, base, small);
    hide Numeral, DigitChar, DigitValue;
    if n >= base {
      DivMod(n, base);
      NumeralCanonical(n / base, base, small);
      assert Leading(s) == Leading(s[1..]);
    }
  }

  // ----- dividing by ten -----

  /** (x * 0xcd) >> 11 */
  function TimesCd(x: nat): nat { x * 0xcd / 2048 }

  /** (x * 0xd) >> 7 */
  function TimesD(x: nat): nat { x * 0xd / 128 }

  /** TimesCd divides by ten up to 1028, and not at 1029; put_dec never asks for more than 339. */
  lemma ByCd(x: nat)
    requires x <= 1029
    ensures TimesCd(x) == x / 10 <==> x <= 1028
  {
    var k, r := x / 10, x % 10;
    assert x * 0xcd == 2048 * k + (2 * k + 205 * r);
  }

  /** TimesD divides by ten up to 68, and not at 69; put_dec never asks for more than 63. */
  lemma ByD(x: nat)
    requires x <= 69
    ensures TimesD(x) == x / 10 <==> x <= 68
  {
    var k, r := x / 10, x % 10;
    assert x * 0xd == 128 * k + (2 * k + 13 * r);
  }

  /** (q >> 4 * k) & 0xf */
  function Nibble(q: nat, k: nat): nat
    requires k <= 2
  {
    (if k == 0 then q else if k == 1 then q / 16 else q / 256) % 16
  }

  /** q >> 12 */
  function Top(q: nat): nat { q / 4096 }

  lemma Nibbles(q: nat)
    ensures q == 4096 * Top(q) + 256 * Nibble(q, 2) + 16 * Nibble(q, 1) + Nibble(q, 0)
    ensures Nibble(q, 0) < 16 && Nibble(q, 1) < 16 && Nibble(q, 2) < 16
    ensures q < 100000 ==> Top(q) <= 24
  {
    assert q / 256 == q / 16 / 16 && q / 4096 == q / 256 / 16;
  }

  /** One digit of n: it is the last digit of the sum, and the rest of n is the carry plus what the sum left out. */
  predicate Divides(n: nat, sum: nat, carry: nat, rest: nat) {
    sum >= 10 * carry && sum - 10 * carry == n % 10 && rest == n / 10
  }

  lemma OneDigit(n: nat, sum: nat, above: nat)
    requires n == sum + 10 * above && sum <= 1018
    ensures Divides(n, sum, TimesCd(sum), TimesCd(sum) + above)
    ensures 10 * TimesCd(sum) <= sum < 10 * TimesCd(sum) + 10
    ensures sum <= 68 ==> TimesD(sum) == TimesCd(sum)
  {
    ByCd(sum);
    if sum <= 68 { ByD(sum); }
  }

  lemma OneLeft(n: nat)
    requires n < 100
    ensures TimesCd(n) < 10 && Divides(TimesCd(n), TimesCd(n), 0, 0)
  {
    ByCd(n);
  }

  /** The first two divisions of put_dec_trunc and put_dec_full take off one decimal digit each. */
  lemma LowDigits(num: nat, low: nat, d1: nat, d2: nat, d3: nat) returns (q0: nat, n1: nat, q1: nat, n2: nat)
    requires num == 4096 * d3 + 256 * d2 + 16 * d1 + low
    requires low < 16 && d1 < 16 && d2 < 16 && d3 <= 24
    ensures q0 == TimesCd(6 * (d3 + d2 + d1) + low) && n1 == q0 + 9 * d3 + 5 * d2 + d1 + 20 * d2 + 400 * d3
    ensures Divides(num, 6 * (d3 + d2 + d1) + low, q0, n1)
    ensures q1 == TimesCd(q0 + 9 * d3 + 5 * d2 + d1) <= 33 && n2 == q1 + 2 * d2 + 40 * d3
    ensures Divides(n1, q0 + 9 * d3 + 5 * d2 + d1, q1, n2)
    ensures num < 100000 ==> n2 < 1000
  {
    hide TimesCd, TimesD, Divides;
    var s0 := 6 * (d3 + d2 + d1) + low;
    OneDigit(num, s0, 9 * d3 + 25 * d2 + d1 + 400 * d3);
    q0, n1 := TimesCd(s0), TimesCd(s0) + 9 * d3 + 25 * d2 + d1 + 400 * d3;
    var s1 := q0 + 9 * d3 + 5 * d2 + d1;
    OneDigit(n1, s1, 2 * d2 + 40 * d3);
    q1, n2 := TimesCd(s1), TimesCd(s1) + 2 * d2 + 40 * d3;
  }

  // ----- put_dec -----

  /** Decimal digits, least significant first. */
  function Decimal(n: nat): (s: string)
    ensures |s| > 0
    decreases n
  {
    [DIGITS[n % 10]] + (if n / 10 == 0 then [] else Decimal(n / 10))
  }

  lemma {:induction false} DecimalIsNumeral(n: nat, small: bool)
    ensures Decimal(n) == Numeral(n, 10, small)
    decreases n
  {
    if n >= 10 { DecimalIsNumeral(n / 10, small); }
  }

  /** The text PutDec writes means the number and has no leading zero. */
  lemma DecimalExact(n: nat)
    ensures ReverseValue(Decimal(n), 10) == n && AllDigits(Decimal(n), 10) && Canonical(Decimal(n))
  {
    DecimalIsNumeral(n, false);
    NumeralValue(n, 10, false);
    NumeralCanonical(n, 10, false);
  }

  /** Writing the last digit of what remains to be written. */
  lemma EmitDigit(done: string, n: nat, sum: nat, carry: nat, rest: nat, target: string)
    requires done + Decimal(n) == target && Divides(n, sum, carry, rest)
    ensures |done| < |target| && 0 <= sum - 10 * carry < 10
    ensures rest == 0 ==> done + [DIGITS[sum - 10 * carry]] == target
    ensures rest != 0 ==> (done + [DIGITS[sum - 10 * carry]]) + Decimal(rest) == target
  {
  }

  /** Nothing from p on has changed. */
  ghost predicate Kept(before: string, after: string, p: nat) {
    |before| == |after| && forall k :: p <= k < |after| ==> after[k] == before[k]
  }

  lemma KeptTwice(s: string, t: string, u: string, p: nat, q: nat)
    requires Kept(s, t, p) && Kept(t, u, q) && p <= q
    ensures Kept(s, u, q)
  {
  }

  /** Writes one character and moves on. */
  method Put(buf: array<char>, at: nat, c: char) returns (p: nat)
    requires at < buf.Length
    modifies buf
    ensures p == at + 1
    ensures buf[..p] == old(buf[..at]) + [c] && Kept(old(buf[..]), buf[..], p)
  {
    buf[at] := c;
    p := at + 1;
  }

  /** Writes the digit that a division by ten leaves over, when the rest of target is still to be written. */
  method PutDigit(buf: array<char>, at: nat, sum: nat, carry: nat, ghost n: nat, ghost rest: nat, ghost target: string)
      returns (p: nat)
    requires at <= buf.Length && buf[..at] + Decimal(n) == target && |target| <= buf.Length
    requires Divides(n, sum, carry, rest)
    modifies buf
    ensures p == at + 1 <= |target| && Kept(old(buf[..]), buf[..], p)
    ensures rest == 0 ==> buf[..p] == target
    ensures rest != 0 ==> buf[..p] + Decimal(rest) == target
  {
    EmitDigit(buf[..at], n, sum, carry, rest, target);
    p := Put(buf, at, DIGITS[sum - 10 * carry]);
  }

  /** The part of put_dec_trunc from the thousands on. */
  method PutThousands(buf: array<char>, at: nat, th: nat, ghost target: string) returns (p: nat)
    requires 0 < th < 100
    requires at <= buf.Length && buf[..at] + Decimal(th) == target && |target| <= buf.Length
    modifies buf
    ensures at <= p <= buf.Length && buf[..p] == target && Kept(old(buf[..]), buf[..], p)
  {
    hide Divides, Decimal, TimesCd, Kept;
    OneDigit(th, th, 0);
    OneLeft(th);
    var q := TimesCd(th);
    p := PutDigit(buf, at, th, q, th, q, target);
    if q != 0 {
      ghost var before, p1 := buf[..], p;
      p := PutDigit(buf, p, q, 0, q, 0, target);
      KeptTwice(old(buf[..]), before, buf[..], p1, p);
    }
  }

  /** The part of put_dec_trunc from the hundreds on, entered with the carry of the tens. */
  method PutHundreds(buf: array<char>, at: nat, carry: nat, h: nat, th: nat, ghost target: string) returns (p: nat)
    requires carry <= 33 && h < 16 && th <= 24 && 0 < carry + 2 * h + 40 * th < 1000
    requires at <= buf.Length && buf[..at] + Decimal(carry + 2 * h + 40 * th) == target && |target| <= buf.Length
    modifies buf
    ensures at <= p <= buf.Length && buf[..p] == target && Kept(old(buf[..]), buf[..], p)
  {
    ghost var n2 := carry + 2 * h + 40 * th;
    var d2 := carry + 2 * h;
    hide Divides, Decimal, TimesCd, TimesD, Kept;
    OneDigit(n2, d2, 4 * th);
    var q := TimesD(d2);
    var d3 := q + 4 * th;
    p := PutDigit(buf, at, d2, q, n2, d3, target);
    if d3 != 0 {
      ghost var before, p1 := buf[..], p;
      p := PutThousands(buf, p, d3, target);
      KeptTwice(old(buf[..]), before, buf[..], p1, p);
    }
  }

  /** Emits one to five digits. */
  method PutDecTrunc(buf: array<char>, at: nat, num: nat) returns (p: nat)
    requires num < 100000 && at + |Decimal(num)| <= buf.Length
    modifies buf
    ensures at <= p <= buf.Length
    ensures buf[..p] == old(buf[..at]) + Decimal(num) && Kept(old(buf[..]), buf[..], p)
  {
    hide Divides, Decimal, TimesCd, TimesD, Nibble, Top, Kept;
    ghost var target := buf[..at] + Decimal(num);
    Nibbles(num);
    var d1, d2, d3 := Nibble(num, 1), Nibble(num, 2), Top(num);
    ghost var q0, n1, q1, n2 := LowDigits(num, Nibble(num, 0), d1, d2, d3);

    var d0 := 6 * (d3 + d2 + d1) + Nibble(num, 0);
    var q := TimesCd(d0);
    p := PutDigit(buf, at, d0, q, num, n1, target);
    d1 := q + 9 * d3 + 5 * d2 + d1;
    if d1 != 0 {
      q := TimesCd(d1);
      ghost var before, p1 := buf[..], p;
      p := PutDigit(buf, p, d1, q, n1, n2, target);
      KeptTwice(old(buf[..]), before, buf[..], p1, p);
      if q + 2 * d2 != 0 || d3 != 0 {
        before, p1 := buf[..], p;
        p := PutHundreds(buf, p, q, d2, d3, target);
        KeptTwice(old(buf[..]), before, buf[..], p1, p);
      }
    }
  }

  lemma NoDigits()
    ensures Padded(0, 0) == "" && forall done: string :: done + "" == done
  {
  }

  /** Exactly k decimal digits of n, least significant first. */
  function Padded(n: nat, k: nat): (s: string)
    ensures |s| == k
  {
    if k == 0 then [] else [DIGITS[n % 10]] + Padded(n / 10, k - 1)
  }

  /** As PutDigit, when k digits remain to be written whatever they are. */
  method PutAnyDigit(buf: array<char>, at: nat, sum: nat, carry: nat, ghost n: nat, ghost rest: nat, ghost k: nat,
                     ghost target: string) returns (p: nat)
    requires k > 0 && at <= buf.Length && buf[..at] + Padded(n, k) == target && |target| <= buf.Length
    requires Divides(n, sum, carry, rest)
    modifies buf
    ensures p == at + 1 <= |target| && Kept(old(buf[..]), buf[..], p)
    ensures buf[..p] + Padded(rest, k - 1) == target
  {
    p := Put(buf, at, DIGITS[sum - 10 * carry]);
  }

  /** The last three digits of put_dec_full. */
  method PutLastThree(buf: array<char>, at: nat, carry: nat, h: nat, th: nat, ghost target: string) returns (p: nat)
    requires carry <= 33 && h < 16 && th <= 24 && carry + 2 * h + 40 * th < 1000
    requires at <= buf.Length && buf[..at] + Padded(carry + 2 * h + 40 * th, 3) == target && |target| <= buf.Length
    modifies buf
    ensures p == at + 3 <= buf.Length && buf[..p] == target && Kept(old(buf[..]), buf[..], p)
  {
    ghost var n2 := carry + 2 * h + 40 * th;
    var d2 := carry + 2 * h;
    hide Divides, TimesCd, TimesD, Kept, Padded;
    OneDigit(n2, d2, 4 * th);
    var q := TimesD(d2);
    var d3 := q + 4 * th;
    OneDigit(d3, d3, 0);
    OneLeft(d3);
    NoDigits();
    p := PutAnyDigit(buf, at, d2, q, n2, d3, 3, target);
    q := TimesCd(d3);
    ghost var before, p1 := buf[..], p;
    p := PutAnyDigit(buf, p, d3, q, d3, q, 2, target);
    KeptTwice(old(buf[..]), before, buf[..], p1, p);
    before, p1 := buf[..], p;
    p := PutAnyDigit(buf, p, q, 0, q, 0, 1, target);
    KeptTwice(old(buf[..]), before, buf[..], p1, p);
  }

  /** Always emits five digits. */
  method PutDecFull(buf: array<char>, at: nat, num: nat) returns (p: nat)
    requires num < 100000 && at + 5 <= buf.Length
    modifies buf
    ensures p == at + 5
    ensures buf[..p] == old(buf[..at]) + Padded(num, 5) && Kept(old(buf[..]), buf[..], p)
  {
    hide Divides, Padded, TimesCd, TimesD, Nibble, Top, Kept;
    ghost var target := buf[..at] + Padded(num, 5);
    Nibbles(num);
    var d1, d2, d3 := Nibble(num, 1), Nibble(num, 2), Top(num);
    ghost var q0, n1, q1, n2 := LowDigits(num, Nibble(num, 0), d1, d2, d3);

    var d0 := 6 * (d3 + d2 + d1) + Nibble(num, 0);
    var q := TimesCd(d0);
    p := PutAnyDigit(buf, at, d0, q, num, n1, 5, target);
    d1 := q + 9 * d3 + 5 * d2 + d1;
    q := TimesCd(d1);
    ghost var before, p1 := buf[..], p;
    p := PutAnyDigit(buf, p, d1, q, n1, n2, 4, target);
    KeptTwice(old(buf[..]), before, buf[..], p1, p);
    before, p1 := buf[..], p;
    p := PutLastThree(buf, p, q, d2, d3, target);
    KeptTwice(old(buf[..]), before, buf[..], p1, p);
  }

  function Pow10(k: nat): (m: nat) { if k == 0 then 1 else 10 * Pow10(k - 1) }

  /** Only r decides the last k digits of r + 10^k * q. */
  lemma {:induction false} LastDigits(r: nat, q: nat, k: nat)
    ensures Padded(r + Pow10(k) * q, k) == Padded(r, k)
  {
    if k > 0 {
      var x := Pow10(k - 1) * q;
      PowTimes(k, q);
      LowDigit(r, x);
      hide Pow10;
      LastDigits(r / 10, q, k - 1);
    }
  }

  lemma PowTimes(k: nat, q: nat)
    requires k > 0
    ensures Pow10(k) * q == 10 * (Pow10(k - 1) * q)
  {
    var p := Pow10(k - 1);
    assert Pow10(k) == 10 * p;
    hide Pow10;
    assert (10 * p) * q == 10 * (p * q);
  }

  lemma LowDigit(r: nat, x: nat)
    ensures (r + 10 * x) % 10 == r % 10 && (r + 10 * x) / 10 == r / 10 + x
  {
  }

  function Without(n: nat, k: nat): nat { if k == 0 then n else Without(n / 10, k - 1) }

  lemma {:induction false} DecimalSplit(n: nat, k: nat)
    requires Without(n, k) != 0
    ensures Decimal(n) == Padded(n, k) + Decimal(Without(n, k))
  {
    if k > 0 {
      DecimalSplit(n / 10, k - 1);
      WithoutZero(k - 1);
      assert n / 10 != 0;
    }
  }

  lemma {:induction false} WithoutZero(k: nat)
    ensures Without(0, k) == 0
  {
    if k > 0 { WithoutZero(k - 1); }
  }

  lemma WithoutFive(n: nat)
    ensures Without(n, 5) == n / 100000
  {
    assert Without(n, 5) == Without(n / 10, 4) == Without(n / 10 / 10, 3) == Without(n / 10 / 10 / 10, 2)
        == Without(n / 10 / 10 / 10 / 10, 1) == n / 10 / 10 / 10 / 10 / 10;
  }

  lemma PowFive()
    ensures Pow10(5) == 100000
  {
    assert Pow10(5) == 10 * Pow10(4) == 100 * Pow10(3) == 1000 * Pow10(2);
  }

  lemma LowFive(n: nat)
    ensures Padded(n, 5) == Padded(n % 100000, 5)
  {
    PowFive();
    LastDigits(n % 100000, n / 100000, 5);
    hide Padded, Pow10;
    assert n % 100000 + 100000 * (n / 100000) == n;
  }

  /** The digits of a large number: the last five, then those of what is left after dividing by 100000. */
  lemma FiveDigits(n: nat)
    requires n >= 100000
    ensures Decimal(n) == Padded(n % 100000, 5) + Decimal(n / 100000)
  {
    WithoutFive(n);
    LowFive(n);
    hide Decimal, Padded, Without;
    assert n / 100000 != 0;
    DecimalSplit(n, 5);
  }

  lemma Regroup(done: string, n: nat, target: string)
    requires n >= 100000 && done + Decimal(n) == target
    ensures |done| + 5 < |target|
    ensures (done + Padded(n % 100000, 5)) + Decimal(n / 100000) == target
  {
    FiveDigits(n);
    hide Decimal, Padded;
  }

  method PutDec(buf: array<char>, at: nat, num: nat) returns (p: nat)
    requires at + |Decimal(num)| <= buf.Length
    modifies buf
    ensures at <= p <= buf.Length
    ensures buf[..p] == old(buf[..at]) + Decimal(num) && Kept(old(buf[..]), buf[..], p)
  {
    var n := num;
    ghost var target := buf[..at] + Decimal(num);
    p := at;
    assert Kept(buf[..], buf[..], p);
    hide Decimal, Padded, Kept;
    while n >= 100000
      invariant at <= p <= buf.Length && |target| <= buf.Length
      invariant buf[..p] + Decimal(n) == target && Kept(old(buf[..]), buf[..], p)
    {
      Regroup(buf[..p], n, target);
      ghost var before, p1 := buf[..], p;
      var rem := n % 100000;
      n := n / 100000;
      p := PutDecFull(buf, p, rem);
      KeptTwice(old(buf[..]), before, buf[..], p1, p);
    }
    ghost var before, p1 := buf[..], p;
    p := PutDecTrunc(buf, p, n);
    KeptTwice(old(buf[..]), before, buf[..], p1, p);
  }
}
