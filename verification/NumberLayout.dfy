/** The conversion of a number to text (number in pp_printf/vsprintf-full.c): what the text is, how long it is, and
    that reading it gives the number back. */
module NumberLayout {
  import opened Wrappers
  import opened DecimalPrint

  /** The size of an unsigned long on the LM32. */
  const ULONG: nat := 0x1_0000_0000

  datatype Flags = Flags(zeropad: bool, sign: bool, plus: bool, space: bool, left: bool, small: bool, special: bool)

  function Repeat(c: char, n: int): (s: string)
    ensures |s| == Max(n, 0) && forall k :: 0 <= k < |s| ==> s[k] == c
    decreases n
  {
    if n <= 0 then [] else Repeat(c, n - 1) + [c]
  }

  function Max(a: int, b: int): int { if a < b then b else a }

  function Reverse(s: string): (r: string)
    ensures |r| == |s|
  {
    if s == [] then [] else Reverse(s[1..]) + [s[0]]
  }

  /** What num stands for: a signed long when SIGN is set. */
  function Meaning(num: nat, f: Flags): int {
    if f.sign && num >= ULONG / 2 then num - ULONG else num
  }

  function Magnitude(num: nat, f: Flags): nat { if Meaning(num, f) < 0 then -Meaning(num, f) else Meaning(num, f) }

  function SignText(num: nat, f: Flags): (s: string)
    ensures |s| <= 1
  {
    if !f.sign then "" else if Meaning(num, f) < 0 then "-" else if f.plus then "+" else if f.space then " " else ""
  }

  function Prefix(base: nat, f: Flags): (s: string)
    ensures |s| <= 2
  {
    if !f.special || base == 10 then "" else if base == 16 then (if f.small then "0x" else "0X") else "0"
  }

  function Digits(num: nat, base: nat, f: Flags): (s: string)
    requires 2 <= base <= 16
    ensures |s| > 0
  {
    Reverse(Numeral(Magnitude(num, f), base, f.small))
  }

  /** A field: blanks in front or behind or zeros after the sign, as many as pad says, and zeros in front of the
      digits. */
  function Field(sign: string, prefix: string, zeros: int, digits: string, pad: int, zeropad: bool,
                 left: bool): string
  {
    Repeat(' ', if left || zeropad then 0 else pad) + sign + prefix + Repeat('0', if zeropad && !left then pad else 0)
    + Repeat('0', zeros) + digits + Repeat(' ', if left then pad else 0)
  }

  /** The text of a number in a field of the given size. */
  function Layout(num: nat, base: nat, size: int, precision: int, f: Flags): string
    requires 2 <= base <= 16
  {
    var sign, prefix, digits := SignText(num, f), Prefix(base, f), Digits(num, base, f);
    var shown := Max(precision, |digits|);
    Field(sign, prefix, shown - |digits|, digits, size - |sign| - |prefix| - shown, f.zeropad, f.left)
  }

  /** The field is as wide as asked for, or as the text needs. */
  lemma LayoutLength(num: nat, base: nat, size: int, precision: int, f: Flags)
    requires 2 <= base <= 16
    ensures |Layout(num, base, size, precision, f)|
         == Max(size, |SignText(num, f)| + |Prefix(base, f)| + Max(precision, |Digits(num, base, f)|))
  {
    hide SignText, Prefix, Digits, Repeat;
  }

  // ----- where everything stands -----

  /** What is shown of a number without padding. */
  function Core(num: nat, base: nat, precision: int, f: Flags): string
    requires 2 <= base <= 16
  {
    SignText(num, f) + Prefix(base, f) + Repeat('0', precision - |Digits(num, base, f)|) + Digits(num, base, f)
  }

  predicate AllOf(s: string, from: nat, to: nat, c: char)
    requires to <= |s|
  {
    forall k :: from <= k < to ==> s[k] == c
  }

  /** LEFT puts all of it at the left end with blanks behind; otherwise it stands at the right end with blanks in front,
      or, with ZEROPAD, sign and prefix stand at the left end, the digits at the right end, and zeros in between. */
  lemma LayoutEnds(num: nat, base: nat, size: int, precision: int, f: Flags)
    requires 2 <= base <= 16
    ensures var text, core := Layout(num, base, size, precision, f), Core(num, base, precision, f);
            var front, digits := SignText(num, f) + Prefix(base, f), Digits(num, base, f);
            var n := |text|;
            && |front| + |digits| <= |core| <= n
            && (f.left ==> text[..|core|] == core && AllOf(text, |core|, n, ' '))
            && (!f.left && !f.zeropad ==> text[n - |core|..] == core && AllOf(text, 0, n - |core|, ' '))
            && (!f.left && f.zeropad ==>
                  text[..|front|] == front && text[n - |digits|..] == digits && AllOf(text, |front|, n - |digits|, '0'))
  {
    hide SignText, Prefix, Digits, Repeat, Layout, Core, Field;
    var sign, prefix, digits := SignText(num, f), Prefix(base, f), Digits(num, base, f);
    var zeros := Repeat('0', precision - |digits|);
    var pad := size - |sign| - |prefix| - Max(precision, |digits|);
    LayoutParts(num, base, size, precision, f);
    var core := sign + prefix + zeros + digits;
    if f.left {
      assert Layout(num, base, size, precision, f) == core + Repeat(' ', pad);
    } else if f.zeropad {
      ZerosBetween(sign + prefix, Repeat('0', pad), zeros, digits);
    } else {
      assert Layout(num, base, size, precision, f) == Repeat(' ', pad) + core;
    }
  }

  lemma LayoutParts(num: nat, base: nat, size: int, precision: int, f: Flags)
    requires 2 <= base <= 16
    ensures var sign, prefix, digits := SignText(num, f), Prefix(base, f), Digits(num, base, f);
            var zeros, pad := Repeat('0', precision - |digits|), size - |sign| - |prefix| - Max(precision, |digits|);
            && Core(num, base, precision, f) == sign + prefix + zeros + digits
            && Layout(num, base, size, precision, f)
            == if f.left then sign + prefix + zeros + digits + Repeat(' ', pad)
               else if f.zeropad then sign + prefix + Repeat('0', pad) + zeros + digits
               else Repeat(' ', pad) + (sign + prefix + zeros + digits)
  {
    hide SignText, Prefix, Digits, Repeat;
    var sign, prefix, digits := SignText(num, f), Prefix(base, f), Digits(num, base, f);
    var more := Max(precision, |digits|) - |digits|;
    assert Repeat(' ', 0) == "" && Repeat('0', 0) == "";
    SameRepeat('0', more, precision - |digits|);
    FieldParts(sign, prefix, more, digits, size - |sign| - |prefix| - Max(precision, |digits|), f.zeropad, f.left);
  }

  lemma SameRepeat(c: char, a: int, b: int)
    requires Max(a, 0) == Max(b, 0)
    ensures Repeat(c, a) == Repeat(c, b)
  {
  }

  lemma FieldParts(sign: string, prefix: string, zeros: int, digits: string, pad: int, zeropad: bool, left: bool)
    ensures Field(sign, prefix, zeros, digits, pad, zeropad, left)
         == if left then sign + prefix + Repeat('0', zeros) + digits + Repeat(' ', pad)
            else if zeropad then sign + prefix + Repeat('0', pad) + Repeat('0', zeros) + digits
            else Repeat(' ', pad) + (sign + prefix + Repeat('0', zeros) + digits)
  {
    assert Repeat(' ', 0) == "" && Repeat('0', 0) == "";
    hide Repeat;
    NoneThere(if left then "" else if zeropad then "" else Repeat(' ', pad), sign, prefix,
              if zeropad && !left then Repeat('0', pad) else "", Repeat('0', zeros), digits);
  }

  lemma NoneThere(a: string, b: string, c: string, d: string, e: string, g: string)
    ensures a == "" && d == "" ==> a + b + c + d + e + g == b + c + e + g
    ensures a == "" ==> a + b + c + d + e + g == b + c + d + e + g
    ensures d == "" ==> a + b + c + d + e + g == a + (b + c + e + g)
    ensures a + b + c + d + e + g + "" == a + b + c + d + e + g
  {
  }

  lemma ZerosBetween(front: string, pad: string, zeros: string, digits: string)
    requires AllOf(pad, 0, |pad|, '0') && AllOf(zeros, 0, |zeros|, '0')
    ensures var text := front + pad + zeros + digits;
            && text[..|front|] == front && text[|text| - |digits|..] == digits
            && AllOf(text, |front|, |text| - |digits|, '0')
  {
  }

  /** Letters are small exactly with SMALL. */
  predicate IsDigit(c: char, small: bool) {
    '0' <= c <= '9' || (if small then 'a' <= c <= 'f' else 'A' <= c <= 'F')
  }

  lemma {:induction false} NumeralCase(n: nat, base: nat, small: bool)
    requires 2 <= base <= 16
    ensures forall k :: 0 <= k < |Numeral(n, base, small)| ==> IsDigit(Numeral(n, base, small)[k], small)
    decreases n
  {
    var s := Numeral(n, base, small);
    LastDigit(n, base, small);
    DigitCase(n % base, small);
    hide Numeral, DigitChar, DigitValue, IsDigit;
    assert s == [s[0]] + s[1..];
    if n >= base {
      DivMod(n, base);
      NumeralCase(n / base, base, small);
    }
  }

  lemma DigitCase(d: nat, small: bool)
    requires d < 16
    ensures IsDigit(DigitChar(d, small), small)
  {
  }

  lemma {:induction false} ReverseCase(s: string, small: bool)
    requires forall k :: 0 <= k < |s| ==> IsDigit(s[k], small)
    ensures forall k :: 0 <= k < |s| ==> IsDigit(Reverse(s)[k], small)
  {
    if s != [] {
      assert forall k :: 0 <= k < |s[1..]| ==> s[1..][k] == s[k + 1];
      ReverseCase(s[1..], small);
    }
  }

  /** Digits and the X of the prefix are written in the case asked for. */
  lemma LettersCase(num: nat, base: nat, f: Flags)
    requires 2 <= base <= 16
    ensures forall k :: 0 <= k < |Digits(num, base, f)| ==> IsDigit(Digits(num, base, f)[k], f.small)
    ensures f.special && base == 16 ==> Prefix(base, f) == ['0', if f.small then 'x' else 'X']
    ensures f.special && base == 8 ==> Prefix(base, f) == ['0']
    ensures !f.special || base == 10 ==> Prefix(base, f) == []
  {
    NumeralCase(Magnitude(num, f), base, f.small);
    ReverseCase(Numeral(Magnitude(num, f), base, f.small), f.small);
  }

  // ----- reading a number back -----

  function SkipBlanks(s: string): string { if s != [] && s[0] == ' ' then SkipBlanks(s[1..]) else s }

  /** Reads digits as long as there are any: the value, and the rest of the text. */
  function ReadDigits(s: string, base: nat, acc: nat): (nat, string) {
    if s != [] && DigitValue(s[0]) < base then ReadDigits(s[1..], base, acc * base + DigitValue(s[0])) else (acc, s)
  }

  function SkipSign(s: string): string { if s != [] && (s[0] == '-' || s[0] == '+') then s[1..] else s }

  function SkipPrefix(s: string, base: nat): string {
    if base == 16 && |s| >= 2 && s[0] == '0' && (s[1] == 'x' || s[1] == 'X') then s[2..] else s
  }

  /** A field as a reader takes it: blanks, a sign, 0x in front of hexadecimal digits, digits, blanks. */
  function Parse(s: string, base: nat): Option<int> {
    var t := SkipBlanks(s);
    var u := SkipPrefix(SkipSign(t), base);
    var (value, rest) := ReadDigits(u, base, 0);
    if u == [] || DigitValue(u[0]) >= base || SkipBlanks(rest) != [] then None
    else Some(if t != [] && t[0] == '-' then 0 - value else value)
  }

  lemma {:induction false} SkipRepeat(k: int, t: string)
    ensures SkipBlanks(Repeat(' ', k) + t) == SkipBlanks(t)
    decreases k
  {
    if k <= 0 {
      assert Repeat(' ', k) + t == t;
    } else {
      assert Repeat(' ', k) + t == Repeat(' ', k - 1) + ([' '] + t);
      SkipRepeat(k - 1, [' '] + t);
    }
  }

  lemma {:induction false} ReadZeros(k: int, t: string, base: nat)
    requires base > 0
    ensures ReadDigits(Repeat('0', k) + t, base, 0) == ReadDigits(t, base, 0)
    decreases k
  {
    if k <= 0 {
      assert Repeat('0', k) + t == t;
    } else {
      assert Repeat('0', k) + t == Repeat('0', k - 1) + (['0'] + t);
      ReadZeros(k - 1, ['0'] + t, base);
      assert (['0'] + t)[1..] == t;
    }
  }

  lemma ReadOne(c: char, t: string, base: nat, acc: nat)
    requires DigitValue(c) < base
    ensures ReadDigits([c] + t, base, acc) == ReadDigits(t, base, acc * base + DigitValue(c))
  {
    assert ([c] + t)[1..] == t;
  }

  lemma ReverseFront(s: string, t: string)
    requires s != []
    ensures Reverse(s) + t == Reverse(s[1..]) + ([s[0]] + t)
  {
  }

  lemma LastInReverse(n: nat, base: nat, small: bool, t: string) returns (c: char, rest: nat)
    requires 2 <= base <= 16
    ensures DigitValue(c) < base && rest * base + DigitValue(c) == n && (n == 0 || rest < n)
    ensures Reverse(Numeral(n, base, small)) + t
         == if rest == 0 then [c] + t else Reverse(Numeral(rest, base, small)) + ([c] + t)
  {
    LastDigit(n, base, small);
    Quotient(n, base);
    var s := Numeral(n, base, small);
    c, rest := s[0], n / base;
    hide Numeral, DigitChar, DigitValue;
    ReverseFront(s, t);
    NothingReversed([c] + t);
    hide Reverse;
  }

  lemma NothingReversed(t: string)
    ensures Reverse([]) + t == t
  {
  }

  lemma Quotient(n: nat, base: nat)
    requires 2 <= base
    ensures n / base * base + n % base == n && n % base < base
    ensures (n == 0 || n / base < n) && (n / base == 0 <==> n < base)
  {
    if n < base { BelowBase(n, base); } else { DivMod(n, base); }
  }

  lemma ReadFirst(c: char, t: string, base: nat)
    requires DigitValue(c) < base
    ensures ReadDigits([c] + t, base, 0) == ReadDigits(t, base, DigitValue(c))
  {
    ReadOne(c, t, base, 0);
    assert 0 * base == 0;
  }

  /** Reading the digits of n gives n. */
  lemma {:induction false} ReadNumeral(n: nat, base: nat, small: bool, t: string)
    requires 2 <= base <= 16
    ensures ReadDigits(Reverse(Numeral(n, base, small)) + t, base, 0) == ReadDigits(t, base, n)
    decreases n
  {
    var c, rest := LastInReverse(n, base, small, t);
    hide Numeral, DigitValue, ReadDigits, Reverse;
    if rest == 0 {
      ReadFirst(c, t, base);
      assert rest * base == 0;
    } else {
      ReadNumeral(rest, base, small, [c] + t);
      ReadOne(c, t, base, rest);
    }
  }

  lemma {:induction false} ReverseDigits(s: string, base: nat)
    requires AllDigits(s, base)
    ensures AllDigits(Reverse(s), base)
  {
    if s != [] {
      assert forall k :: 0 <= k < |s[1..]| ==> s[1..][k] == s[k + 1];
      ReverseDigits(s[1..], base);
    }
  }

  /** Zeros and digits, then blanks: what follows sign and prefix. */
  function Body(zeros: int, more: int, digits: string, trail: int): string {
    Repeat('0', zeros) + (Repeat('0', more) + (digits + Repeat(' ', trail)))
  }

  predicate PlainChar(c: char, base: nat) { DigitValue(c) < base || c == ' ' }

  lemma BodyChars(zeros: int, more: int, digits: string, trail: int, base: nat)
    requires digits != [] && AllDigits(digits, base) && base > 0
    ensures var w := Body(zeros, more, digits, trail);
            w != [] && DigitValue(w[0]) < base && forall k :: 0 <= k < |w| ==> PlainChar(w[k], base)
  {
    var t, z1, z2 := Repeat(' ', trail), Repeat('0', zeros), Repeat('0', more);
    var w := Body(zeros, more, digits, trail);
    assert w == z1 + z2 + digits + t;
    assert DigitValue('0') == 0;
    hide DigitValue;
  }

  /** Reading what follows sign and prefix. */
  lemma ReadBody(n: nat, base: nat, small: bool, zeros: int, more: int, trail: int)
    requires 8 <= base <= 16
    ensures var w := Body(zeros, more, Reverse(Numeral(n, base, small)), trail);
            ReadDigits(w, base, 0) == (n, Repeat(' ', trail))
  {
    var digits, t := Reverse(Numeral(n, base, small)), Repeat(' ', trail);
    ReadZeros(zeros, Repeat('0', more) + (digits + t), base);
    ReadZeros(more, digits + t, base);
    ReadNumeral(n, base, small, t);
    assert t == [] || DigitValue(t[0]) == 16;
  }

  lemma ShapeOf(num: nat, base: nat, size: int, precision: int, f: Flags)
      returns (blanks: int, zeros: int, more: int, trail: int)
    requires 2 <= base <= 16
    ensures Layout(num, base, size, precision, f)
         == Repeat(' ', blanks)
            + (SignText(num, f) + (Prefix(base, f) + Body(zeros, more, Digits(num, base, f), trail)))
  {
    var sign, prefix, digits := SignText(num, f), Prefix(base, f), Digits(num, base, f);
    var shown := Max(precision, |digits|);
    var pad := size - |sign| - |prefix| - shown;
    blanks := if f.left || f.zeropad then 0 else pad;
    zeros := if f.zeropad && !f.left then pad else 0;
    more := shown - |digits|;
    trail := if f.left then pad else 0;
    hide SignText, Prefix, Digits, Repeat;
    Regroup7(Repeat(' ', blanks), sign, prefix, Repeat('0', zeros), Repeat('0', more), digits, Repeat(' ', trail));
  }

  lemma Regroup7(a: string, b: string, c: string, d: string, e: string, g: string, h: string)
    ensures a + b + c + d + e + g + h == a + (b + (c + (d + (e + (g + h)))))
  {
  }

  lemma SkipToBody(sign: string, prefix: string, w: string, base: nat)
    requires sign == "" || sign == "-" || sign == "+" || sign == " "
    requires prefix == "" || (base == 8 && prefix == "0") || (base == 16 && (prefix == "0x" || prefix == "0X"))
    requires 8 <= base <= 16
    requires w != [] && DigitValue(w[0]) < base && forall k :: 0 <= k < |w| ==> PlainChar(w[k], base)
    ensures var t := SkipBlanks(sign + (prefix + w));
            && (t != [] && t[0] == '-' <==> sign == "-")
            && SkipPrefix(SkipSign(t), base) == (if base == 16 then [] else prefix) + w
  {
    var b := prefix + w;
    assert DigitValue(' ') == 16 && DigitValue('-') == 16 && DigitValue('+') == 16;
    assert DigitValue('x') == 16 && DigitValue('X') == 16 && DigitValue('0') == 0;
    hide DigitValue;
    assert b[0] != ' ' && b[0] != '-' && b[0] != '+';
    assert SkipBlanks(b) == b;
    var s := sign + b;
    if sign == " " {
      assert s[1..] == b && SkipBlanks(s) == SkipBlanks(b);
    } else if sign == "" {
      assert s == b;
    } else {
      assert SkipBlanks(s) == s && s[1..] == b;
    }
    if base == 16 && prefix == "" {
      assert b == w;
    } else if base == 16 {
      assert b[2..] == w;
    }
  }

  lemma DigitsBody(n: nat, base: nat, small: bool, zeros: int, more: int, trail: int) returns (w: string)
    requires 8 <= base <= 16
    ensures w == Body(zeros, more, Reverse(Numeral(n, base, small)), trail)
    ensures w != [] && DigitValue(w[0]) < base && forall k :: 0 <= k < |w| ==> PlainChar(w[k], base)
    ensures ReadDigits(w, base, 0) == (n, Repeat(' ', trail))
  {
    var digits := Reverse(Numeral(n, base, small));
    NumeralCanonical(n, base, small);
    ReverseDigits(Numeral(n, base, small), base);
    BodyChars(zeros, more, digits, trail, base);
    ReadBody(n, base, small, zeros, more, trail);
    w := Body(zeros, more, digits, trail);
  }

  lemma BlankRest(k: int)
    ensures SkipBlanks(Repeat(' ', k)) == []
  {
    SkipRepeat(k, "");
    assert Repeat(' ', k) + "" == Repeat(' ', k);
  }

  lemma ReadAfterPrefix(prefix: string, w: string, base: nat, n: nat, rest: string)
    requires w != [] && DigitValue(w[0]) < base && ReadDigits(w, base, 0) == (n, rest)
    requires prefix == "" || (base == 8 && prefix == "0")
    ensures var u := prefix + w; DigitValue(u[0]) < base && ReadDigits(u, base, 0) == (n, rest)
  {
    if prefix == "" {
      assert prefix + w == w;
    } else {
      ReadFirst('0', w, base);
    }
  }

  /** A text made of blanks, sign, prefix and body is read as the number the body shows. */
  lemma ReadText(text: string, blanks: int, sign: string, prefix: string, w: string, base: nat, n: nat, trail: int)
    requires sign == "" || sign == "-" || sign == "+" || sign == " "
    requires prefix == "" || (base == 8 && prefix == "0") || (base == 16 && (prefix == "0x" || prefix == "0X"))
    requires 8 <= base <= 16
    requires w != [] && DigitValue(w[0]) < base && forall k :: 0 <= k < |w| ==> PlainChar(w[k], base)
    requires ReadDigits(w, base, 0) == (n, Repeat(' ', trail))
    requires text == Repeat(' ', blanks) + (sign + (prefix + w))
    ensures Parse(text, base) == Some(if sign == "-" then 0 - n else n)
  {
    hide PlainChar, DigitValue, ReadDigits, Repeat, SkipBlanks, SkipSign, SkipPrefix;
    SkipRepeat(blanks, sign + (prefix + w));
    SkipToBody(sign, prefix, w, base);
    ReadAfterPrefix(if base == 16 then "" else prefix, w, base, n, Repeat(' ', trail));
    BlankRest(trail);
  }

  /** Whatever the flags, the width and the precision: reading the text gives the number back. */
  lemma ParsesBack(num: nat, base: nat, size: int, precision: int, f: Flags)
    requires num < ULONG && (base == 8 || base == 10 || base == 16)
    ensures Parse(Layout(num, base, size, precision, f), base) == Some(Meaning(num, f))
  {
    var n, sign, prefix := Magnitude(num, f), SignText(num, f), Prefix(base, f);
    hide Layout, Field, Body, Numeral, Repeat, PlainChar, Reverse, DigitValue, Parse;
    var blanks, zeros, more, trail := ShapeOf(num, base, size, precision, f);
    var w := DigitsBody(n, base, f.small, zeros, more, trail);
    ReadText(Layout(num, base, size, precision, f), blanks, sign, prefix, w, base, n, trail);
  }

  // ----- number -----

  function Pow8(k: nat): (m: nat)
    ensures m > 0
  {
    if k == 0 then 1 else 8 * Pow8(k - 1)
  }

  lemma Multiply(a: nat, b: nat, q: nat)
    requires a <= b
    ensures a * q <= b * q
  {
  }

  lemma DivideBound(n: nat, base: nat, m: nat)
    requires 8 <= base <= n < 8 * m
    ensures 0 < n / base < m
  {
    DivMod(n, base);
    Multiply(8, base, n / base);
  }

  lemma {:induction false} NumeralBound(n: nat, base: nat, small: bool, k: nat)
    requires 8 <= base <= 16 && 1 <= k && n < Pow8(k)
    ensures |Numeral(n, base, small)| <= k
    decreases k
  {
    if n >= base {
      DivideBound(n, base, Pow8(k - 1));
      assert k > 1;
      NumeralBound(n / base, base, small, k - 1);
    }
  }

  lemma ElevenDigits(n: nat, base: nat, small: bool)
    requires 8 <= base <= 16 && n < ULONG
    ensures |Numeral(n, base, small)| <= 11
  {
    assert Pow8(4) == 4096 && Pow8(8) == 4096 * Pow8(4);
    assert Pow8(11) == 512 * Pow8(8);
    NumeralBound(n, base, small, 11);
  }

  lemma LowBits8(n: nat)
    ensures n % 256 % 8 == n % 8 && (n > 0 ==> n / 8 < n)
  {
  }

  lemma LowBits16(n: nat)
    ensures n % 256 % 16 == n % 16 && (n > 0 ==> n / 16 < n)
  {
  }

  /** An unsigned char keeps the bits the mask selects. */
  lemma LowBits(n: nat, base: nat)
    requires base == 8 || base == 16
    ensures n % 256 % base == n % base && (n < base <==> n / base == 0) && (n > 0 ==> n / base < n)
  {
    if base == 8 { LowBits8(n); } else { LowBits16(n); }
  }

  lemma EmitAny(done: string, n: nat, base: nat, small: bool, target: string)
    requires (base == 8 || base == 16) && done + Numeral(n, base, small) == target
    ensures n > 0 ==> n / base < n
    ensures |done| < |target|
    ensures var c, rest := DigitChar(n % 256 % base, small), n / base;
            (done + [c]) + (if rest == 0 then [] else Numeral(rest, base, small)) == target
  {
    LastDigit(n, base, small);
    LowBits(n, base);
    var s := Numeral(n, base, small);
    hide DigitChar, Numeral, DigitValue;
    assert s == [s[0]] + s[1..];
  }

  /** The digits in tmp, last one first. */
  method PutDigits(tmp: array<char>, num: nat, base: nat, small: bool) returns (i: nat)
    requires tmp.Length == 66 && num < ULONG && (base == 8 || base == 10 || base == 16)
    modifies tmp
    ensures i <= 66 && tmp[..i] == Numeral(num, base, small)
  {
    ElevenDigits(num, base, small);
    if num == 0 {
      LastDigit(0, base, small);
      tmp[0] := '0';
      i := 1;
      assert tmp[..1] == ['0'];
    } else if base != 10 {
      i := PutPowerDigits(tmp, num, base, small);
    } else {
      DecimalIsNumeral(num, small);
      i := PutDec(tmp, 0, num);
    }
  }

  method PutPowerDigits(tmp: array<char>, num: nat, base: nat, small: bool) returns (i: nat)
    requires 0 < num && (base == 8 || base == 16) && |Numeral(num, base, small)| <= tmp.Length
    modifies tmp
    ensures i <= tmp.Length && tmp[..i] == Numeral(num, base, small)
  {
    hide Numeral, DigitChar, DigitValue;
    ghost var target := Numeral(num, base, small);
    var n: nat := num;
    i := 0;
    while n != 0
      invariant i <= tmp.Length && |target| <= tmp.Length
      invariant tmp[..i] + (if n == 0 then [] else Numeral(n, base, small)) == target
    {
      EmitAny(tmp[..i], n, base, small, target);
      tmp[i] := DigitChar(n % 256 % base, small);
      i := i + 1;
      n := n / (if base == 16 then 16 else 8);
    }
  }

  /** The buffer holds what was before the start, then the text written so far; nothing behind it has changed. */
  ghost predicate Written(orig: string, start: nat, done: string, cur: string, p: nat) {
    && start <= |orig| == |cur| && p == start + |done| <= |cur|
    && cur[..p] == orig[..start] + done
    && Kept(orig, cur, p)
  }

  lemma WriteOne(orig: string, start: nat, done: string, cur: string, p: nat, c: char)
    requires Written(orig, start, done, cur, p) && p < |cur|
    ensures Written(orig, start, done + [c], cur[p := c], p + 1)
  {
    var next := cur[p := c];
    assert next[..p + 1] == cur[..p] + [c];
  }

  method PutChar(buf: array<char>, at: nat, c: char, ghost orig: string, ghost start: nat, ghost done: string)
      returns (p: nat)
    requires at < buf.Length && Written(orig, start, done, buf[..], at)
    modifies buf
    ensures p == at + 1 && Written(orig, start, done + [c], buf[..], p)
  {
    WriteOne(orig, start, done, buf[..], at, c);
    assert buf[..][at := c] == buf[..][..at] + [c] + buf[..][at + 1..];
    ghost var next := buf[..][at := c];
    buf[at] := c;
    assert buf[..] == next;
    p := at + 1;
  }

  /** Writes c as often as the remaining size says, which goes down to -1. */
  method Fill(buf: array<char>, at: nat, c: char, size: int, ghost orig: string, ghost start: nat, ghost done: string)
      returns (p: nat, left: int)
    requires at + Max(0, size) <= buf.Length && Written(orig, start, done, buf[..], at)
    modifies buf
    ensures Written(orig, start, done + Repeat(c, size), buf[..], p)
    ensures left == (if size > 0 then -1 else size - 1) && p == at + Max(0, size)
  {
    p, left := at, size - 1;
    ghost var k := 0;
    assert done + Repeat(c, k) == done;
    while left >= 0
      invariant 0 <= k <= Max(0, size) && left == size - 1 - k && p == at + k
      invariant Written(orig, start, done + Repeat(c, k), buf[..], p)
    {
      p := PutChar(buf, p, c, orig, start, done + Repeat(c, k));
      k := k + 1;
      assert done + Repeat(c, k) == done + Repeat(c, k - 1) + [c];
      left := left - 1;
    }
    assert Repeat(c, k) == Repeat(c, size);
  }

  /** Writes the zeros that the precision asks for in front of i digits. */
  method FillZeros(buf: array<char>, at: nat, i: nat, precision: int, ghost orig: string, ghost start: nat,
                   ghost done: string) returns (p: nat)
    requires i <= precision && at + (precision - i) <= buf.Length && Written(orig, start, done, buf[..], at)
    modifies buf
    ensures Written(orig, start, done + Repeat('0', precision - i), buf[..], p) && p == at + (precision - i)
  {
    var left := precision - 1;
    p := at;
    ghost var k := 0;
    assert done + Repeat('0', k) == done;
    while i <= left
      invariant 0 <= k <= precision - i && left == precision - 1 - k && p == at + k
      invariant Written(orig, start, done + Repeat('0', k), buf[..], p)
    {
      p := PutChar(buf, p, '0', orig, start, done + Repeat('0', k));
      k := k + 1;
      assert done + Repeat('0', k) == done + Repeat('0', k - 1) + ['0'];
      left := left - 1;
    }
  }

  lemma ReverseSplit(s: string, i: nat)
    requires i < |s|
    ensures Reverse(s[..i + 1]) == [s[i]] + Reverse(s[..i])
    decreases i
  {
    var t := s[..i + 1];
    if i > 0 {
      assert t[1..] == s[1..][..i];
      ReverseSplit(s[1..], i - 1);
      assert s[..i][1..] == s[1..][..i - 1];
    }
  }

  /** Writes the digits from the scratch buffer, last one first. */
  method CopyBack(buf: array<char>, at: nat, tmp: array<char>, n: nat, ghost orig: string, ghost start: nat,
                  ghost done: string) returns (p: nat)
    requires buf != tmp && n <= tmp.Length && at + n <= buf.Length && Written(orig, start, done, buf[..], at)
    modifies buf
    ensures Written(orig, start, done + Reverse(tmp[..n]), buf[..], p) && p == at + n
  {
    var i := n - 1;
    p := at;
    ghost var out := done;
    ghost var digits := tmp[..];
    assert out + Reverse(digits[..n]) == done + Reverse(digits[..n]);
    while i >= 0
      invariant -1 <= i < n && p == at + (n - 1 - i) && tmp[..] == digits
      invariant Written(orig, start, out, buf[..], p)
      invariant out + Reverse(digits[..i + 1]) == done + Reverse(digits[..n])
    {
      ReverseSplit(digits, i);
      assert out + Reverse(digits[..i + 1]) == (out + [digits[i]]) + Reverse(digits[..i]);
      p := PutChar(buf, p, tmp[i], orig, start, out);
      out := out + [digits[i]];
      i := i - 1;
    }
    assert out == done + Reverse(digits[..n]);
    assert tmp[..n] == digits[..n];
  }

  /** NUL stands for no sign. */
  function SignOf(sign: char): (s: string)
    ensures |s| <= 1
  {
    if sign == '\0' then "" else [sign]
  }

  function PrefixOf(prefix: bool, base: nat, small: bool): (s: string)
    ensures |s| <= 2
  {
    if !prefix then "" else if base == 16 then (if small then "0x" else "0X") else "0"
  }

  method PutSignAndPrefix(buf: array<char>, at: nat, sign: char, prefix: bool, base: nat, small: bool,
                          ghost orig: string, ghost start: nat, ghost done: string) returns (p: nat)
    requires at + |SignOf(sign)| + |PrefixOf(prefix, base, small)| <= buf.Length
    requires Written(orig, start, done, buf[..], at)
    modifies buf
    ensures Written(orig, start, done + SignOf(sign) + PrefixOf(prefix, base, small), buf[..], p)
    ensures p == at + |SignOf(sign)| + |PrefixOf(prefix, base, small)|
  {
    p := at;
    ghost var out := done + SignOf(sign);
    if sign != '\0' {
      p := PutChar(buf, p, sign, orig, start, done);
    } else {
      assert out == done;
    }
    if prefix {
      p := PutChar(buf, p, '0', orig, start, out);
      if base == 16 {
        p := PutChar(buf, p, if small then 'x' else 'X', orig, start, out + ['0']);
        assert out + ['0'] + ['x'] == out + "0x" && out + ['0'] + ['X'] == out + "0X";
      }
    } else {
      assert out + "" == out;
    }
  }

  lemma NothingRepeated(s: string, c: char, n: int)
    requires n <= 0
    ensures s + Repeat(c, n) == s
  {
  }

  /** The part of number that writes, size being what is left of the width: padding in front, sign and prefix, zeros
      or blanks, digits, blanks behind. */
  method PutField(buf: array<char>, at: nat, tmp: array<char>, i: nat, precision: int, size: int, sign: char,
                  needPfx: bool, base: nat, small: bool, zeropad: bool, left: bool) returns (p: nat)
    requires buf != tmp && i <= tmp.Length && i <= precision && !(zeropad && left)
    requires at + |SignOf(sign)| + |PrefixOf(needPfx, base, small)| + precision + Max(size, 0) <= buf.Length
    modifies buf
    ensures Written(old(buf[..]), at, Field(SignOf(sign), PrefixOf(needPfx, base, small), precision - i,
                    Reverse(old(tmp[..i])), size, zeropad, left), buf[..], p)
  {
    ghost var orig, digits := buf[..], Reverse(tmp[..i]);
    ghost var sgn, pfx := SignOf(sign), PrefixOf(needPfx, base, small);
    assert Written(orig, at, "", orig, at);
    hide SignOf, PrefixOf, Written, Repeat, Reverse;
    var sz := size;
    p := at;
    if !zeropad && !left {
      p, sz := Fill(buf, p, ' ', sz, orig, at, "");
    } else {
      NothingRepeated("", ' ', 0);
    }
    ghost var s1 := Repeat(' ', if left || zeropad then 0 else size);
    assert "" + s1 == s1;
    p := PutSignAndPrefix(buf, p, sign, needPfx, base, small, orig, at, s1);
    ghost var s2 := s1 + sgn + pfx;
    NothingRepeated(s2, '0', 0);
    if !left {
      ghost var c, n := if zeropad then '0' else ' ', sz;
      p, sz := Fill(buf, p, if zeropad then '0' else ' ', sz, orig, at, s2);
      if !zeropad { NothingRepeated(s2, c, n); }
    }
    ghost var s3 := s2 + Repeat('0', if zeropad && !left then size else 0);
    p := FillZeros(buf, p, i, precision, orig, at, s3);
    ghost var s4 := s3 + Repeat('0', precision - i);
    p := CopyBack(buf, p, tmp, i, orig, at, s4);
    ghost var s5 := s4 + digits;
    if !left { NothingRepeated(s5, ' ', sz); NothingRepeated(s5, ' ', 0); }
    p, sz := Fill(buf, p, ' ', sz, orig, at, s5);
  }

  /** The sign character, or NUL for none. */
  function SignChar(num: nat, f: Flags): (c: char)
    requires num < ULONG
    ensures SignOf(c) == SignText(num, f)
  {
    if !f.sign then '\0' else if num >= ULONG / 2 then '-' else if f.plus then '+' else if f.space then ' ' else '\0'
  }

  lemma DigitsInTmp(num: nat, base: nat, f: Flags, size: int, precision: int, digits: string)
    requires num < ULONG && 2 <= base <= 16 && digits == Digits(num, base, f)
    ensures var shown := Max(precision, |digits|);
            var pad := size - |SignText(num, f)| - |Prefix(base, f)| - shown;
            && Layout(num, base, size, precision, f)
               == Field(SignText(num, f), Prefix(base, f), shown - |digits|, digits, pad, f.zeropad && !f.left, f.left)
            && |Layout(num, base, size, precision, f)|
               == |SignText(num, f)| + |Prefix(base, f)| + shown + Max(pad, 0)
  {
    LayoutLength(num, base, size, precision, f);
    hide SignText, Prefix, Digits, Repeat;
  }

  /** The first part of number: the magnitude, the sign, and what prefix and sign leave of the width. */
  method Prepare(num: nat, base: nat, size: int, f: Flags) returns (n: nat, sign: char, sz: int, needPfx: bool)
    requires num < ULONG
    ensures n == Magnitude(num, f) < ULONG && SignOf(sign) == SignText(num, f)
    ensures PrefixOf(needPfx, base, f.small) == Prefix(base, f)
    ensures sz == size - |SignText(num, f)| - |Prefix(base, f)|
  {
    needPfx := f.special && base != 10;
    n, sz, sign := num, size, SignChar(num, f);
    if f.sign && num >= ULONG / 2 { n := ULONG - num; }
    if sign != '\0' { sz := sz - 1; }
    if needPfx {
      sz := sz - 1;
      if base == 16 { sz := sz - 1; }
    }
  }

  /** The routine behind every integer conversion of the printer. */
  method Number(buf: array<char>, at: nat, num: nat, base: nat, size: int, precision: int, f: Flags) returns (p: nat)
    requires num < ULONG && (base == 8 || base == 10 || base == 16)
    requires at + |Layout(num, base, size, precision, f)| <= buf.Length
    modifies buf
    ensures Written(old(buf[..]), at, Layout(num, base, size, precision, f), buf[..], p)
  {
    hide SignOf, PrefixOf, SignText, Prefix, Numeral, Reverse, Layout, Field, Written, Repeat, Magnitude, Meaning;
    var n, sign, sz, needPfx := Prepare(num, base, size, f);
    var zeropad, prec := f.zeropad && !f.left, precision;
    var tmp := new char[66];
    var i := PutDigits(tmp, n, base, f.small);
    assert Reverse(tmp[..i]) == Digits(num, base, f);
    DigitsInTmp(num, base, f, size, precision, Reverse(tmp[..i]));
    if i > prec { prec := i; }
    sz := sz - prec;
    p := PutField(buf, at, tmp, i, prec, sz, sign, needPfx, base, f.small, zeropad, f.left);
  }
}
