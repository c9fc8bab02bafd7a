/** `format_number` of `print.c`. */
module NumberFormat {
  import opened Integers
  import opened Align

  const ALPHABET: string := "0123456789abcdef"

  /** What the arguments ask for. */
  datatype Flags = Flags(padByte: char, base: nat, pad: u64, escaped: bool, afterPrefix: bool) {
    predicate Ok() { base == 2 || base == 8 || base == 10 || base == 16 }
  }

  predicate IsDigit(c: char) { '0' <= c <= '9' }

  function DigitOf(c: char): nat
    requires IsDigit(c)
  {
    (c - '0') as int
  }

  /** The characters that may stand in an argument string. */
  predicate Known(c: char) { c == '#' || IsDigit(c) || c == 'b' || c == 'o' || c == 'x' }

  predicate AllKnown(args: string) { forall k :: 0 <= k < |args| ==> Known(args[k]) }

  /** What the digits at the end of a string say. */
  function TrailValue(s: string): nat {
    if s == [] || !IsDigit(s[|s| - 1]) then 0 else TrailValue(s[..|s| - 1]) * 10 + DigitOf(s[|s| - 1])
  }

  /** The last number in the arguments, 0 if there is none. */
  function LastNumber(s: string): nat {
    if s == [] then 0 else if TrailValue(s) > 0 then TrailValue(s) else LastNumber(s[..|s| - 1])
  }

  /** The base that the last letter asks for. */
  function LastBase(s: string): nat {
    if s == [] then 10
    else match s[|s| - 1]
      case 'b' => 2
      case 'o' => 8
      case 'x' => 16
      case _ => LastBase(s[..|s| - 1])
  }

  /** A run of digits begins with a zero: such a zero is a flag, other zeros belong to a number. */
  predicate ZeroFlag(s: string) {
    exists k :: 0 <= k < |s| && s[k] == '0' && (k == 0 || !IsDigit(s[k - 1]))
  }

  /** What arguments without an unknown character ask for, wherever its parts stand in them. */
  function FlagsOf(s: string): (f: Flags)
    ensures f.Ok()
  {
    BaseIsOk(s);
    Flags(if ZeroFlag(s) then '0' else ' ', LastBase(s), LastNumber(s) % 0x1_0000_0000_0000_0000, '#' in s, ZeroFlag(s))
  }

  lemma BaseIsOk(s: string)
    ensures LastBase(s) in {2, 8, 10, 16}
  {
  }

  /** The flags, or what follows the first character that is none. */
  datatype Arguments = Good(flags: Flags) | Bad(rest: string)

  /** Which of the characters is the first unknown one. */
  ghost predicate FirstUnknown(args: string, k: nat) {
    k < |args| && !Known(args[k]) && AllKnown(args[..k])
  }

  /** One more character. */
  lemma OneMore(s: string, c: char)
    ensures var t := s + [c];
      && TrailValue(t) == (if IsDigit(c) then TrailValue(s) * 10 + DigitOf(c) else 0)
      && LastNumber(t) == (if TrailValue(t) > 0 then TrailValue(t) else LastNumber(s))
      && LastBase(t) == (if c == 'b' then 2 else if c == 'o' then 8 else if c == 'x' then 16 else LastBase(s))
      && ('#' in t <==> '#' in s || c == '#')
      && (ZeroFlag(t) <==> ZeroFlag(s) || (c == '0' && (s == [] || !IsDigit(s[|s| - 1]))))
      && (AllKnown(t) <==> AllKnown(s) && Known(c))
  {
    OneMoreAtEnd(s, c);
    OneMoreZero(s, c);
    OneMoreKnown(s, c);
    hide *;
  }

  lemma OneMoreAtEnd(s: string, c: char)
    ensures var t := s + [c];
      && TrailValue(t) == (if IsDigit(c) then TrailValue(s) * 10 + DigitOf(c) else 0)
      && LastNumber(t) == (if TrailValue(t) > 0 then TrailValue(t) else LastNumber(s))
      && LastBase(t) == (if c == 'b' then 2 else if c == 'o' then 8 else if c == 'x' then 16 else LastBase(s))
  {
    assert (s + [c])[..|s|] == s && (s + [c])[|s|] == c;
  }

  lemma OneMoreZero(s: string, c: char)
    ensures ZeroFlag(s + [c]) <==> ZeroFlag(s) || (c == '0' && (s == [] || !IsDigit(s[|s| - 1])))
  {
    var t := s + [c];
    assert t[|s|] == c && forall k :: 0 <= k < |s| ==> t[k] == s[k];
    if ZeroFlag(s) {
      var k :| 0 <= k < |s| && s[k] == '0' && (k == 0 || !IsDigit(s[k - 1]));
      assert t[k] == '0';
    }
  }

  lemma OneMoreKnown(s: string, c: char)
    ensures '#' in s + [c] <==> '#' in s || c == '#'
    ensures AllKnown(s + [c]) <==> AllKnown(s) && Known(c)
  {
    var t := s + [c];
    assert t[|s|] == c && forall k :: 0 <= k < |s| ==> t[k] == s[k];
  }

  /** Digits that are worth nothing are zeros, and the first of them is a flag. */
  lemma {:induction false} ZerosAreFlags(s: string)
    requires s != [] && IsDigit(s[|s| - 1]) && TrailValue(s) == 0
    ensures ZeroFlag(s)
  {
    var n := |s| - 1;
    assert s[n] == '0';
    if n > 0 && IsDigit(s[n - 1]) {
      ZerosAreFlags(s[..n]);
      OneMore(s[..n], s[n]);
      assert s == s[..n] + [s[n]];
    }
  }

  /** The arguments that ask for `f`. */
  function Shown(f: Flags): string
    requires f.Ok()
  {
    (if f.escaped then "#" else "") + (if f.afterPrefix then "0" else "") +
    (if f.base == 2 then "b" else if f.base == 8 then "o" else if f.base == 16 then "x" else "") +
    (if f.pad == 0 then "" else Digits(f.pad, 10))
  }

  /** A number after characters that are no number. */
  lemma {:induction false} NumberAtEnd(s: string, n: nat)
    requires TrailValue(s) == 0 && n > 0
    ensures var t := s + Digits(n, 10);
      && TrailValue(t) == n && LastBase(t) == LastBase(s) && ('#' in t <==> '#' in s)
      && (ZeroFlag(t) <==> ZeroFlag(s)) && (AllKnown(t) <==> AllKnown(s)) && IsDigit(t[|t| - 1])
  {
    var q, d := n / 10, n % 10;
    var u := s + Digits(q, 10);
    assert s + Digits(n, 10) == u + [ALPHABET[d]];
    assert IsDigit(ALPHABET[d]) && DigitOf(ALPHABET[d]) == d;
    OneMore(u, ALPHABET[d]);
    if q > 0 {
      NumberAtEnd(s, q);
    } else {
      assert u == s && ALPHABET[d] != '0';
    }
  }

  /** Every combination of flags can be asked for, and what is asked for is what is read. */
  lemma ShownBack(f: Flags)
    requires f.Ok() && f.padByte == if f.afterPrefix then '0' else ' '
    ensures AllKnown(Shown(f)) && FlagsOf(Shown(f)) == f
  {
    hide TrailValue, LastNumber, LastBase, ZeroFlag, AllKnown, Digits, FlagsOf;
    NoArguments();
    var s0 := if f.escaped then "#" else "";
    OneFlag("", '#');
    assert "" + ['#'] == "#";
    var s1 := s0 + if f.afterPrefix then "0" else "";
    OneFlag(s0, '0');
    assert s1 == if f.afterPrefix then s0 + ['0'] else s0;
    var s2 := s1 + if f.base == 2 then "b" else if f.base == 8 then "o" else if f.base == 16 then "x" else "";
    OneFlag(s1, if f.base == 2 then 'b' else if f.base == 8 then 'o' else 'x');
    assert s2 == if f.base == 10 then s1 else s1 + [if f.base == 2 then 'b' else if f.base == 8 then 'o' else 'x'];
    assert TrailValue(s2) == 0 && AllKnown(s2) && FlagsOf(s2) == f.(pad := 0);
    if f.pad > 0 {
      NumberAtEnd(s2, f.pad);
      AtEndIsLast(Shown(f));
      FlagsAre(s2);
      FlagsAre(Shown(f));
    } else {
      assert Shown(f) == s2;
    }
  }

  lemma FlagsAre(s: string)
    ensures var pad := LastNumber(s) % 0x1_0000_0000_0000_0000;
      FlagsOf(s) == Flags(if ZeroFlag(s) then '0' else ' ', LastBase(s), pad, '#' in s, ZeroFlag(s))
  {
  }

  /** One more flag, which is no part of a number. */
  lemma OneFlag(s: string, c: char)
    requires AllKnown(s) && TrailValue(s) == 0 && (c == '#' || c == '0' || c == 'b' || c == 'o' || c == 'x')
    ensures AllKnown(s + [c]) && TrailValue(s + [c]) == 0
    ensures c == '#' ==> FlagsOf(s + [c]) == FlagsOf(s).(escaped := true)
    ensures c == '0' ==> FlagsOf(s + [c]) == FlagsOf(s).(padByte := '0', afterPrefix := true)
    ensures c == 'b' ==> FlagsOf(s + [c]) == FlagsOf(s).(base := 2)
    ensures c == 'o' ==> FlagsOf(s + [c]) == FlagsOf(s).(base := 8)
    ensures c == 'x' ==> FlagsOf(s + [c]) == FlagsOf(s).(base := 16)
  {
    hide TrailValue, FlagsOf, AllKnown;
    assert (s + [c])[..|s|] == s && (s + [c])[..|s| + 1] == s + [c];
    CharacterIs(s + [c], |s|);
  }

  lemma AtEndIsLast(s: string)
    requires TrailValue(s) > 0
    ensures LastNumber(s) == TrailValue(s)
  {
  }

  // ----- digits

  /** The digits of a number, the highest first, without leading zeros; none for zero. */
  function Digits(n: nat, base: nat): string
    requires 2 <= base <= 16
  {
    if n == 0 then [] else Digits(n / base, base) + [ALPHABET[n % base]]
  }

  function Numeral(n: nat, base: nat): string
    requires 2 <= base <= 16
  {
    if n == 0 then "0" else Digits(n, base)
  }

  /** What a digit is worth, of those in the alphabet. */
  function Worth(c: char): nat {
    if '0' <= c <= '9' then (c - '0') as int else if 'a' <= c <= 'f' then 10 + (c - 'a') as int else 0
  }

  function ValueOf(digits: string, base: nat): nat {
    if digits == [] then 0 else ValueOf(digits[..|digits| - 1], base) * base + Worth(digits[|digits| - 1])
  }

  lemma WorthOfDigit(d: nat)
    requires d < 16
    ensures Worth(ALPHABET[d]) == d
  {
  }

  /** The digits of a base, in lower case. */
  predicate IsDigitOf(c: char, base: nat) {
    ('0' <= c <= '9' || 'a' <= c <= 'f') && Worth(c) < base
  }

  lemma {:induction false} DigitsAreDigits(n: nat, base: nat, i: nat)
    requires 2 <= base <= 16 && i < |Digits(n, base)|
    ensures IsDigitOf(Digits(n, base)[i], base)
  {
    LastDigit(n, base);
    AlphabetIs(n % base, base);
    var q := WithoutLast(n, base);
    if i < |Digits(q, base)| {
      DigitsAreDigits(q, base, i);
    }
  }

  lemma AlphabetIs(d: nat, base: nat)
    requires d < base <= 16
    ensures IsDigitOf(ALPHABET[d], base)
  {
  }

  /** The digits read back to the number. */
  lemma {:induction false} DigitsValue(n: nat, base: nat)
    requires 2 <= base <= 16
    ensures ValueOf(Digits(n, base), base) == n
  {
    if n > 0 {
      hide *;
      var q: nat := WithoutLast(n, base);
      DigitsValue(q, base);
      DigitsMore(n, base, q);
    } else {
      assert Digits(0, base) == "" && ValueOf("", base) == 0;
    }
  }

  /** The number that the digits but the last stand for. */
  function WithoutLast(n: nat, base: nat): (q: nat)
    requires base >= 2
    ensures n > 0 ==> q < n
  {
    Halves(n, base);
    n / base
  }

  lemma DigitsMore(n: nat, base: nat, q: nat)
    requires 2 <= base <= 16 && n > 0 && q == WithoutLast(n, base) && ValueOf(Digits(q, base), base) == q
    ensures ValueOf(Digits(n, base), base) == n
  {
    var d := n % base;
    WorthOfDigit(d);
    assert Digits(n, base) == Digits(q, base) + [ALPHABET[d]];
    Snoc(Digits(q, base), ALPHABET[d], base);
    hide Digits, ValueOf, Worth, ALPHABET;
    Divided(n, base);
  }

  lemma Snoc(digits: string, c: char, base: nat)
    ensures ValueOf(digits + [c], base) == ValueOf(digits, base) * base + Worth(c)
  {
    assert (digits + [c])[..|digits|] == digits;
  }

  lemma Divided(n: nat, base: nat)
    requires base > 0
    ensures n == n / base * base + n % base
  {
  }

  lemma LastDigit(n: nat, base: nat)
    requires 2 <= base <= 16 && n > 0
    ensures var q := WithoutLast(n, base);
      && Digits(n, base) == Digits(q, base) + [ALPHABET[n % base]] && q <= n / 2
      && (q == 0 ==> Digits(q, base) == [] && ALPHABET[n % base] != '0')
  {
    Divided(n, base);
    Halves(n, base);
  }

  /** No number but zero begins with a zero. */
  lemma {:induction false} NoLeadingZero(n: nat, base: nat)
    requires 2 <= base <= 16 && n > 0
    ensures Digits(n, base) != [] && Digits(n, base)[0] != '0'
  {
    LastDigit(n, base);
    hide *;
    var q: nat := WithoutLast(n, base);
    if q > 0 {
      NoLeadingZero(q, base);
    }
  }

  /** 64 digits are enough for 64 bits. */
  lemma {:induction false} DigitsFit(n: nat, base: nat, bits: nat)
    requires 2 <= base <= 16 && n < Pow2(bits)
    ensures |Digits(n, base)| <= bits
  {
    if n > 0 {
      LastDigit(n, base);
      assert bits > 0 && n / 2 < Pow2(bits - 1);
      hide *;
      DigitsFit(WithoutLast(n, base), base, bits - 1);
    } else {
      assert Digits(n, base) == "";
    }
  }

  lemma Halves(n: nat, base: nat)
    requires base >= 2
    ensures n / base <= n / 2
  {
    var q := n / base;
    assert n == q * base + n % base;
    MulAtLeast(q, base - 1);
    assert q * base == q * (base - 1) + q;
    if q > 0 {
      assert q * (base - 1) >= q;
    }
  }

  // ----- the whole output

  function Prefix(f: Flags, sign: bool): string {
    (if sign then "-" else "") +
    (if !f.escaped then ""
     else if f.base == 2 then "0b" else if f.base == 8 then "0o" else if f.base == 16 then "0x" else "")
  }

  function Repeated(c: char, n: nat): string { seq(n, i => c) }

  function Padding(f: Flags, sign: bool, n: nat): string
    requires f.Ok()
  {
    var len := |Prefix(f, sign)| + |Numeral(n, f.base)|;
    Repeated(f.padByte, if len < f.pad then f.pad - len else 0)
  }

  function Output(f: Flags, sign: bool, n: nat): string
    requires f.Ok()
  {
    if f.afterPrefix then Prefix(f, sign) + Padding(f, sign, n) + Numeral(n, f.base)
    else Padding(f, sign, n) + Prefix(f, sign) + Numeral(n, f.base)
  }

  /** What the caller means by `sign` and `number`: a signed number is passed in two's complement. */
  function Magnitude(sign: bool, number: u64): u64 {
    if sign then (0x1_0000_0000_0000_0000 - number) % 0x1_0000_0000_0000_0000 else number
  }

  /** For every `i64`, the least one included, the magnitude is the absolute value. */
  lemma SignedMagnitude(n: int)
    requires -0x8000_0000_0000_0000 <= n < 0x8000_0000_0000_0000
    ensures Magnitude(n < 0, n % 0x1_0000_0000_0000_0000) == if n < 0 then -n else n
  {
  }

  /** What comes before the number: a minus exactly for a sign, then the mark of the base if it is asked for. */
  lemma PrefixIs(f: Flags, sign: bool)
    ensures sign <==> Prefix(f, sign) != "" && Prefix(f, sign)[0] == '-'
    ensures var mark := if sign then Prefix(f, sign)[1..] else Prefix(f, sign);
      && (mark == "" <==> !f.escaped || f.base !in {2, 8, 16})
      && (mark != "" ==> |mark| == 2 && mark[0] == '0')
      && (mark != "" ==> mark[1] in "box")
      && (mark != "" ==> (mark[1] == 'b' <==> f.base == 2) && (mark[1] == 'o' <==> f.base == 8))
      && (mark != "" ==> (mark[1] == 'x' <==> f.base == 16))
  {
    var mark := if sign then Prefix(f, sign)[1..] else Prefix(f, sign);
    assert sign ==> Prefix(f, sign) == "-" + mark;
    assert mark == "" || mark == "0b" || mark == "0o" || mark == "0x";
  }

  /** Where the parts of the output are, and what the padding is. */
  lemma PartsAre(f: Flags, sign: bool, n: u64)
    requires f.Ok()
    ensures var len := |Prefix(f, sign)| + |Numeral(n, f.base)|;
      |Output(f, sign, n)| == if len < f.pad then f.pad else len
    ensures |Output(f, sign, n)| == |Prefix(f, sign)| + |Padding(f, sign, n)| + |Numeral(n, f.base)|
    ensures Output(f, sign, n)[|Output(f, sign, n)| - |Numeral(n, f.base)|..] == Numeral(n, f.base)
    ensures var from := if f.afterPrefix then |Prefix(f, sign)| else 0;
      Output(f, sign, n)[from..from + |Padding(f, sign, n)|] == Padding(f, sign, n)
    ensures var from := if f.afterPrefix then 0 else |Padding(f, sign, n)|;
      Output(f, sign, n)[from..from + |Prefix(f, sign)|] == Prefix(f, sign)
    ensures forall i :: 0 <= i < |Padding(f, sign, n)| ==> Padding(f, sign, n)[i] == f.padByte
  {
    hide Prefix, Numeral;
  }

  /** Length, parts and value of the output. */
  lemma OutputIs(f: Flags, sign: bool, n: u64)
    requires f.Ok()
    ensures var len := |Prefix(f, sign)| + |Numeral(n, f.base)|;
      |Output(f, sign, n)| == if len < f.pad then f.pad else len
    ensures 1 <= |Numeral(n, f.base)| <= 64 && ValueOf(Numeral(n, f.base), f.base) == n
    ensures forall i :: 0 <= i < |Numeral(n, f.base)| ==> IsDigitOf(Numeral(n, f.base)[i], f.base)
    ensures n > 0 ==> Numeral(n, f.base)[0] != '0'
    ensures Output(f, sign, n)[|Output(f, sign, n)| - |Numeral(n, f.base)|..] == Numeral(n, f.base)
  {
    hide *;
    PartsAre(f, sign, n);
    BaseInRange(f);
    NumeralIs(n, f.base);
  }

  lemma BaseInRange(f: Flags)
    requires f.Ok()
    ensures 2 <= f.base <= 16
  {
  }

  lemma NumeralIs(n: u64, base: nat)
    requires 2 <= base <= 16
    ensures 1 <= |Numeral(n, base)| <= 64 && ValueOf(Numeral(n, base), base) == n
    ensures n > 0 ==> Numeral(n, base)[0] != '0'
    ensures forall i :: 0 <= i < |Numeral(n, base)| ==> IsDigitOf(Numeral(n, base)[i], base)
  {
    forall i | 0 <= i < |Digits(n, base)|
      ensures IsDigitOf(Digits(n, base)[i], base)
    {
      DigitsAreDigits(n, base, i);
    }
    if n == 0 {
      Snoc("", '0', base);
      assert "" + ['0'] == "0";
    } else {
      Powers();
      DigitsFit(n, base, 64);
      DigitsValue(n, base);
      NoLeadingZero(n, base);
    }
  }

  // ----- the function itself

  /** The loop that reads the arguments: the flags, or what follows the first unknown character. */
  method ParseArguments(args: string) returns (r: Arguments)
    ensures if AllKnown(args) then r == Good(FlagsOf(args))
            else exists k :: FirstUnknown(args, k) && r == Bad(args[k + 1..])
  {
    hide TrailValue, LastNumber, LastBase, ZeroFlag, Known;
    var f, i := Flags(' ', 10, 0, false, false), 0;
    NoArguments();
    assert args[..0] == "";
    while i < |args|
      invariant i <= |args| && AllKnown(args[..i]) && f == FlagsOf(args[..i])
      invariant TrailValue(args[..i]) == 0 || i == |args| || !IsDigit(args[i])
      decreases |args| - i
    {
      var c := args[i];
      CharacterIs(args, i);
      i := i + 1;
      if c == '#' {
        f := f.(escaped := true);
      } else if c == '0' {
        f := f.(padByte := '0', afterPrefix := true);
      } else if IsDigit(c) {
        var pad: u64 := DigitOf(c);
        while i < |args| && IsDigit(args[i])
          invariant i <= |args| && AllKnown(args[..i]) && f.(pad := pad) == FlagsOf(args[..i])
          invariant TrailValue(args[..i]) > 0 && pad == TrailValue(args[..i]) % 0x1_0000_0000_0000_0000
          decreases |args| - i
        {
          CharacterIs(args, i);
          DigitStays(TrailValue(args[..i]), DigitOf(args[i]));
          pad := (pad * 10 + DigitOf(args[i])) % 0x1_0000_0000_0000_0000;
          i := i + 1;
        }
        f := f.(pad := pad);
      } else if c == 'b' {
        f := f.(base := 2);
      } else if c == 'o' {
        f := f.(base := 8);
      } else if c == 'x' {
        f := f.(base := 16);
      } else {
        assert FirstUnknown(args, i - 1);
        return Bad(args[i..]);
      }
    }
    assert args[..|args|] == args;
    r := Good(f);
  }

  lemma NoArguments()
    ensures FlagsOf("") == Flags(' ', 10, 0, false, false) && TrailValue("") == 0 && AllKnown("")
  {
  }

  /** What the character at `i` does to the flags of the characters before it. */
  lemma CharacterIs(args: string, i: nat)
    requires i < |args|
    ensures args[..i + 1] == args[..i] + [args[i]]
    ensures AllKnown(args[..i + 1]) <==> AllKnown(args[..i]) && Known(args[i])
    ensures Known(args[i]) <==> args[i] == '#' || IsDigit(args[i]) || args[i] == 'b' || args[i] == 'o' || args[i] == 'x'
    ensures var s, t, c := args[..i], args[..i + 1], args[i]; var f := FlagsOf(s);
      && TrailValue(t) == (if IsDigit(c) then TrailValue(s) * 10 + DigitOf(c) else 0)
      && (c == '#' ==> FlagsOf(t) == f.(escaped := true))
      && (c == '0' && TrailValue(s) == 0 ==> FlagsOf(t) == f.(padByte := '0', afterPrefix := true))
      && (IsDigit(c) && TrailValue(t) > 0 ==>
            (c != '0' || TrailValue(s) > 0) && FlagsOf(t) == f.(pad := TrailValue(t) % 0x1_0000_0000_0000_0000))
      && (c == 'b' ==> FlagsOf(t) == f.(base := 2)) && (c == 'o' ==> FlagsOf(t) == f.(base := 8))
      && (c == 'x' ==> FlagsOf(t) == f.(base := 16))
  {
    var s := args[..i];
    assert args[..i + 1] == s + [args[i]];
    OneMore(s, args[i]);
    TrailIsDigit(s);
    if s != [] && IsDigit(s[|s| - 1]) && TrailValue(s) == 0 {
      ZerosAreFlags(s);
    }
    hide TrailValue, LastNumber, LastBase, ZeroFlag, AllKnown;
  }

  lemma TrailIsDigit(s: string)
    ensures TrailValue(s) > 0 ==> s != [] && IsDigit(s[|s| - 1])
  {
  }

  lemma DigitStays(v: nat, d: nat)
    ensures (v % 0x1_0000_0000_0000_0000 * 10 + d) % 0x1_0000_0000_0000_0000 == (v * 10 + d) % 0x1_0000_0000_0000_0000
  {
  }

  function Reversed(s: seq<char>): seq<char> {
    if s == [] then [] else Reversed(s[1..]) + [s[0]]
  }

  lemma {:induction false} ReversedAt(s: seq<char>, i: nat)
    requires i < |s|
    ensures |Reversed(s)| == |s| && Reversed(s)[i] == s[|s| - 1 - i]
  {
    if |s| > 1 {
      ReversedAt(s[1..], if i < |s| - 1 then i else 0);
    }
  }

  lemma ReversedSnoc(s: seq<char>, c: char)
    ensures Reversed(s + [c]) == [c] + Reversed(s)
  {
    if s == [] {
      assert (s + [c])[1..] == [];
    } else {
      ReversedSnoc(s[1..], c);
      assert (s + [c])[1..] == s[1..] + [c];
    }
  }

  /** The loop that fills `buf_rev`: it never needs more than its 64 places. */
  method FillDigits(buf: array<char>, number: u64, base: nat) returns (len: nat)
    requires buf.Length == 64 && (base == 2 || base == 8 || base == 10 || base == 16)
    modifies buf
    ensures 1 <= len <= 64 && Reversed(buf[..len]) == Numeral(number, base)
  {
    hide *;
    len := 0;
    if number == 0 {
      buf[0] := '0';
      assert buf[..1] == ['0'];
      ZeroNumeral(base);
      return 1;
    }
    var rest: nat := number;
    Powers();
    DigitsFit(number, base, 64);
    AtStart(number, base);
    assert buf[..0] == [];
    while rest > 0
      invariant len + |Digits(rest, base)| <= 64
      invariant Digits(number, base) == Digits(rest, base) + Reversed(buf[..len])
      invariant rest == 0 ==> len > 0
      decreases rest
    {
      DigitStep(rest, base, buf[..len]);
      Halves(rest, base);
      ghost var before := buf[..len];
      buf[len] := ALPHABET[rest % base];
      assert buf[..len + 1] == before + [ALPHABET[rest % base]];
      rest := rest / base;
      len := len + 1;
    }
    AtEnd(number, base, Reversed(buf[..len]));
  }

  lemma ZeroNumeral(base: nat)
    requires 2 <= base <= 16
    ensures Reversed(['0']) == Numeral(0, base)
  {
    assert ['0'][1..] == [];
    assert Reversed([]) + ['0'] == "0";
  }

  lemma AtStart(n: nat, base: nat)
    requires 2 <= base <= 16
    ensures Digits(n, base) == Digits(n, base) + Reversed([])
  {
  }

  lemma AtEnd(n: nat, base: nat, digits: string)
    requires 2 <= base <= 16 && n > 0 && Digits(n, base) == Digits(0, base) + digits
    ensures digits == Numeral(n, base)
  {
    assert Digits(0, base) == "";
    assert Numeral(n, base) == Digits(n, base);
    hide *;
  }

  /** One more digit goes from what is left of the number to the front of the digits. */
  lemma DigitStep(rest: nat, base: nat, before: string)
    requires 2 <= base <= 16 && rest > 0
    ensures rest % base < 16 && |Digits(rest, base)| == |Digits(rest / base, base)| + 1 && |ALPHABET| == 16
    ensures Digits(rest, base) + Reversed(before)
         == Digits(rest / base, base) + Reversed(before + [ALPHABET[rest % base]])
  {
    ReversedSnoc(before, ALPHABET[rest % base]);
  }

  /** `format_number`; the formatter is the string returned. */
  method FormatNumber(args: string, sign: bool, number: u64) returns (out: string)
    ensures if AllKnown(args) then out == Output(FlagsOf(args), sign, Magnitude(sign, number))
            else exists k :: (FirstUnknown(args, k)
                              && out == "{{invalid arguments for numeric type: " + args[k + 1..] + "}}")
  {
    hide FlagsOf, AllKnown, Numeral, Reversed, Prefix, Repeated, Magnitude;
    var parsed := ParseArguments(args);
    if parsed.Bad? {
      return "{{invalid arguments for numeric type: " + parsed.rest + "}}";
    }
    var f := parsed.flags;
    var n := Magnitude(sign, number);
    var prefixLen := (if sign then 1 else 0) + if f.escaped && f.base != 10 then 2 else 0;
    var buf := new char[64];
    var len := FillDigits(buf, n, f.base);
    PrefixLength(f, sign);
    var padLen := if prefixLen + len < f.pad then f.pad - (prefixLen + len) else 0;
    ReversedLength(buf[..len]);
    out := [];
    if !f.afterPrefix {
      out := out + Repeated(f.padByte, padLen);
    }
    out := out + Prefix(f, sign);
    if f.afterPrefix {
      out := out + Repeated(f.padByte, padLen);
    }
    var digits := WriteReversed(buf, len);
    out := out + digits;
  }

  lemma PrefixLength(f: Flags, sign: bool)
    requires f.Ok()
    ensures |Prefix(f, sign)| == (if sign then 1 else 0) + if f.escaped && f.base != 10 then 2 else 0
  {
  }

  lemma ReversedLength(s: seq<char>)
    ensures |Reversed(s)| == |s|
  {
    if s != [] {
      ReversedAt(s, 0);
    }
  }

  /** The last loop. */
  method WriteReversed(buf: array<char>, len: nat) returns (out: string)
    requires len <= buf.Length
    ensures out == Reversed(buf[..len])
  {
    ghost var digits := buf[..len];
    ReversedLength(digits);
    out := [];
    for i := 0 to len
      invariant out == Reversed(digits)[..i]
    {
      ReversedAt(digits, i);
      out := out + [buf[len - i - 1]];
    }
    assert Reversed(digits)[..len] == Reversed(digits);
  }
}
