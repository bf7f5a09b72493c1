/** What every conversion of the formatter prints, in terms of the format's text and the arguments alone. */
module Conversions {
  import opened Basics
  import opened Wrappers
  import opened Format
  import opened Strtol

  /** An escape: `padc` is '-' or '0' for the flag and ' ' for none; width or precision 0 stands for none. */
  datatype Escape = Escape(alt: bool, padc: char, width: nat, precision: nat, long: bool)

  predicate Proper(e: Escape) {
    && (e.padc == ' ' || e.padc == '-' || e.padc == '0')
    && e.width <= 0x7FFF_FFFF - 48 && e.precision <= 0x7FFF_FFFF - 48
  }

  function AltText(e: Escape): string {
    if e.alt then "#" else ""
  }

  function PadText(e: Escape): string {
    if e.padc == ' ' then "" else [e.padc]
  }

  function WidthText(e: Escape): string {
    if e.width == 0 then "" else Numeral(e.width, 10)
  }

  function PrecisionText(e: Escape): string {
    if e.precision == 0 then "" else "." + Numeral(e.precision, 10)
  }

  function LongText(e: Escape): string {
    if e.long then "l" else ""
  }

  /** How the escape is written in front of its letter. */
  function Written(e: Escape): string {
    "%" + AltText(e) + PadText(e) + WidthText(e) + PrecisionText(e) + LongText(e)
  }

  /** Text, and what the rest of the format prints. */
  function Then(s: string, rest: Option<string>): Option<string> {
    if rest.None? then None else Some(s + rest.value)
  }

  /** The numeral of `num` in `base`: digits in lower case without a zero in front. */
  ghost predicate IsNumeral(n: string, base: nat, num: nat)
    requires base <= 16
  {
    && n != "" && (|n| > 1 ==> n[0] != '0') && Value(n, base) == num
    && forall k :: 0 <= k < |n| ==> n[k] in "0123456789abcdef"[..base]
  }

  // ----- numerals

  lemma DigitInRow(d: nat, base: nat)
    requires d < base <= 16
    ensures Digit(d) in "0123456789abcdef"[..base] && (Digit(d) == '0' <==> d == 0)
  {
    assert "0123456789abcdef"[..base][d] == Digit(d);
  }

  lemma {:induction false} NumeralIs(num: nat, base: nat)
    requires 2 <= base <= 16
    ensures IsNumeral(Numeral(num, base), base, num) && (num > 0 ==> Numeral(num, base)[0] != '0')
    decreases num
  {
    NumeralOk(num, base);
    DivMod(num, base);
    DigitInRow(num % base, base);
    hide Value, Digit;
    if num >= base {
      NumeralIs(num / base, base);
    }
  }

  // ----- widths and precisions

  lemma {:induction false} ValueGrows(a: string, b: string)
    requires a <= b && forall k :: 0 <= k < |b| ==> IsDigit(b[k])
    ensures 0 <= Value(a, 10) <= Value(b, 10)
    decreases |b|
  {
    if |a| < |b| {
      ValueGrows(a, b[..|b| - 1]);
    } else if b != "" {
      assert a == b;
      ValueGrows(a[..|a| - 1], b[..|b| - 1]);
    }
  }

  /** The digit loop reads the number that the digits write. */
  lemma {:induction false} DigitsValue(t: CString, start: nat, i: nat, end: nat)
    requires start <= i < end <= |t| && (end < |t| ==> !IsDigit(t[end]))
    requires (forall k :: start <= k < end ==> IsDigit(t[k])) && Value(t[start..end], 10) + 48 <= INT_MAX
    requires 0 <= Value(t[start..i], 10)
    ensures Digits(t, i, Value(t[start..i], 10)) == Some((Value(t[start..end], 10), end))
    decreases end - i
  {
    ValueStep(t, start, i, 10);
    assert t[start..i + 1] <= t[start..end];
    ValueGrows(t[start..i + 1], t[start..end]);
    if i + 1 < end {
      DigitsValue(t, start, i + 1, end);
    }
  }

  lemma NumeralDigits(num: nat)
    requires num > 0
    ensures var n := Numeral(num, 10);
      Value(n, 10) == num && n[0] != '0' && forall k :: 0 <= k < |n| ==> IsDigit(n[k])
  {
    NumeralIs(num, 10);
    var n := Numeral(num, 10);
    hide Numeral, Value;
    forall k | 0 <= k < |n| ensures IsDigit(n[k]) {
      assert n[k] in "0123456789abcdef"[..10];
    }
  }

  /** A number among the flags. */
  lemma NumberRead(t: CString, i: nat, num: nat, sp: Spec, args: seq<Arg>)
    requires 0 < num <= INT_MAX - 48 && i + |Numeral(num, 10)| <= |t|
    requires var j := i + |Numeral(num, 10)|; t[i..j] == Numeral(num, 10) && (j < |t| ==> !IsDigit(t[j]))
    ensures Flags(t, i, sp, args) == Flags(t, i + |Numeral(num, 10)|, SetPrecision(sp, num), args)
  {
    NumeralDigits(num);
    var n := Numeral(num, 10);
    var j := i + |n|;
    hide Numeral, Value, Digits, SetPrecision;
    forall k | i <= k < j ensures IsDigit(t[k]) {
      assert t[i..j][k - i] == n[k - i];
    }
    assert t[i..j][0] == n[0];
    EmptyValue(t, i, 10);
    DigitsValue(t, i, i, j);
  }

  // ----- reading an escape

  /** What the flags set. */
  function SpecOf(e: Escape): Spec {
    Spec(e.padc,
         if e.width > 0 then e.width else if e.precision > 0 then 0 else -1,
         if e.precision > 0 then e.precision else -1,
         if e.long then 1 else 0,
         e.alt)
  }

  // One function for each part of an escape: what it makes of the fields.

  function AltSet(e: Escape, sp: Spec): Spec {
    if e.alt then sp.(alt := true) else sp
  }

  function PadSet(e: Escape, sp: Spec): Spec {
    if e.padc == ' ' then sp else sp.(padc := e.padc)
  }

  function WidthSet(e: Escape, sp: Spec): Spec {
    if e.width == 0 then sp else sp.(width := e.width, precision := -1)
  }

  function PrecisionSet(e: Escape, sp: Spec): Spec {
    if e.precision == 0 then sp
    else sp.(width := if sp.width < 0 then 0 else sp.width, precision := e.precision)
  }

  function LongSet(e: Escape, sp: Spec): Spec {
    if e.long then sp.(lflag := sp.lflag + 1) else sp
  }

  lemma AllSet(e: Escape)
    ensures PadSet(e, AltSet(e, PLAIN)).width < 0
    ensures LongSet(e, PrecisionSet(e, WidthSet(e, PadSet(e, AltSet(e, PLAIN))))) == SpecOf(e)
  {
  }

  /** The text from `i` on. */
  ghost predicate At(t: string, i: nat, s: string) {
    i <= |t| && t[i..] == s
  }

  lemma Behind(t: string, i: nat, a: string, b: string)
    requires At(t, i, a + b)
    ensures i + |a| + |b| == |t| && At(t, i + |a|, b)
    ensures a != "" ==> t[i] == a[0]
    ensures b != "" ==> t[i + |a|] == b[0]
  {
    assert t[i..][|a|..] == b;
    assert a != "" ==> t[i..][0] == a[0];
  }

  lemma Piece(t: string, i: nat, a: string, b: string)
    requires At(t, i, a + b)
    ensures i + |a| <= |t| && t[i..i + |a|] == a
  {
  }

  /** What stands at `i` is no digit, or no flag at all. */
  predicate NoDigit(s: string) {
    s != "" && !IsDigit(s[0])
  }

  lemma LongRead(t: CString, i: nat, e: Escape, rest: string, sp: Spec, args: seq<Arg>)
    requires At(t, i, LongText(e) + rest) && rest != "" && !FlagChar(rest[0])
    ensures Flags(t, i, sp, args) ==
      Some(Flagged(i + |LongText(e)|, LongSet(e, sp), args))
  {
    Behind(t, i, LongText(e), rest);
  }

  lemma DotRead(t: CString, i: nat, sp: Spec, args: seq<Arg>)
    requires i < |t| && t[i] == '.'
    ensures Flags(t, i, sp, args) == Flags(t, i + 1, sp.(width := if sp.width < 0 then 0 else sp.width), args)
  {
  }

  lemma NumeralRead(t: CString, i: nat, num: nat, rest: string, sp: Spec, args: seq<Arg>)
    requires 0 < num <= INT_MAX - 48 && At(t, i, Numeral(num, 10) + rest) && NoDigit(rest)
    ensures Flags(t, i, sp, args) == Flags(t, i + |Numeral(num, 10)|, SetPrecision(sp, num), args)
  {
    hide At, Numeral, Flags, SetPrecision;
    Behind(t, i, Numeral(num, 10), rest);
    Piece(t, i, Numeral(num, 10), rest);
    NumberRead(t, i, num, sp, args);
  }

  lemma PrecisionRead(t: CString, i: nat, e: Escape, rest: string, sp: Spec, args: seq<Arg>)
    requires Proper(e) && At(t, i, PrecisionText(e) + rest) && NoDigit(rest)
    ensures Flags(t, i, sp, args) == Flags(t, i + |PrecisionText(e)|, PrecisionSet(e, sp), args)
  {
    hide At, Numeral, Flags;
    if e.precision > 0 {
      var n := Numeral(e.precision, 10);
      assert PrecisionText(e) + rest == "." + (n + rest);
      Behind(t, i, ".", n + rest);
      DotRead(t, i, sp, args);
      NumeralRead(t, i + 1, e.precision, rest, sp.(width := if sp.width < 0 then 0 else sp.width), args);
    }
  }

  lemma WidthRead(t: CString, i: nat, e: Escape, rest: string, sp: Spec, args: seq<Arg>)
    requires Proper(e) && At(t, i, WidthText(e) + rest) && NoDigit(rest) && sp.width < 0
    ensures Flags(t, i, sp, args) == Flags(t, i + |WidthText(e)|, WidthSet(e, sp), args)
  {
    hide At, Numeral, Flags;
    if e.width > 0 {
      NumeralRead(t, i, e.width, rest, sp, args);
    }
  }

  lemma PadRead(t: CString, i: nat, e: Escape, rest: string, sp: Spec, args: seq<Arg>)
    requires Proper(e) && At(t, i, PadText(e) + rest)
    ensures Flags(t, i, sp, args) ==
      Flags(t, i + |PadText(e)|, PadSet(e, sp), args)
  {
    Behind(t, i, PadText(e), rest);
  }

  lemma AltRead(t: CString, i: nat, e: Escape, rest: string, sp: Spec, args: seq<Arg>)
    requires At(t, i, AltText(e) + rest)
    ensures Flags(t, i, sp, args) == Flags(t, i + |AltText(e)|, AltSet(e, sp), args)
  {
    Behind(t, i, AltText(e), rest);
  }

  /** Where the parts of an escape begin. */
  lemma Parts(e: Escape, rest: string)
    requires rest != "" && !FlagChar(rest[0])
    ensures var l := LongText(e) + rest;
      var p := PrecisionText(e) + l;
      var w := WidthText(e) + p;
      Written(e) + rest == "%" + (AltText(e) + (PadText(e) + w)) && NoDigit(l) && NoDigit(p)
  {
    hide Numeral;
    assert Written(e) + rest ==
           "%" + (AltText(e) + (PadText(e) + (WidthText(e) + (PrecisionText(e) + (LongText(e) + rest)))));
  }

  /** Width, precision and `l`. */
  lemma TailRead(t: CString, i: nat, e: Escape, rest: string, sp: Spec, args: seq<Arg>)
    requires Proper(e) && rest != "" && !FlagChar(rest[0]) && sp.width < 0
    requires At(t, i, WidthText(e) + (PrecisionText(e) + (LongText(e) + rest)))
    ensures Flags(t, i, sp, args) ==
      Some(Flagged(i + |WidthText(e)| + |PrecisionText(e)| + |LongText(e)|,
                   LongSet(e, PrecisionSet(e, WidthSet(e, sp))), args))
  {
    hide At, WidthText, PrecisionText, LongText, Written, Flags, WidthSet, PrecisionSet, LongSet;
    Parts(e, rest);
    var l := LongText(e) + rest;
    var p := PrecisionText(e) + l;
    Behind(t, i, WidthText(e), p);
    WidthRead(t, i, e, p, sp, args);
    var j := i + |WidthText(e)|;
    Behind(t, j, PrecisionText(e), l);
    PrecisionRead(t, j, e, l, WidthSet(e, sp), args);
    LongRead(t, j + |PrecisionText(e)|, e, rest, PrecisionSet(e, WidthSet(e, sp)), args);
  }

  lemma WrittenLength(e: Escape)
    ensures |Written(e)| == 1 + |AltText(e)| + |PadText(e)| + |WidthText(e)| + |PrecisionText(e)| + |LongText(e)|
  {
    hide AltText, PadText, WidthText, PrecisionText, LongText;
  }

  lemma PartsRead(t: CString, i: nat, e: Escape, rest: string, args: seq<Arg>)
    requires Proper(e) && rest != "" && !FlagChar(rest[0])
    requires At(t, i, AltText(e) + (PadText(e) + (WidthText(e) + (PrecisionText(e) + (LongText(e) + rest)))))
    ensures Flags(t, i, PLAIN, args) == Some(Flagged(i + |Written(e)| - 1, SpecOf(e), args))
  {
    hide At, AltText, PadText, WidthText, PrecisionText, LongText, Written, Flags, PLAIN, SpecOf;
    hide AltSet, PadSet, WidthSet, PrecisionSet, LongSet;
    WrittenLength(e);
    AllSet(e);
    var w := WidthText(e) + (PrecisionText(e) + (LongText(e) + rest));
    Behind(t, i, AltText(e), PadText(e) + w);
    AltRead(t, i, e, PadText(e) + w, PLAIN, args);
    var j := i + |AltText(e)|;
    Behind(t, j, PadText(e), w);
    PadRead(t, j, e, w, AltSet(e, PLAIN), args);
    TailRead(t, j + |PadText(e)|, e, rest, PadSet(e, AltSet(e, PLAIN)), args);
  }

  /** The flags of an escape set what it says. */
  lemma EscapeRead(t: CString, i: nat, e: Escape, rest: string, args: seq<Arg>)
    requires Proper(e) && At(t, i, Written(e) + rest) && rest != "" && !FlagChar(rest[0])
    ensures i + |Written(e)| + |rest| == |t| && t[i] == '%' && At(t, i + |Written(e)|, rest)
    ensures Flags(t, i + 1, PLAIN, args) == Some(Flagged(i + |Written(e)|, SpecOf(e), args))
  {
    hide At, AltText, PadText, WidthText, PrecisionText, LongText, Written, Flags, PLAIN, SpecOf;
    Parts(e, rest);
    Behind(t, i, Written(e), rest);
    var w := AltText(e) + (PadText(e) + (WidthText(e) + (PrecisionText(e) + (LongText(e) + rest))));
    Behind(t, i, "%", w);
    PartsRead(t, i + 1, e, rest, args);
  }

  // ----- the conversions

  lemma ConversionStep(t: CString, i: nat, e: Escape, c: char, rest: string, args: seq<Arg>)
    requires Proper(e) && At(t, i, Written(e) + ([c] + rest)) && c in "cesduoxp%"
    requires Convert(c, SpecOf(e), args).Text?
    ensures var (k, j) := (Convert(c, SpecOf(e), args), i + |Written(e)| + 1);
      j + |rest| == |t| && At(t, j, rest) && Printed(t, i, args) == Then(k.s, Printed(t, j, k.rest))
  {
    hide At, Written, Flags, Convert, SpecOf;
    EscapeRead(t, i, e, [c] + rest, args);
    Behind(t, i + |Written(e)|, [c], rest);
  }

  /** `%o`, `%u` and `%x`: the numeral in base 8, 10 or 16, with the padding in front. */
  lemma UnsignedPrints(t: CString, i: nat, e: Escape, c: char, rest: string, w: nat, more: seq<Arg>)
    returns (n: string)
    requires Proper(e) && At(t, i, Written(e) + ([c] + rest)) && (c == 'o' || c == 'u' || c == 'x')
    requires w < if e.long then 0x1_0000_0000_0000_0000 else 0x1_0000_0000
    ensures IsNumeral(n, if c == 'o' then 8 else if c == 'u' then 10 else 16, w)
    ensures At(t, i + |Written(e)| + 1, rest)
    ensures Printed(t, i, [if e.long then W64(w) else W32(w)] + more)
         == Then(Repeat(e.padc, e.width - |n|) + n, Printed(t, i + |Written(e)| + 1, more))
  {
    hide At, Written, Printed, Numeral, IsNumeral, Then;
    var base := if c == 'o' then 8 else if c == 'u' then 10 else 16;
    n := Numeral(w, base);
    NumeralIs(w, base);
    var args := [if e.long then W64(w) else W32(w)] + more;
    assert args[1..] == more;
    NumberPads(w, base, e);
    assert Convert(c, SpecOf(e), args) == Text(Repeat(e.padc, e.width - |n|) + n, more);
    ConversionStep(t, i, e, c, rest, args);
  }

  /** A missing width and a width of 0 pad alike. */
  lemma NumberPads(w: nat, base: nat, e: Escape)
    requires 2 <= base <= 16
    ensures NumField(w, base, SpecOf(e).width, e.padc)
         == Repeat(e.padc, e.width - |Numeral(w, base)|) + Numeral(w, base)
  {
  }

  /** The bits of a negative number of that size. */
  function Bits(v: int, long: bool): int {
    if v >= 0 then v else if long then v + 0x1_0000_0000_0000_0000 else v + 0x1_0000_0000
  }

  predicate FitsSize(v: int, long: bool) {
    if long then -0x8000_0000_0000_0000 < v < 0x8000_0000_0000_0000 else -0x8000_0000 <= v < 0x8000_0000
  }

  function SignedArg(v: int, long: bool): Arg
    requires FitsSize(v, long)
  {
    if long then W64(Bits(v, true)) else W32(Bits(v, false))
  }

  lemma SignedRead(v: int, e: Escape, more: seq<Arg>)
    requires FitsSize(v, e.long)
    ensures Signed(SpecOf(e).lflag, [SignedArg(v, e.long)] + more) == Some(v)
  {
  }

  lemma DecimalText(v: int, e: Escape, more: seq<Arg>)
    requires FitsSize(v, e.long)
    ensures var n := Numeral(if v < 0 then -v else v, 10);
      Convert('d', SpecOf(e), [SignedArg(v, e.long)] + more)
      == Text((if v < 0 then "-" else "") + (Repeat(e.padc, e.width - |n|) + n), more)
  {
    hide Numeral, Repeat, SignedArg, Signed;
    var num := if v < 0 then -v else v;
    var field := Repeat(e.padc, e.width - |Numeral(num, 10)|) + Numeral(num, 10);
    SignedRead(v, e, more);
    NumberPads(num, 10, e);
    assert "" + field == field;
    assert ([SignedArg(v, e.long)] + more)[1..] == more;
  }

  /** `%d`: the sign comes before the padding and does not count for the width. */
  lemma SignedPrints(t: CString, i: nat, e: Escape, rest: string, v: int, more: seq<Arg>) returns (n: string)
    requires Proper(e) && At(t, i, Written(e) + ("d" + rest)) && FitsSize(v, e.long)
    ensures IsNumeral(n, 10, if v < 0 then -v else v) && At(t, i + |Written(e)| + 1, rest)
    ensures Printed(t, i, [SignedArg(v, e.long)] + more)
         == Then((if v < 0 then "-" else "") + (Repeat(e.padc, e.width - |n|) + n),
                 Printed(t, i + |Written(e)| + 1, more))
  {
    hide At, Written, Printed, Numeral, IsNumeral, Then, Repeat, Convert, SignedArg;
    n := Numeral(if v < 0 then -v else v, 10);
    NumeralIs(if v < 0 then -v else v, 10);
    DecimalText(v, e, more);
    ConversionStep(t, i, e, 'd', rest, [SignedArg(v, e.long)] + more);
  }

  /** `%p`: `0x` stands before the padding. */
  lemma PointerPrints(t: CString, i: nat, e: Escape, rest: string, w: nat, more: seq<Arg>) returns (n: string)
    requires Proper(e) && At(t, i, Written(e) + ("p" + rest)) && w < 0x1_0000_0000_0000_0000
    ensures IsNumeral(n, 16, w) && At(t, i + |Written(e)| + 1, rest)
    ensures Printed(t, i, [W64(w)] + more)
         == Then("0x" + (Repeat(e.padc, e.width - |n|) + n), Printed(t, i + |Written(e)| + 1, more))
  {
    hide At, Written, Printed, Numeral, IsNumeral, Then, Repeat;
    n := Numeral(w, 16);
    NumeralIs(w, 16);
    assert ([W64(w)] + more)[1..] == more;
    NumberPads(w, 16, e);
    ConversionStep(t, i, e, 'p', rest, [W64(w)] + more);
  }

  /** `%c` prints the low byte, `%%` a percent sign. */
  lemma CharPrints(t: CString, i: nat, e: Escape, rest: string, w: nat, more: seq<Arg>)
    requires Proper(e) && At(t, i, Written(e) + ("c" + rest)) && w < 0x1_0000_0000
    ensures At(t, i + |Written(e)| + 1, rest)
    ensures Printed(t, i, [W32(w)] + more) == Then([(w % 256) as char], Printed(t, i + |Written(e)| + 1, more))
  {
    hide At, Written, Printed, Then;
    assert ([W32(w)] + more)[1..] == more;
    ConversionStep(t, i, e, 'c', rest, [W32(w)] + more);
  }

  lemma PercentPrints(t: CString, i: nat, e: Escape, rest: string, more: seq<Arg>)
    requires Proper(e) && At(t, i, Written(e) + ("%" + rest))
    ensures At(t, i + |Written(e)| + 1, rest)
    ensures Printed(t, i, more) == Then("%", Printed(t, i + |Written(e)| + 1, more))
  {
    hide At, Written, Printed, Then;
    ConversionStep(t, i, e, '%', rest, more);
  }

  // ----- strings

  function Least(a: nat, b: nat): nat {
    if a < b then a else b
  }

  /** `body` is the first `n` characters of `s`, unprintable ones replaced if `alt`. */
  ghost predicate ShownAs(body: string, s: string, n: nat, alt: bool) {
    n <= |s| && |body| == n
    && forall k :: 0 <= k < n ==> body[k] == if alt && !(' ' <= s[k] <= '~') then '?' else s[k]
  }

  /** A string in a field: on the left with spaces behind it, or on the right with the padding in front. */
  function Field(body: string, e: Escape): string {
    if e.padc == '-' then body + Repeat(' ', e.width - |body|) else Repeat(e.padc, e.width - |body|) + body
  }

  lemma MaskShows(s: string, n: nat, alt: bool)
    requires n <= |s|
    ensures ShownAs(Masked(s[..n], alt), s, n, alt)
  {
  }

  lemma NoWidth(body: string, width: int, padc: char)
    requires width <= 0
    ensures body + Repeat(' ', width - |body|) == body == Repeat(padc, width - |body|) + body
  {
  }

  lemma StringField(s: string, e: Escape) returns (body: string)
    requires Proper(e)
    ensures ShownAs(body, s, if e.precision == 0 then |s| else Least(|s|, e.precision), e.alt)
    ensures StrField(s, SpecOf(e)) == Field(body, e)
  {
    hide Masked, ShownAs, Repeat;
    var n := if e.precision == 0 then |s| else Least(|s|, e.precision);
    body := Masked(s[..n], e.alt);
    MaskShows(s, n, e.alt);
    NoWidth(body, 0, e.padc);
    NoWidth(body, -1, e.padc);
  }

  /** `%s`: at most `precision` characters; a null pointer stands for "(null)". */
  lemma StringPrints(t: CString, i: nat, e: Escape, rest: string, s: CString, nil: bool, more: seq<Arg>)
    returns (body: string)
    requires Proper(e) && At(t, i, Written(e) + ("s" + rest)) && (nil ==> s == "(null)")
    ensures ShownAs(body, s, if e.precision == 0 then |s| else Least(|s|, e.precision), e.alt)
    ensures At(t, i + |Written(e)| + 1, rest)
    ensures Printed(t, i, [if nil then Null else Str(s)] + more)
         == Then(Field(body, e), Printed(t, i + |Written(e)| + 1, more))
  {
    hide At, Written, Printed, Then, StrField, ShownAs, Field, SpecOf;
    var args := [if nil then Null else Str(s)] + more;
    body := StringField(s, e);
    assert args[1..] == more;
    ConversionStep(t, i, e, 's', rest, args);
  }

  // ----- error numbers

  /** `%e`: the message of an error number of either sign, or the number. */
  lemma ErrorPrints(t: CString, i: nat, e: Escape, rest: string, v: int, more: seq<Arg>) returns (n: string)
    requires Proper(e) && At(t, i, Written(e) + ("e" + rest)) && -0x8000_0000 < v < 0x8000_0000
    ensures IsNumeral(n, 10, if v < 0 then -v else v) && At(t, i + |Written(e)| + 1, rest)
    ensures var code := if v < 0 then -v else v;
      Printed(t, i, [W32(Bits(v, false))] + more)
      == Then(if ErrorString(code).Some? then ErrorString(code).value else "error " + n,
              Printed(t, i + |Written(e)| + 1, more))
  {
    hide At, Written, Printed, Numeral, IsNumeral, Then, ErrorString, SpecOf;
    var code := if v < 0 then -v else v;
    n := Numeral(code, 10);
    NumeralIs(code, 10);
    assert ([W32(Bits(v, false))] + more)[1..] == more;
    ConversionStep(t, i, e, 'e', rest, [W32(Bits(v, false))] + more);
  }

  /** The messages. */
  lemma ErrorMessages()
    ensures ErrorString(1) == Some("unspecified error") && ErrorString(2) == Some("bad process")
    ensures ErrorString(3) == Some("invalid parameter") && ErrorString(4) == Some("out of memory")
    ensures ErrorString(5) == Some("out of processes") && ErrorString(6) == Some("segmentation fault")
  {
  }

  lemma DeviceErrorMessages()
    ensures ErrorString(8) == Some("invalid elf file") && ErrorString(9) == Some("process is killed")
    ensures ErrorString(10) == Some("panic failure") && ErrorString(13) == Some("no such device")
    ensures ErrorString(14) == Some("device not available") && ErrorString(15) == Some("device/file is busy")
  {
  }

  lemma FileErrorMessages()
    ensures ErrorString(16) == Some("no such file or directory") && ErrorString(17) == Some("is a directory")
    ensures ErrorString(18) == Some("not a directory") && ErrorString(19) == Some("cross device link")
    ensures ErrorString(20) == Some("unimplemented feature") && ErrorString(21) == Some("illegal seek")
    ensures ErrorString(22) == Some("too many files are open")
    ensures ErrorString(23) == Some("file or directory already exists")
    ensures ErrorString(24) == Some("directory is not empty")
  {
  }

  /** The numbers between and behind have none. */
  lemma NoMessages(e: nat)
    ensures ErrorString(e) == None <==> e in {0, 7, 11, 12} || e > 24
  {
  }

  // ----- whole formats

  const BARE := Escape(false, ' ', 0, 0, false)

  function Output(t: CString, args: seq<Arg>): string {
    Printed(t, 0, args).GetOr("")
  }

  lemma Whole(t: CString, s: string, args: seq<Arg>)
    requires Printed(t, 0, args) == Then(s, Printed(t, |t|, []))
    ensures Printed(t, 0, args) == Some(s)
  {
    assert s + "" == s;
  }

  /** A letter alone behind the percent sign. */
  lemma BareUnsigned(c: char, w: nat)
    requires (c == 'o' || c == 'u' || c == 'x') && w < 0x1_0000_0000
    ensures IsNumeral(Output(['%', c], [W32(w)]), if c == 'o' then 8 else if c == 'u' then 10 else 16, w)
  {
    hide IsNumeral, Printed;
    var t := ['%', c];
    assert Written(BARE) == "%" && t[0..] == "%" + ([c] + "");
    var n := UnsignedPrints(t, 0, BARE, c, "", w, []);
    assert Repeat(' ', 0 - |n|) + n == n && [W32(w)] + [] == [W32(w)];
    Whole(t, n, [W32(w)]);
  }

  lemma BareLong(c: char, l: nat)
    requires (c == 'o' || c == 'u' || c == 'x') && l < 0x1_0000_0000_0000_0000
    ensures IsNumeral(Output(['%', 'l', c], [W64(l)]), if c == 'o' then 8 else if c == 'u' then 10 else 16, l)
  {
    hide IsNumeral, Printed;
    var t, e := ['%', 'l', c], BARE.(long := true);
    assert Written(e) == "%l" && t[0..] == "%l" + ([c] + "");
    var n := UnsignedPrints(t, 0, e, c, "", l, []);
    assert Repeat(' ', 0 - |n|) + n == n && [W64(l)] + [] == [W64(l)];
    Whole(t, n, [W64(l)]);
  }

  /** The letters of the formats that the kernel uses. */
  lemma BareFormats(w: nat, l: nat)
    requires w < 0x1_0000_0000 && l < 0x1_0000_0000_0000_0000
    ensures IsNumeral(Output("%o", [W32(w)]), 8, w) && IsNumeral(Output("%u", [W32(w)]), 10, w)
    ensures IsNumeral(Output("%x", [W32(w)]), 16, w) && IsNumeral(Output("%lx", [W64(l)]), 16, l)
    ensures Output("%c", [W32(w)]) == [(w % 256) as char] && Output("%%", []) == "%"
  {
    hide IsNumeral, Printed;
    BareUnsigned('o', w);
    BareUnsigned('u', w);
    BareUnsigned('x', w);
    BareLong('x', l);
    BareOthers(w);
  }

  lemma BareOthers(w: nat)
    requires w < 0x1_0000_0000
    ensures Output("%c", [W32(w)]) == [(w % 256) as char] && Output("%%", []) == "%"
  {
    hide Printed;
    assert Written(BARE) == "%" && "%c"[0..] == "%" + ("c" + "") && "%%"[0..] == "%" + ("%" + "");
    CharPrints("%c", 0, BARE, "", w, []);
    PercentPrints("%%", 0, BARE, "", []);
    assert [W32(w)] + [] == [W32(w)];
    Whole("%c", [(w % 256) as char], [W32(w)]);
    Whole("%%", "%", []);
  }

  /** `%*.*s` takes width and precision from the arguments: a negative width is none, a negative precision no limit. */
  lemma StarredString(a: int, b: int, s: CString)
    requires -0x8000_0000 <= a < 0x8000_0000 && -0x8000_0000 <= b < 0x8000_0000
    ensures var n := if 0 <= b < |s| then b else |s|;
      Output("%*.*s", [W32(Bits(a, false)), W32(Bits(b, false)), Str(s)]) == Repeat(' ', a - n) + s[..n]
  {
    var t: CString, args: seq<Arg> := "%*.*s", [W32(Bits(a, false)), W32(Bits(b, false)), Str(s)];
    var n, body := Shown(s, b), s[..Shown(s, b)];
    StarredFlags(a, b, args);
    StarredField(a, b, s);
    assert args[2..] == [Str(s)];
    assert Printed(t, 5, []) == Some("");
    hide Flags, StrField;
    Whole(t, Repeat(' ', a - n) + body, args);
  }

  lemma StarredField(a: int, b: int, s: string)
    ensures StrField(s, PLAIN.(width := if a < 0 then 0 else a, precision := b))
         == Repeat(' ', a - Shown(s, b)) + s[..Shown(s, b)]
  {
    var n: int, body := Shown(s, b), s[..Shown(s, b)];
    assert Masked(body, false) == body;
    if a <= 0 {
      assert Repeat(' ', a - n) == "" == Repeat(' ', -n);
    }
  }

  lemma StarredFlags(a: int, b: int, args: seq<Arg>)
    requires -0x8000_0000 <= a < 0x8000_0000 && -0x8000_0000 <= b < 0x8000_0000
    requires |args| > 2 && args[0] == W32(Bits(a, false)) && args[1] == W32(Bits(b, false))
    ensures Flags("%*.*s", 1, PLAIN, args) ==
      Some(Flagged(4, PLAIN.(width := if a < 0 then 0 else a, precision := b), args[2..]))
  {
    var t: CString, s1 := "%*.*s", PLAIN.(width := a);
    var s2 := s1.(width := if a < 0 then 0 else a);
    assert Flags(t, 4, s2.(precision := b), args[2..]) == Some(Flagged(4, s2.(precision := b), args[2..]));
    assert args[1..][1..] == args[2..];
    assert Flags(t, 3, s2, args[1..]) == Flags(t, 4, s2.(precision := b), args[2..]);
    DotRead(t, 2, s1, args[1..]);
    assert Flags(t, 1, PLAIN, args) == Flags(t, 2, s1, args[1..]);
  }
}
