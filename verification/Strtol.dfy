/** strtol, and when it reads back what the formatter printed. */
module Strtol {
  import opened Basics
  import opened Wrappers
  import opened Format

  /** The value of a `long` after overflow. */
  function Wrap(v: int): int {
    if v % M64 < M64 / 2 then v % M64 else v % M64 - M64
  }

  function DigitValue(c: char): Option<nat> {
    if '0' <= c <= '9' then Some(c as int - '0' as int)
    else if 'a' <= c <= 'z' then Some(c as int - 'a' as int + 10)
    else if 'A' <= c <= 'Z' then Some(c as int - 'A' as int + 10)
    else None
  }

  predicate DigitIn(c: char, base: int) {
    DigitValue(c).Some? && DigitValue(c).value < base
  }

  predicate Blank(c: char) {
    c == ' ' || c == '\t'
  }

  function SkipBlanks(s: CString, i: nat): (j: nat)
    requires i <= |s|
    ensures i <= j <= |s|
    decreases |s| - i
  {
    if i < |s| && Blank(s[i]) then SkipBlanks(s, i + 1) else i
  }

  /** The longest run of digits. */
  function RunEnd(s: CString, i: nat, base: int): (e: nat)
    requires i <= |s|
    ensures i <= e <= |s| && (forall k :: i <= k < e ==> DigitIn(s[k], base)) && (e < |s| ==> !DigitIn(s[e], base))
    decreases |s| - i
  {
    if i < |s| && DigitIn(s[i], base) then RunEnd(s, i + 1, base) else i
  }

  /** What the digits stand for, without overflow. */
  function Value(ds: string, base: int): int {
    if ds == "" then 0 else Value(ds[..|ds| - 1], base) * base + DigitValue(ds[|ds| - 1]).GetOr(0)
  }

  datatype Lead = Lead(start: nat, neg: bool, base: int)

  /** Behind a sign, if there is one. */
  function SignEnd(s: CString, i: nat): (j: nat)
    requires i <= |s|
    ensures i <= j <= |s|
  {
    if i < |s| && (s[i] == '+' || s[i] == '-') then i + 1 else i
  }

  /** Blanks, sign and prefix: where the digits begin, and in which base. */
  function ReadLead(s: CString, base: int): (l: Lead)
    ensures l.start <= |s|
  {
    var i := SkipBlanks(s, 0);
    var neg := i < |s| && s[i] == '-';
    var j := SignEnd(s, i);
    if (base == 0 || base == 16) && j + 1 < |s| && s[j] == '0' && s[j + 1] == 'x' then Lead(j + 2, neg, 16)
    else if base == 0 && j < |s| && s[j] == '0' then Lead(j + 1, neg, 8)
    else Lead(j, neg, if base == 0 then 10 else base)
  }

  /** The digits behind a lead. */
  function ParseFrom(s: CString, l: Lead): (int, nat)
    requires l.start <= |s|
  {
    var e := RunEnd(s, l.start, l.base);
    var v := Wrap(Value(s[l.start..e], l.base));
    (if l.neg then Wrap(-v) else v, e)
  }

  /** The result, and the index `*endptr` is left at. */
  function Parse(s: CString, base: int): (int, nat) {
    ParseFrom(s, ReadLead(s, base))
  }

  // ----- the loops

  lemma Shift(v: int, k: int)
    ensures (v + M64 * k) % M64 == v % M64
  {
    assert v == M64 * (v / M64) + v % M64;
    assert v + M64 * k == M64 * (v / M64 + k) + v % M64;
  }

  /** Overflow in earlier steps does not matter. */
  lemma WrapStep(v: int, base: int, d: int)
    ensures Wrap(Wrap(v) * base + d) == Wrap(v * base + d)
  {
    var k := v / M64 + if v % M64 < M64 / 2 then 0 else 1;
    assert Wrap(v) == v - M64 * k;
    assert Wrap(v) * base + d == v * base + d + M64 * (-k * base);
    Shift(v * base + d, -k * base);
  }

  /** The loop over initial whitespace. */
  method GobbleBlanks(s: seq<char>, ghost t: CString) returns (i: nat)
    requires s == t + [NUL]
    ensures i == SkipBlanks(t, 0)
  {
    i := 0;
    while s[i] == ' ' || s[i] == '\t'
      invariant i <= |t| && SkipBlanks(t, i) == SkipBlanks(t, 0)
      decreases |t| - i
    {
      i := i + 1;
    }
  }

  method Strtol(s: seq<char>, b: int, ghost t: CString) returns (r: int, end: nat)
    requires s == t + [NUL]
    ensures (r, end) == Parse(t, b)
  {
    hide SkipBlanks, RunEnd, Value, Wrap;
    var neg, base := false, b;
    var i := GobbleBlanks(s, t);
    if s[i] == '+' {
      i := i + 1;
    } else if s[i] == '-' {
      i, neg := i + 1, true;
    }
    if (base == 0 || base == 16) && s[i] == '0' && s[i + 1] == 'x' {
      i, base := i + 2, 16;
    } else if base == 0 && s[i] == '0' {
      i, base := i + 1, 8;
    } else if base == 0 {
      base := 10;
    }
    assert ReadLead(t, b) == Lead(i, neg, base);
    var val;
    val, end := ReadRun(s, i, base, t);
    r := if neg then Wrap(-val) else val;
  }

  /** The digit loop. */
  method ReadRun(s: seq<char>, start: nat, base: int, ghost t: CString) returns (val: int, i: nat)
    requires s == t + [NUL] && start <= |t|
    ensures i == RunEnd(t, start, base) && val == Wrap(Value(t[start..i], base))
  {
    hide Wrap, Value;
    EmptyValue(t, start, base);
    val, i := 0, start;
    while true
      invariant start <= i <= |t| && RunEnd(t, i, base) == RunEnd(t, start, base)
      invariant val == Wrap(Value(t[start..i], base))
      decreases |t| - i
    {
      var dig: int;
      if '0' <= s[i] <= '9' {
        dig := s[i] as int - '0' as int;
      } else if 'a' <= s[i] <= 'z' {
        dig := s[i] as int - 'a' as int + 10;
      } else if 'A' <= s[i] <= 'Z' {
        dig := s[i] as int - 'A' as int + 10;
      } else {
        break;
      }
      if dig >= base {
        break;
      }
      ValueStep(t, start, i, base);
      WrapStep(Value(t[start..i], base), base, dig);
      val := Wrap(val * base + dig);
      i := i + 1;
    }
  }

  lemma ValueStep(t: string, start: nat, i: nat, base: int)
    requires start <= i < |t|
    ensures Value(t[start..i + 1], base) == Value(t[start..i], base) * base + DigitValue(t[i]).GetOr(0)
  {
    assert t[start..i + 1][..i - start] == t[start..i];
  }

  lemma EmptyValue(t: string, start: nat, base: int)
    requires start <= |t|
    ensures Value(t[start..start], base) == 0 && Wrap(0) == 0
  {
  }

  // ----- the documented reading

  /** White space that the code does not know. */
  predicate RareSpace(c: char) {
    c == '\n' || c == '\U{0B}' || c == '\U{0C}' || c == '\r'
  }

  /** White space in general. */
  predicate Space(c: char) {
    c == ' ' || c == '\t' || RareSpace(c)
  }

  function SkipSpaces(s: CString, i: nat): (j: nat)
    requires i <= |s|
    ensures i <= j <= |s|
    decreases |s| - i
  {
    if i < |s| && Space(s[i]) then SkipSpaces(s, i + 1) else i
  }

  /** The prefix `0X` counts in base 16; in base 0 only if it is read like an integer constant in every respect. */
  predicate UpperCounts(base: int, likeConstant: bool) {
    base == 16 || (base == 0 && likeConstant)
  }

  /**
   * As many white-space characters as necessary, a sign, and a prefix. For base 0 the documentation names `0x` only,
   * but calls the syntax that of integer constants: `likeConstant` chooses between the two readings.
   */
  function DocLead(s: CString, base: int, likeConstant: bool): (l: Lead)
    ensures l.start <= |s|
  {
    var i := SkipSpaces(s, 0);
    var neg := i < |s| && s[i] == '-';
    var j := if i < |s| && (s[i] == '-' || s[i] == '+') then i + 1 else i;
    if (base == 0 || base == 16) && j + 1 < |s| && s[j] == '0' && s[j + 1] == 'x' then Lead(j + 2, neg, 16)
    else if UpperCounts(base, likeConstant) && j + 1 < |s| && s[j] == '0' && s[j + 1] == 'X' then Lead(j + 2, neg, 16)
    else if base == 0 && j < |s| && s[j] == '0' then Lead(j + 1, neg, 8)
    else Lead(j, neg, if base == 0 then 10 else base)
  }

  function DocParse(s: CString, base: int, likeConstant: bool): (int, nat) {
    ParseFrom(s, DocLead(s, base, likeConstant))
  }

  /** The text begins with white space that the code does not know. */
  predicate OtherSpace(s: CString) {
    var i := SkipBlanks(s, 0);
    i < |s| && RareSpace(s[i])
  }

  /** The number has the prefix `0X` where a prefix is looked for. */
  predicate UpperPrefix(s: CString, base: int, likeConstant: bool) {
    var j := SignEnd(s, SkipBlanks(s, 0));
    UpperCounts(base, likeConstant) && j + 1 < |s| && s[j] == '0' && s[j + 1] == 'X'
  }

  lemma {:induction false} SameSkip(s: CString, i: nat)
    requires i <= |s|
    ensures var j := SkipBlanks(s, i);
      SkipSpaces(s, i) == if j < |s| && RareSpace(s[j]) then SkipSpaces(s, j) else j
    decreases |s| - i
  {
    if i < |s| && Blank(s[i]) {
      SameSkip(s, i + 1);
    }
  }

  /** Behind other white space the code finds no digit. */
  lemma SpaceDiffers(s: CString, base: int, likeConstant: bool)
    requires OtherSpace(s)
    ensures Parse(s, base).1 < DocParse(s, base, likeConstant).1
  {
    hide Value, Wrap;
    var i := SkipBlanks(s, 0);
    SameSkip(s, 0);
    assert !DigitIn(s[i], ReadLead(s, base).base);
    assert Parse(s, base).1 == i;
  }

  /** In front of the `X` it stops. */
  lemma PrefixDiffers(s: CString, base: int, likeConstant: bool)
    requires !OtherSpace(s) && UpperPrefix(s, base, likeConstant)
    ensures Parse(s, base).1 < DocParse(s, base, likeConstant).1
  {
    hide Value, Wrap, SkipBlanks, SkipSpaces;
    var j := SignEnd(s, SkipBlanks(s, 0));
    SameSkip(s, 0);
    assert RunEnd(s, j + 1, ReadLead(s, base).base) == j + 1;
    assert Parse(s, base).1 == j + 1;
  }

  /** The code reads a text as documented if and only if it begins with no other white space and no `0X`. */
  lemma AsDocumented(s: CString, base: int, likeConstant: bool)
    ensures Parse(s, base) == DocParse(s, base, likeConstant) <==> !OtherSpace(s) && !UpperPrefix(s, base, likeConstant)
  {
    hide ParseFrom;
    SameSkip(s, 0);
    if OtherSpace(s) {
      SpaceDiffers(s, base, likeConstant);
    } else if UpperPrefix(s, base, likeConstant) {
      PrefixDiffers(s, base, likeConstant);
    }
  }

  const UPPER := "0X1f"
  const NEWLINE := "\n7"

  lemma Leads(likeConstant: bool)
    ensures ReadLead(UPPER, 16) == Lead(0, false, 16) && DocLead(UPPER, 16, likeConstant) == Lead(2, false, 16)
    ensures ReadLead(NEWLINE, 10) == Lead(0, false, 10) && DocLead(NEWLINE, 10, likeConstant) == Lead(1, false, 10)
  {
    assert SkipBlanks(UPPER, 0) == 0 == SkipSpaces(UPPER, 0);
    assert SkipBlanks(NEWLINE, 0) == 0 && SkipSpaces(NEWLINE, 0) == 1;
  }

  lemma Runs()
    ensures RunEnd(UPPER, 0, 16) == 1 && RunEnd(UPPER, 2, 16) == 4
    ensures RunEnd(NEWLINE, 0, 10) == 0 && RunEnd(NEWLINE, 1, 10) == 2
  {
    assert RunEnd(UPPER, 3, 16) == RunEnd(UPPER, 4, 16);
  }

  lemma Values()
    ensures Value("", 10) == 0 && Value("0", 16) == 0 && Value("7", 10) == 7 && Value("1f", 16) == 31
  {
    assert "1f"[..1] == "1";
  }

  /** Two texts that the code stops short in. */
  lemma StopsShort(likeConstant: bool)
    ensures Parse(UPPER, 16) == (0, 1) && DocParse(UPPER, 16, likeConstant) == (31, 4)
    ensures Parse(NEWLINE, 10) == (0, 0) && DocParse(NEWLINE, 10, likeConstant) == (7, 2)
  {
    hide ReadLead, DocLead, RunEnd, Value;
    Leads(likeConstant);
    Runs();
    Values();
    assert UPPER[0..1] == "0" && UPPER[2..4] == "1f" && NEWLINE[0..0] == "" && NEWLINE[1..2] == "7";
  }

  // ----- digits, signs and overflow

  const LOWER_DIGITS := "0123456789abcdefghijklmnopqrstuvwxyz"
  const UPPER_DIGITS := "0123456789ABCDEFGHIJKLMNOPQRSTUVWXYZ"

  lemma LowerDigit(d: nat)
    requires d < 36
    ensures LOWER_DIGITS[d] as int == if d < 10 then 48 + d else 87 + d
  {
  }

  lemma UpperDigit(d: nat)
    requires d < 36
    ensures UPPER_DIGITS[d] as int == if d < 10 then 48 + d else 55 + d
  {
  }

  /** The digits, in either case: the value of a digit is its place in the row. */
  lemma DigitValueIs(c: char, d: nat)
    ensures DigitValue(c) == Some(d) <==> d < 36 && (c == LOWER_DIGITS[d] || c == UPPER_DIGITS[d])
  {
    hide LOWER_DIGITS, UPPER_DIGITS;
    if d < 36 {
      LowerDigit(d);
      UpperDigit(d);
    }
  }

  /** A value in the range of a long, as far from `v` as a multiple of 2^64. */
  lemma WrapIs(v: int)
    ensures -0x8000_0000_0000_0000 <= Wrap(v) < 0x8000_0000_0000_0000
    ensures (v - Wrap(v)) % 0x1_0000_0000_0000_0000 == 0
  {
  }

  /** The same letter in upper and lower case, or the same character. */
  predicate SameLetter(c: char, d: char) {
    || c == d
    || ('a' <= c <= 'z' && d as int == c as int - 32)
    || ('A' <= c <= 'Z' && d as int == c as int + 32)
  }

  /** Only letters from `start` up to `end` differ, and only in their case. */
  ghost predicate Recased(s: CString, t: CString, start: nat, end: nat) {
    |s| == |t| && forall k :: 0 <= k < |s| ==> SameLetter(s[k], t[k]) && (s[k] == t[k] || start <= k < end)
  }

  lemma {:induction false} RecasedBlanks(s: CString, t: CString, start: nat, end: nat, i: nat)
    requires Recased(s, t, start, end) && i <= |s|
    ensures SkipBlanks(t, i) == SkipBlanks(s, i)
    decreases |s| - i
  {
    if i < |s| && Blank(s[i]) {
      RecasedBlanks(s, t, start, end, i + 1);
    }
  }

  lemma {:induction false} RecasedRun(s: CString, t: CString, start: nat, end: nat, i: nat, base: int)
    requires Recased(s, t, start, end) && i <= |s|
    ensures RunEnd(t, i, base) == RunEnd(s, i, base)
    decreases |s| - i
  {
    if i < |s| && DigitIn(s[i], base) {
      RecasedRun(s, t, start, end, i + 1, base);
    }
  }

  lemma {:induction false} RecasedValue(a: string, b: string, base: int)
    requires |a| == |b| && forall k :: 0 <= k < |a| ==> SameLetter(a[k], b[k])
    ensures Value(b, base) == Value(a, base)
  {
    if a != "" {
      RecasedValue(a[..|a| - 1], b[..|b| - 1], base);
    }
  }

  lemma RecasedLead(s: CString, t: CString, base: int)
    requires Recased(s, t, ReadLead(s, base).start, Parse(s, base).1)
    ensures ReadLead(t, base) == ReadLead(s, base)
  {
    hide Value, Wrap;
    var l := ReadLead(s, base);
    var j := SignEnd(s, SkipBlanks(s, 0));
    RecasedBlanks(s, t, l.start, Parse(s, base).1, 0);
    assert SignEnd(t, SkipBlanks(t, 0)) == j;
    if j + 1 < |s| && s[j] == '0' && s[j + 1] == 'X' && t[j + 1] == 'x' {
      assert l.start <= j + 1 < RunEnd(s, l.start, l.base) && DigitIn(s[j + 1], l.base);
    }
  }

  /** Changing the case of the digits of a number changes neither its value nor its end. */
  lemma CaseDoesNotMatter(s: CString, t: CString, base: int)
    requires Recased(s, t, ReadLead(s, base).start, Parse(s, base).1)
    ensures Parse(t, base) == Parse(s, base)
  {
    hide Wrap, ReadLead;
    var l, e := ReadLead(s, base), Parse(s, base).1;
    RecasedLead(s, t, base);
    RecasedRun(s, t, l.start, e, l.start, l.base);
    RecasedValue(s[l.start..e], t[l.start..e], l.base);
  }

  const MIXED := "2A"
  const LETTERS := "zZ"

  /** A text in both cases, and one in the largest base. */
  lemma LettersRead()
    ensures Parse(MIXED, 16) == (42, 2) && Parse(LETTERS, 36) == (1295, 2)
  {
    hide ReadLead, RunEnd, Value;
    LetterLeads();
    LetterValues();
    assert MIXED[0..2] == "2A" && LETTERS[0..2] == "zZ";
  }

  lemma LetterLeads()
    ensures ReadLead(MIXED, 16) == Lead(0, false, 16) && RunEnd(MIXED, 0, 16) == 2
    ensures ReadLead(LETTERS, 36) == Lead(0, false, 36) && RunEnd(LETTERS, 0, 36) == 2
  {
    assert SkipBlanks(MIXED, 0) == 0 == SkipBlanks(LETTERS, 0);
  }

  lemma LetterValues()
    ensures Value("2A", 16) == 42 && Value("zZ", 36) == 1295
  {
    assert "2A"[..1] == "2" && "zZ"[..1] == "z" && "2"[..0] == "" == "z"[..0];
    assert Value("2", 16) == 2 && Value("z", 36) == 35;
  }

  function Upper(s: string): (r: string)
    ensures |r| == |s|
  {
    seq(|s|, k requires 0 <= k < |s| => if 'a' <= s[k] <= 'z' then (s[k] as int - 32) as char else s[k])
  }

  lemma {:induction false} ShiftRun(c: char, s: CString, i: nat, base: int)
    requires c != NUL && i <= |s|
    ensures RunEnd([c] + s, i + 1, base) == RunEnd(s, i, base) + 1
    decreases |s| - i
  {
    if i < |s| && DigitIn(s[i], base) {
      ShiftRun(c, s, i + 1, base);
    }
  }

  lemma SignLead(c: char, s: CString, base: int)
    requires (c == '+' || c == '-') && (s != "" ==> s[0] !in " \t+-")
    ensures var l := ReadLead(s, base);
      ReadLead([c] + s, base) == Lead(l.start + 1, c == '-', l.base) && !l.neg
  {
    var t := [c] + s;
    assert SkipBlanks(s, 0) == 0 && SkipBlanks(t, 0) == 0;
    assert |s| > 0 ==> t[1] == s[0];
    assert |s| > 1 ==> t[2] == s[1];
  }

  /** The digits behind the sign. */
  lemma SignParse(c: char, s: CString, base: int)
    requires (c == '+' || c == '-') && (s != "" ==> s[0] !in " \t+-")
    ensures Parse([c] + s, base) ==
      (if c == '-' then Wrap(-Parse(s, base).0) else Parse(s, base).0, Parse(s, base).1 + 1)
  {
    hide Wrap, Value, ReadLead, SkipBlanks, RunEnd;
    SignLead(c, s, base);
    var l := ReadLead(s, base);
    ShiftRun(c, s, l.start, l.base);
    assert ([c] + s)[l.start + 1..RunEnd(s, l.start, l.base) + 1] == s[l.start..RunEnd(s, l.start, l.base)];
  }

  /** A sign in front of a number that has none: a plus changes nothing, a minus the sign, and the end moves on. */
  lemma Signs(s: CString, base: int)
    requires s != "" ==> s[0] !in " \t+-"
    ensures Parse("+" + s, base) == (Parse(s, base).0, Parse(s, base).1 + 1)
    ensures var v := Parse(s, base).0;
      Parse("-" + s, base) == (if v == -0x8000_0000_0000_0000 then v else -v, Parse(s, base).1 + 1)
  {
    hide Wrap, Value, ReadLead, RunEnd;
    var l := ReadLead(s, base);
    SignLead('+', s, base);
    SignParse('+', s, base);
    SignParse('-', s, base);
    NegatedWrap(Value(s[l.start..RunEnd(s, l.start, l.base)], l.base));
  }

  lemma NegatedWrap(v: int)
    ensures Wrap(-Wrap(v)) == if Wrap(v) == -0x8000_0000_0000_0000 then Wrap(v) else -Wrap(v)
  {
  }

  // ----- reading back what was printed

  ghost predicate AllDigits(s: string, i: nat, base: int) {
    forall k :: i <= k < |s| ==> DigitAt(s, k, base)
  }

  ghost predicate DigitAt(s: string, k: nat, base: int) {
    k < |s| && DigitIn(s[k], base)
  }

  lemma WrapSmall(v: int)
    requires -(M64 / 2) <= v < M64 / 2
    ensures Wrap(v) == v
  {
  }

  lemma DigitOk(d: nat)
    requires d < 16
    ensures DigitValue(Digit(d)) == Some(d)
  {
  }

  lemma AppendDigit(n: string, base: int, d: nat)
    requires AllDigits(n, 0, base) && d < base <= 16
    ensures AllDigits(n + [Digit(d)], 0, base)
    ensures Value(n + [Digit(d)], base) == Value(n, base) * base + d
  {
    DigitOk(d);
    hide Digit, DigitValue;
    var r := n + [Digit(d)];
    assert r[..|r| - 1] == n;
    forall m | 0 <= m < |r| ensures DigitAt(r, m, base) {
      assert m < |n| ==> DigitAt(n, m, base);
    }
  }

  lemma DivMod(num: nat, base: nat)
    requires base >= 2
    ensures num == num / base * base + num % base && num % base < base
    ensures num < base ==> num % base == num
    ensures num >= base ==> num / base < num
  {
  }

  /** The numeral of a number has its value, and nothing but digits of the base. */
  lemma {:induction false} NumeralOk(num: nat, base: nat)
    requires 2 <= base <= 16
    ensures AllDigits(Numeral(num, base), 0, base) && Value(Numeral(num, base), base) == num
    decreases num
  {
    hide AllDigits, Value, Digit;
    DivMod(num, base);
    if num < base {
      OneDigit(num, base);
    } else {
      NumeralOk(num / base, base);
      AppendDigit(Numeral(num / base, base), base, num % base);
    }
  }

  lemma OneDigit(d: nat, base: nat)
    requires d < base <= 16
    ensures AllDigits([Digit(d)], 0, base) && Value([Digit(d)], base) == d
  {
    hide Digit;
    AppendDigit("", base, d);
    assert "" + [Digit(d)] == [Digit(d)];
    assert Value("", base) == 0;
  }

  lemma {:induction false} LeadingZeros(k: nat, n: string, base: int)
    ensures Value(Repeat('0', k) + n, base) == Value(n, base)
  {
    var z := Repeat('0', k);
    if n != "" {
      LeadingZeros(k, n[..|n| - 1], base);
      assert (z + n)[..|z + n| - 1] == z + n[..|n| - 1];
    } else if k > 0 {
      LeadingZeros(k - 1, n, base);
      assert (z + n)[..|z + n| - 1] == Repeat('0', k - 1) + n;
    }
  }

  lemma {:induction false} RunAll(s: CString, i: nat, base: int)
    requires i <= |s| && AllDigits(s, i, base)
    ensures RunEnd(s, i, base) == |s|
    decreases |s| - i
  {
    if i < |s| {
      assert DigitAt(s, i, base);
      RunAll(s, i + 1, base);
    }
  }

  lemma {:induction false} SkipPads(s: CString, i: nat, k: nat)
    requires i <= k < |s| && (forall m :: i <= m < k ==> s[m] == ' ') && !Blank(s[k])
    ensures SkipBlanks(s, i) == k
    decreases k - i
  {
    if i < k {
      SkipPads(s, i + 1, k);
    }
  }

  /** Digits behind spaces begin behind the spaces. */
  lemma DigitStart(s: CString, k: nat, base: nat)
    requires 2 <= base <= 16 && k < |s| && (forall m :: 0 <= m < k ==> s[m] == ' ') && AllDigits(s, k, base)
    ensures ReadLead(s, base) == Lead(k, false, base)
  {
    hide SkipBlanks;
    assert DigitAt(s, k, base);
    assert k + 1 < |s| ==> DigitAt(s, k + 1, base);
    SkipPads(s, 0, k);
  }

  lemma DigitLead(s: CString, k: nat, base: nat)
    requires 2 <= base <= 16 && k < |s| && (forall m :: 0 <= m < k ==> s[m] == ' ') && AllDigits(s, k, base)
    requires 0 <= Value(s[k..], base) < M64 / 2
    ensures Parse(s, base) == (Value(s[k..], base), |s|)
  {
    hide Wrap, Value, ReadLead, RunEnd;
    DigitStart(s, k, base);
    RunAll(s, k, base);
    assert s[k..|s|] == s[k..];
    WrapSmall(Value(s[k..], base));
  }

  lemma MinusStart(s: CString, base: nat)
    requires 2 <= base <= 16 && |s| > 1 && s[0] == '-' && (|s| > 2 && s[1] == '0' ==> s[2] != 'x')
    ensures ReadLead(s, base) == Lead(1, true, base)
  {
    SkipPads(s, 0, 0);
  }

  /** Digits behind a minus sign. */
  lemma MinusDigits(s: CString, base: nat)
    requires 2 <= base <= 16 && |s| > 1 && s[0] == '-' && AllDigits(s, 1, base)
    requires 0 <= Value(s[1..], base) < M64 / 2
    ensures Parse(s, base) == (-Value(s[1..], base), |s|)
  {
    hide Wrap, Value, SkipBlanks, RunEnd, ReadLead;
    assert |s| > 2 ==> DigitAt(s, 2, base);
    MinusStart(s, base);
    RunAll(s, 1, base);
    assert s[1..|s|] == s[1..];
    WrapSmall(Value(s[1..], base));
    WrapSmall(-Value(s[1..], base));
  }

  /** Something else behind it. */
  lemma MinusOther(s: CString, base: nat)
    requires 2 <= base <= 16 && |s| > 1 && s[0] == '-' && !DigitIn(s[1], base)
    ensures Parse(s, base).1 == 1
  {
    hide Wrap, Value, SkipBlanks, ReadLead;
    assert s[1] != '0';
    MinusStart(s, base);
  }

  predicate Padding(padc: char) {
    padc == ' ' || padc == '0' || padc == '-'
  }

  /** `n` is a numeral of `num` that a long can hold. */
  ghost predicate Numeric(n: string, base: nat, num: nat) {
    2 <= base <= 16 && n != "" && AllDigits(n, 0, base) && Value(n, base) == num < M64 / 2
  }

  lemma FieldIsText(k: nat, padc: char, n: string, base: nat, num: nat)
    requires Numeric(n, base, num) && Padding(padc)
    ensures NUL !in Repeat(padc, k) + n && NUL !in "-" + (Repeat(padc, k) + n)
  {
    hide Value;
    var f := Repeat(padc, k) + n;
    forall m | 0 <= m < |f| ensures f[m] != NUL {
      assert m >= k ==> DigitAt(n, m - k, base);
    }
  }

  /** Digits behind a prefix. */
  lemma TailDigits(pre: string, n: string, base: int)
    requires AllDigits(n, 0, base)
    ensures AllDigits(pre + n, |pre|, base) && (pre + n)[|pre|..] == n
  {
    hide DigitIn;
    var f := pre + n;
    forall m | |pre| <= m < |f| ensures DigitAt(f, m, base) {
      assert DigitAt(n, m - |pre|, base);
    }
  }

  lemma ZeroDigits(k: nat, n: string, base: int)
    requires base > 0 && AllDigits(n, 0, base)
    ensures AllDigits(Repeat('0', k) + n, 0, base)
  {
    var f := Repeat('0', k) + n;
    forall m | 0 <= m < |f| ensures DigitAt(f, m, base) {
      assert m >= k ==> DigitAt(n, m - k, base);
    }
  }

  lemma ZeroPadded(k: nat, n: string, base: nat, num: nat, f: CString)
    requires Numeric(n, base, num) && f == Repeat('0', k) + n
    ensures Parse(f, base) == (num, |f|)
  {
    hide Value, AllDigits, Parse, Repeat;
    LeadingZeros(k, n, base);
    ZeroDigits(k, n, base);
    assert f[0..] == f;
    DigitLead(f, 0, base);
  }

  lemma SpacePadded(k: nat, n: string, base: nat, num: nat, f: CString)
    requires Numeric(n, base, num) && f == Repeat(' ', k) + n
    ensures Parse(f, base) == (num, |f|)
  {
    hide Value, AllDigits, Parse, Repeat;
    TailDigits(Repeat(' ', k), n, base);
    DigitLead(f, k, base);
  }

  lemma MinusZeros(k: nat, n: string, base: nat, num: nat, f: CString)
    requires Numeric(n, base, num) && f == "-" + (Repeat('0', k) + n)
    ensures Parse(f, base).0 + num == 0 && Parse(f, base).1 == |f|
  {
    hide Value, AllDigits, Parse, Repeat;
    LeadingZeros(k, n, base);
    ZeroDigits(k, n, base);
    TailDigits("-", Repeat('0', k) + n, base);
    MinusDigits(f, base);
  }

  lemma MinusPads(k: nat, padc: char, n: string, base: nat, f: CString)
    requires 2 <= base <= 16 && k > 0 && (padc == ' ' || padc == '-') && f == "-" + (Repeat(padc, k) + n)
    ensures Parse(f, base).1 == 1 < |f|
  {
    assert f[1] == padc && |f| > 1;
    hide Parse;
    MinusOther(f, base);
  }

  lemma MinusPadded(k: nat, n: string, base: nat, num: nat, f: CString)
    requires Numeric(n, base, num) && k > 0 && f == Repeat('-', k) + n
    ensures Parse(f, base) == (num, |f|) <==> k == 1 && num == 0
  {
    assert Repeat('-', k) == "-" + Repeat('-', k - 1);
    assert f == "-" + (Repeat('-', k - 1) + n);
    hide Parse;
    if k == 1 {
      assert Repeat('-', 0) == Repeat('0', 0);
      MinusZeros(0, n, base, num, f);
    } else {
      MinusPads(k - 1, '-', n, base, f);
    }
  }

  /**
   * Reading a printed number back in its base gives the number, and the end of the text, if and only if it was not
   * padded with '-', or a single such pad makes a zero negative.
   */
  lemma UnsignedReadsBack(num: nat, base: nat, width: int, padc: char)
    requires 2 <= base <= 16 && num < M64 / 2 && Padding(padc)
    ensures NUL !in NumField(num, base, width, padc)
    ensures var (f, pads) := (NumField(num, base, width, padc), width - |Numeral(num, base)|);
      Parse(f, base) == (num, |f|) <==> padc != '-' || pads <= 0 || (pads == 1 && num == 0)
  {
    NumeralOk(num, base);
    var n, f, pads := Numeral(num, base), NumField(num, base, width, padc), width - |Numeral(num, base)|;
    var k := if pads > 0 then pads else 0;
    assert f == Repeat(padc, k) + n;
    assert k == 0 ==> f == Repeat('0', k) + n;
    hide Numeral, NumField, Parse, Value, AllDigits, Repeat;
    FieldIsText(k, padc, n, base, num);
    if padc == '0' || pads <= 0 {
      ZeroPadded(k, n, base, num, f);
    } else if padc == ' ' {
      SpacePadded(k, n, base, num, f);
    } else {
      MinusPadded(k, n, base, num, f);
    }
  }

  /** So is its numeral in upper case. */
  lemma UpperReadsBack(num: nat, base: nat)
    requires 2 <= base <= 16 && num < M64 / 2
    ensures NUL !in Upper(Numeral(num, base))
    ensures Parse(Upper(Numeral(num, base)), base) == (num, |Numeral(num, base)|)
  {
    hide Value, Wrap, Parse;
    var n := Numeral(num, base);
    NumeralOk(num, base);
    assert NumField(num, base, -1, ' ') == n;
    hide Numeral, NumField;
    UnsignedReadsBack(num, base, -1, ' ');
    DigitStart(n, 0, base);
    forall k | 0 <= k < |n| ensures Upper(n)[k] != NUL && SameLetter(n[k], Upper(n)[k]) {
      assert DigitAt(n, k, base);
    }
    CaseDoesNotMatter(n, Upper(n), base);
  }

  lemma NegativeReadsBack(num: nat, width: int, padc: char)
    requires 0 < num < M64 / 2 && Padding(padc)
    ensures NUL !in "-" + NumField(num, 10, width, padc)
    ensures var (f, pads) := ("-" + NumField(num, 10, width, padc), width - |Numeral(num, 10)|);
      if pads <= 0 || padc == '0' then Parse(f, 10).0 + num == 0 && Parse(f, 10).1 == |f| else Parse(f, 10).1 != |f|
  {
    NumeralOk(num, 10);
    var n, f, pads := Numeral(num, 10), "-" + NumField(num, 10, width, padc), width - |Numeral(num, 10)|;
    var k := if pads > 0 then pads else 0;
    assert f == "-" + (Repeat(padc, k) + n);
    assert k == 0 ==> f == "-" + (Repeat('0', k) + n);
    hide Numeral, NumField, Parse, Value, AllDigits, Repeat;
    FieldIsText(k, padc, n, 10, num);
    if padc == '0' || pads <= 0 {
      MinusZeros(k, n, 10, num, f);
    } else {
      MinusPads(k, padc, n, 10, f);
    }
  }

  /**
   * The same for `%d`: the sign comes before the padding, so a negative number comes back only without pads or with
   * zeros.
   */
  lemma SignedReadsBack(v: int, width: int, padc: char)
    requires -(M64 / 2) < v < M64 / 2 && Padding(padc)
    ensures NUL !in DecField(v, width, padc)
    ensures var f := DecField(v, width, padc);
      var pads := width - |Numeral(if v < 0 then -v else v, 10)|;
      Parse(f, 10) == (v, |f|) <==>
        pads <= 0 || padc == '0' || (v >= 0 && padc == ' ') || (v == 0 && padc == '-' && pads == 1)
  {
    hide NumField, Numeral, Parse;
    if v >= 0 {
      UnsignedReadsBack(v, 10, width, padc);
    } else {
      NegativeReadsBack(-v, width, padc);
    }
  }

  /** Printing any int with `%d` and parsing the text gives the int back. */
  lemma IntReadsBack(w: nat)
    requires w < M32
    ensures Printed("%d", 0, [W32(w)]).Some? && NUL !in Printed("%d", 0, [W32(w)]).value
    ensures var text := Printed("%d", 0, [W32(w)]).value;
      Parse(text, 10) == (if w < 0x8000_0000 then w else w - 0x1_0000_0000, |text|)
  {
    var v, args := Signed32(w), [W32(w)];
    SignedReadsBack(v, -1, ' ');
    assert Convert('d', PLAIN, args) == Text(DecField(v, -1, ' '), []);
    hide Convert, DecField, Parse, Numeral;
    TextThenConversion("%d", "", 'd', args);
    assert "" + DecField(v, -1, ' ') == DecField(v, -1, ' ');
  }
}
