/** What a format and its arguments print, as text. */
module Format {
  import opened Basics
  import opened Wrappers

  const INT_MAX := 0x7FFF_FFFF

  type Word32 = w: nat | w < M32
  type Word64 = w: nat | w < M64

  /** A variable argument: the bits of a 32-bit or a 64-bit word, or a `char *`. */
  datatype Arg = W32(w: Word32) | W64(l: Word64) | Str(s: CString) | Null

  function Signed32(w: nat): int {
    if w < M32 / 2 then w else w - M32
  }

  function Signed64(w: nat): int {
    if w < M64 / 2 then w else w - M64
  }

  // ----- fields

  /** `padc` and so on, as a `%` resets them. */
  datatype Spec = Spec(padc: char, width: int, precision: int, lflag: nat, alt: bool)

  const PLAIN := Spec(' ', -1, -1, 0, false)

  function Repeat(c: char, n: int): (r: string)
    ensures |r| == (if n > 0 then n else 0)
    ensures forall k :: 0 <= k < |r| ==> r[k] == c
  {
    if n <= 0 then "" else seq(n, _ => c)
  }

  function Digit(d: nat): char
    requires d < 16
  {
    "0123456789abcdef"[d]
  }

  /** The numeral of `num`, most significant digit first. */
  function Numeral(num: nat, base: nat): (r: string)
    requires 2 <= base <= 16
    ensures |r| > 0
    decreases num
  {
    if num < base then [Digit(num)] else Numeral(num / base, base) + [Digit(num % base)]
  }

  function NumField(num: nat, base: nat, width: int, padc: char): string
    requires 2 <= base <= 16
  {
    Repeat(padc, width - |Numeral(num, base)|) + Numeral(num, base)
  }

  function Masked(s: string, alt: bool): (r: string)
    ensures |r| == |s|
  {
    seq(|s|, k requires 0 <= k < |s| => if alt && (s[k] < ' ' || s[k] > '~') then '?' else s[k])
  }

  /** How much of a string is printed: a negative precision sets no limit. */
  function Shown(s: string, precision: int): nat {
    if 0 <= precision < |s| then precision else |s|
  }

  function StrField(s: string, sp: Spec): string {
    var n := Shown(s, sp.precision);
    var body := Masked(s[..n], sp.alt);
    if sp.width > 0 && sp.padc != '-' then Repeat(sp.padc, sp.width - n) + body
    else body + Repeat(' ', sp.width - n)
  }

  const MAXERROR := 24

  /** error_string, by error number. */
  const ERROR_STRINGS: seq<Option<string>> := [
    None,
    Some("unspecified error"),
    Some("bad process"),
    Some("invalid parameter"),
    Some("out of memory"),
    Some("out of processes"),
    Some("segmentation fault"),
    None,
    Some("invalid elf file"),
    Some("process is killed"),
    Some("panic failure"),
    None,
    None,
    Some("no such device"),
    Some("device not available"),
    Some("device/file is busy"),
    Some("no such file or directory"),
    Some("is a directory"),
    Some("not a directory"),
    Some("cross device link"),
    Some("unimplemented feature"),
    Some("illegal seek"),
    Some("too many files are open"),
    Some("file or directory already exists"),
    Some("directory is not empty")
  ]

  function ErrorString(e: nat): Option<string> {
    if e <= MAXERROR then ERROR_STRINGS[e] else None
  }

  function ErrorText(e: nat): string {
    match ErrorString(e)
    case Some(s) => s
    case None => "error " + Numeral(e, 10)
  }

  // ----- one escape

  /** process_precision */
  function SetPrecision(sp: Spec, v: int): Spec {
    if sp.width < 0 then sp.(width := v, precision := -1) else sp.(precision := v)
  }

  predicate IsDigit(c: char) {
    '0' <= c <= '9'
  }

  /** The digit loop from `i` on; overflowing an int is undefined. */
  function Digits(t: CString, i: nat, p: nat): (r: Option<(nat, nat)>)
    requires i < |t| && IsDigit(t[i])
    ensures r.Some? ==> i < r.value.1 <= |t|
    decreases |t| - i
  {
    if p * 10 + t[i] as int > INT_MAX then None
    else
      var v := p * 10 + t[i] as int - '0' as int;
      if i + 1 < |t| && IsDigit(t[i + 1]) then Digits(t, i + 1, v) else Some((v, i + 1))
  }

  datatype Flagged = Flagged(at: nat, sp: Spec, args: seq<Arg>)

  /** The flags that only set a field; a dot without a width stands for width 0. */
  function Toggle(c: char, sp: Spec): Option<Spec> {
    match c
    case '-' => Some(sp.(padc := '-'))
    case '0' => Some(sp.(padc := '0'))
    case '.' => Some(if sp.width < 0 then sp.(width := 0) else sp)
    case '#' => Some(sp.(alt := true))
    case 'l' => Some(sp.(lflag := sp.lflag + 1))
    case _ => None
  }

  /** The flags from `i` on, up to the character that is none; taking an argument that is not there is undefined. */
  function Flags(t: CString, i: nat, sp: Spec, args: seq<Arg>): (r: Option<Flagged>)
    requires i <= |t|
    ensures r.Some? ==> i <= r.value.at <= |t| && forall k :: i <= k < r.value.at ==> t[k] != '%'
    decreases |t| - i
  {
    if i == |t| then Some(Flagged(i, sp, args))
    else if Toggle(t[i], sp).Some? then Flags(t, i + 1, Toggle(t[i], sp).value, args)
    else if IsDigit(t[i]) then
      var d :- Digits(t, i, 0);
      DigitsPlain(t, i, 0);
      Flags(t, d.1, SetPrecision(sp, d.0), args)
    else if t[i] == '*' then
      if args != [] && args[0].W32? then Flags(t, i + 1, SetPrecision(sp, Signed32(args[0].w)), args[1..]) else None
    else Some(Flagged(i, sp, args))
  }

  lemma DigitsPlain(t: CString, i: nat, p: nat)
    requires i < |t| && IsDigit(t[i])
    ensures Digits(t, i, p).Some? ==> forall k :: i <= k < Digits(t, i, p).value.1 ==> IsDigit(t[k])
    decreases |t| - i
  {
    if Digits(t, i, p).Some? && i + 1 < |t| && IsDigit(t[i + 1]) {
      DigitsPlain(t, i + 1, p * 10 + t[i] as int - '0' as int);
    }
  }

  datatype Conv = Undefined | Unrecognised | Text(s: string, rest: seq<Arg>)

  function Unsigned(lflag: nat, args: seq<Arg>): Option<nat> {
    if args == [] then None
    else if lflag > 0 then (if args[0].W64? then Some(args[0].l) else None)
    else if args[0].W32? then Some(args[0].w)
    else None
  }

  /** A number of the size given by the `l` flags; -2^63 has no positive counterpart. */
  function Signed(lflag: nat, args: seq<Arg>): Option<int> {
    var w :- Unsigned(lflag, args);
    var v := if lflag > 0 then Signed64(w) else Signed32(w);
    if v == -(M64 / 2) then None else Some(v)
  }

  function DecField(v: int, width: int, padc: char): string {
    if v < 0 then "-" + NumField(-v, 10, width, padc) else NumField(v, 10, width, padc)
  }

  function Number(base: nat, sp: Spec, args: seq<Arg>): Conv
    requires 2 <= base <= 16
  {
    match Unsigned(sp.lflag, args)
    case None => Undefined
    case Some(w) => Text(NumField(w, base, sp.width, sp.padc), args[1..])
  }

  /** The conversion that `c` asks for. */
  function Convert(c: char, sp: Spec, args: seq<Arg>): Conv {
    match c
    case 'c' => if args != [] && args[0].W32? then Text([(args[0].w % 256) as char], args[1..]) else Undefined
    case 'e' =>
      if args != [] && args[0].W32? && Signed32(args[0].w) != -(M32 / 2) then
        Text(ErrorText(if Signed32(args[0].w) < 0 then -Signed32(args[0].w) else Signed32(args[0].w)), args[1..])
      else Undefined
    case 's' =>
      if args == [] then Undefined
      else if args[0].Str? then Text(StrField(args[0].s, sp), args[1..])
      else if args[0].Null? then Text(StrField("(null)", sp), args[1..])
      else Undefined
    case 'd' => (match Signed(sp.lflag, args)
                 case None => Undefined
                 case Some(v) => Text(DecField(v, sp.width, sp.padc), args[1..]))
    case 'u' => Number(10, sp, args)
    case 'o' => Number(8, sp, args)
    case 'x' => Number(16, sp, args)
    case 'p' =>
      if args != [] && args[0].W64? then Text("0x" + NumField(args[0].l, 16, sp.width, sp.padc), args[1..])
      else Undefined
    case '%' => Text("%", args)
    case _ => Unrecognised
  }

  /** What is printed from `i` on; None where the C program has no defined behaviour. */
  function Printed(t: CString, i: nat, args: seq<Arg>): Option<string>
    requires i <= |t|
    decreases |t| - i
  {
    if i == |t| then Some("")
    else if t[i] != '%' then
      var rest :- Printed(t, i + 1, args);
      Some([t[i]] + rest)
    else
      var f :- Flags(t, i + 1, PLAIN, args);
      match if f.at == |t| then Unrecognised else Convert(t[f.at], f.sp, f.args)
      case Undefined => None
      case Unrecognised =>
        var rest :- Printed(t, i + 1, f.args);
        Some("%" + rest)
      case Text(s, args') =>
        var rest :- Printed(t, f.at + 1, args');
        Some(s + rest)
  }

  // ----- properties

  /** Flags, digits, star and dot. */
  predicate FlagChar(c: char) {
    IsDigit(c) || c in "-*.#l"
  }

  /** The first character from `i` on that is no flag. */
  function EscapeEnd(t: CString, i: nat): (e: nat)
    requires i <= |t|
    ensures i <= e <= |t| && (forall k :: i <= k < e ==> FlagChar(t[k])) && (e < |t| ==> !FlagChar(t[e]))
    decreases |t| - i
  {
    if i < |t| && FlagChar(t[i]) then EscapeEnd(t, i + 1) else i
  }

  function Stars(t: CString, i: nat, e: nat): nat
    requires i <= e <= |t|
    decreases e - i
  {
    if i == e then 0 else (if t[i] == '*' then 1 else 0) + Stars(t, i + 1, e)
  }

  /** No width or precision that begins in [i, e) overflows an int. */
  ghost predicate FitsInt(t: CString, i: nat, e: nat) {
    forall k :: i <= k < e && k < |t| && IsDigit(t[k]) ==> Digits(t, k, 0).Some?
  }

  /** The escape behind the `%` at `p` converts nothing. */
  ghost predicate Foreign(t: CString, p: nat)
    requires p < |t|
  {
    var e := EscapeEnd(t, p + 1);
    FitsInt(t, p + 1, e) && (e < |t| ==> t[e] !in "cesduoxp%")
  }

  /** The stars of all escapes from `i` on. */
  function AllStars(t: CString, i: nat): nat
    requires i <= |t|
    decreases |t| - i
  {
    if i == |t| then 0
    else (if t[i] == '%' then Stars(t, i + 1, EscapeEnd(t, i + 1)) else 0) + AllStars(t, i + 1)
  }

  /** The first `n` arguments are there, and ints. */
  ghost predicate Ints(args: seq<Arg>, n: nat) {
    n <= |args| && forall k :: 0 <= k < n ==> args[k].W32?
  }

  lemma IntsSplit(args: seq<Arg>, m: nat, n: nat)
    ensures Ints(args, m + n) <==> Ints(args, m) && Ints(args[m..], n)
  {
    if Ints(args, m) && Ints(args[m..], n) {
      forall k | 0 <= k < m + n ensures args[k].W32? {
        assert k >= m ==> args[m..][k - m].W32?;
      }
    }
    if Ints(args, m + n) {
      forall k | 0 <= k < n ensures args[m..][k].W32? {
        assert args[m..][k] == args[m + k];
      }
    }
  }

  lemma {:induction false} DigitRun(t: CString, i: nat, j: nat)
    requires i <= j <= |t| && forall k :: i <= k < j ==> IsDigit(t[k])
    ensures EscapeEnd(t, i) == EscapeEnd(t, j) >= j
    ensures Stars(t, i, EscapeEnd(t, i)) == Stars(t, j, EscapeEnd(t, j))
    decreases j - i
  {
    if i < j {
      DigitRun(t, i + 1, j);
    }
  }

  /** A star takes an int. */
  lemma StarRead(args: seq<Arg>, n: nat)
    requires n > 0
    ensures Ints(args, n) <==> args != [] && args[0].W32? && Ints(args[1..], n - 1)
    ensures Ints(args, n) ==> args[1..][n - 1..] == args[n..]
  {
    IntsSplit(args, 1, n - 1);
  }

  lemma FitsLater(t: CString, i: nat, j: nat, e: nat)
    requires FitsInt(t, i, e) && i <= j
    ensures FitsInt(t, j, e) && (i < e <= |t| && IsDigit(t[i]) ==> Digits(t, i, 0).Some?)
  {
  }

  /** Reading the flags stops at the end of the escape and takes one int for each star. */
  lemma {:induction false} FlagsRead(t: CString, i: nat, sp: Spec, args: seq<Arg>)
    requires i <= |t| && FitsInt(t, i, EscapeEnd(t, i))
    ensures var (r, e, n) := (Flags(t, i, sp, args), EscapeEnd(t, i), Stars(t, i, EscapeEnd(t, i)));
      && (r.Some? <==> Ints(args, n))
      && (r.Some? ==> r.value.at == e && r.value.args == args[n..])
    decreases |t| - i
  {
    hide Digits, SetPrecision, Signed32, FitsInt;
    if i < |t| && FlagChar(t[i]) {
      FitsLater(t, i, i + 1, EscapeEnd(t, i));
      if t[i] == '*' {
        hide Ints;
        StarRead(args, Stars(t, i, EscapeEnd(t, i)));
        if args != [] && args[0].W32? {
          FlagsRead(t, i + 1, SetPrecision(sp, Signed32(args[0].w)), args[1..]);
        }
      } else if IsDigit(t[i]) && t[i] != '0' {
        var d := Digits(t, i, 0).value;
        DigitsPlain(t, i, 0);
        DigitRun(t, i, d.1);
        FitsLater(t, i, d.1, EscapeEnd(t, i));
        FlagsRead(t, d.1, SetPrecision(sp, d.0), args);
      } else {
        FlagsRead(t, i + 1, Toggle(t[i], sp).value, args);
      }
    }
  }

  /** The characters that convert something. */
  lemma Converts(c: char, sp: Spec, args: seq<Arg>)
    ensures Convert(c, sp, args).Unrecognised? <==> c !in "cesduoxp%"
  {
  }

  /**
   * A format in which every `%` starts an unrecognised escape is printed as it stands, provided its stars find
   * ints among the arguments; otherwise its behaviour is undefined.
   */
  lemma {:induction false} Verbatim(t: CString, i: nat, args: seq<Arg>)
    requires i <= |t| && forall p :: i <= p < |t| && t[p] == '%' ==> Foreign(t, p)
    ensures Printed(t, i, args) == if Ints(args, AllStars(t, i)) then Some(t[i..]) else None
    decreases |t| - i
  {
    if i < |t| {
      assert t[i..] == [t[i]] + t[i + 1..];
      if t[i] == '%' {
        var e, n := EscapeEnd(t, i + 1), Stars(t, i + 1, EscapeEnd(t, i + 1));
        assert Foreign(t, i);
        FlagsRead(t, i + 1, PLAIN, args);
        IntsSplit(args, n, AllStars(t, i + 1));
        hide Flags, Convert, EscapeEnd, Stars, Ints, Digits;
        var f := Flags(t, i + 1, PLAIN, args);
        if f.Some? {
          if e < |t| {
            Converts(t[e], f.value.sp, f.value.args);
          }
          Verbatim(t, i + 1, args[n..]);
        }
      } else {
        Verbatim(t, i + 1, args);
      }
    }
  }

  /** A field is as wide as asked for, or as wide as its contents. */
  lemma FieldWidths(num: nat, base: nat, s: string, sp: Spec)
    requires 2 <= base <= 16
    ensures var (d, n) := (|Numeral(num, base)|, if 0 <= sp.precision < |s| then sp.precision else |s|);
      && |NumField(num, base, sp.width, sp.padc)| == (if d > sp.width then d else sp.width)
      && |StrField(s, sp)| == (if n > sp.width then n else sp.width)
  {
  }

  /** Text without a `%` is copied. */
  lemma {:induction false} Copied(t: CString, i: nat, j: nat, args: seq<Arg>)
    requires i <= j <= |t| && forall k :: i <= k < j ==> t[k] != '%'
    ensures Printed(t, i, args) ==
      if Printed(t, j, args).None? then None else Some(t[i..j] + Printed(t, j, args).value)
    decreases j - i
  {
    if i < j {
      Copied(t, i + 1, j, args);
      assert t[i..j] == [t[i]] + t[i + 1..j];
      if Printed(t, j, args).Some? {
        var rest := Printed(t, j, args).value;
        assert [t[i]] + (t[i + 1..j] + rest) == t[i..j] + rest;
      }
    } else if Printed(t, j, args).Some? {
      assert t[i..j] + Printed(t, j, args).value == Printed(t, j, args).value;
    }
  }

  /** A bare conversion at the end of a format. */
  lemma LastConversion(t: CString, i: nat, args: seq<Arg>)
    requires i + 2 == |t| && t[i] == '%' && t[i + 1] in "sd" && Convert(t[i + 1], PLAIN, args).Text?
    ensures Printed(t, i, args) == Some(Convert(t[i + 1], PLAIN, args).s)
  {
    hide Convert;
    assert Flags(t, i + 1, PLAIN, args) == Some(Flagged(i + 1, PLAIN, args));
    var c := Convert(t[i + 1], PLAIN, args);
    assert Printed(t, |t|, c.rest) == Some("");
    assert c.s + "" == c.s;
  }

  lemma PlainString(s: string)
    ensures StrField(s, PLAIN) == s
  {
    assert Masked(s[..|s|], false) == s;
    assert s + Repeat(' ', -1 - |s|) == s;
  }

  lemma PlainNumber(num: nat)
    ensures NumField(num, 10, -1, ' ') == Numeral(num, 10)
  {
  }

  /** Text and a bare conversion behind it. */
  lemma TextThenConversion(t: CString, text: string, c: char, args: seq<Arg>)
    requires t == text + ['%', c] && '%' !in text && c in "sd" && Convert(c, PLAIN, args).Text?
    ensures Printed(t, 0, args) == Some(text + Convert(c, PLAIN, args).s)
  {
    hide Convert, Printed;
    LastConversion(t, |text|, args);
    Copied(t, 0, |text|, args);
    assert t[0..|text|] == text;
  }

  /** The two nested printfmt calls behind `%e` print what ErrorText says. */
  lemma NestedString(s: CString)
    ensures Printed("%s", 0, [Str(s)]) == Some(s)
  {
    PlainString(s);
    assert Convert('s', PLAIN, [Str(s)]) == Text(s, []);
    hide *;
    TextThenConversion("%s", "", 's', [Str(s)]);
    assert "" + s == s;
  }

  lemma NestedNumber(e: nat)
    requires e <= INT_MAX
    ensures Printed("error %d", 0, [W32(e)]) == Some("error " + Numeral(e, 10))
  {
    PlainNumber(e);
    assert Convert('d', PLAIN, [W32(e)]) == Text(Numeral(e, 10), []);
    hide *;
    TextThenConversion("error %d", "error ", 'd', [W32(e)]);
  }

  lemma NestedCalls(e: nat, s: CString)
    requires e <= INT_MAX
    ensures Printed("%s", 0, [Str(s)]) == Some(s)
    ensures Printed("error %d", 0, [W32(e)]) == Some("error " + Numeral(e, 10))
  {
    hide *;
    NestedString(s);
    NestedNumber(e);
  }
}
