/** vprintfmt and vsnprintf as loops over a cursor and a buffer that is filled in place. */
module Printfmt {
  import opened Basics
  import opened Wrappers
  import opened Format

  const E_INVAL := 3

  /** struct sprintbuf; `log` is everything put so far, `before` what the memory held at first. */
  class SprintBuf {
    const mem: array<char>
    var buf: nat
    const ebuf: nat
    var cnt: nat
    ghost var log: string
    ghost const before: seq<char>

    ghost predicate Valid()
      reads this, mem
    {
      && ebuf < mem.Length == |before| && cnt == |log|
      && buf == (if |log| < ebuf then |log| else ebuf)
      && mem[..] == log[..buf] + before[buf..]
    }

    constructor (str: array<char>, size: nat)
      requires 0 < size <= str.Length
      ensures Valid() && mem == str && ebuf == size - 1 && before == str[..] && log == ""
    {
      mem, buf, ebuf, cnt := str, 0, size - 1, 0;
      log, before := "", str[..];
    }

    /** sprintputch */
    method Putch(ch: char)
      requires Valid()
      modifies this, mem
      ensures Valid() && log == old(log) + [ch]
    {
      ghost var was := mem[..];
      cnt := cnt + 1;
      if buf < ebuf {
        mem[buf] := ch;
        buf := buf + 1;
      }
      log := log + [ch];
      assert mem[..] == log[..buf] + before[buf..];
    }

    /** The NUL behind the stored text, and the number of characters put. */
    method Finish() returns (count: nat)
      requires Valid()
      modifies mem
      ensures count == |log| && Stored(before, mem[..], ebuf + 1, log)
    {
      ghost var was := mem[..];
      mem[buf] := NUL;
      count := cnt;
      assert mem[..] == was[buf := NUL];
    }

    /** `n` times the same character, none if `n` is negative. */
    method Pad(ch: char, n: int)
      requires Valid()
      modifies this, mem
      ensures Valid() && log == old(log) + Repeat(ch, n)
    {
      var width := n;
      while width > 0
        invariant Valid() && (n > 0 ==> 0 <= width <= n)
        invariant log == old(log) + Repeat(ch, if n > 0 then n - width else 0)
      {
        Putch(ch);
        width := width - 1;
      }
    }

    /** printnum: the digits before the last one first, the padding before all of them. */
    method PrintNum(num: nat, base: nat, width: int, padc: char)
      requires Valid() && 2 <= base <= 16
      modifies this, mem
      ensures Valid() && log == old(log) + NumField(num, base, width, padc)
      decreases num
    {
      hide Valid, NumField, Repeat, Digit;
      Divide(num, base);
      NumFieldStep(num, base, width, padc, log);
      var result, mod := num / base, num % base;
      if num >= base {
        PrintNum(result, base, width - 1, padc);
      } else {
        Pad(padc, width - 1);
      }
      Putch(Digit(mod));
    }

    /** The `%s` conversion; the string ends at its NUL, so `k == |s|` stands for `*p == '\0'`. */
    method PutString(s: string, sp: Spec)
      requires Valid()
      modifies this, mem
      ensures Valid() && log == old(log) + StrField(s, sp)
    {
      hide Valid, Repeat, Masked;
      var width, precision, k: nat := sp.width, sp.precision, 0;
      ghost var n := Shown(s, precision);
      StrFieldIs(s, sp, log);
      if width > 0 && sp.padc != '-' {
        var len := Strnlen(s, precision);
        width := width - len;
        Pad(sp.padc, width);
        width := if width > 0 then 0 else width;
      }
      ghost var start, width0 := log, width;
      MaskedNone(s, sp.alt, log);
      while k < |s| && (precision < 0 || precision - 1 >= 0)
        invariant Valid() && k <= n && width == width0 - k
        invariant precision == (if sp.precision < 0 then sp.precision else sp.precision - k)
        invariant log == start + Masked(s[..k], sp.alt)
      {
        precision := if precision < 0 then precision else precision - 1;
        MaskedStep(s, k, sp.alt, start);
        if sp.alt && (s[k] < ' ' || s[k] > '~') {
          Putch('?');
        } else {
          Putch(s[k]);
        }
        k := k + 1;
        width := width - 1;
      }
      NoPad(' ', width, log);
      Pad(' ', width);
    }

    /** The `switch` behind a `%`: what `c` asks for, and whether the escape was recognised. */
    method PutConversion(c: char, sp: Spec, args: seq<Arg>) returns (ok: bool, known: bool, rest: seq<Arg>)
      requires Valid()
      modifies this, mem
      ensures ok <==> !Convert(c, sp, args).Undefined?
      ensures ok ==> Valid() && (known <==> Convert(c, sp, args).Text?)
      ensures ok && !known ==> log == old(log) && rest == args
      ensures ok && known ==> old(log) <= log && Convert(c, sp, args) == Text(log[|old(log)|..], rest)
      ensures c == NUL ==> ok && !known
    {
      hide Valid, NumField, StrField, Repeat, ErrorText;
      ok, known, rest := true, true, args;
      ghost var was := log;
      match c {
        case 'c' =>
          if args == [] || !args[0].W32? {
            return false, false, args;
          }
          Putch((args[0].w % 256) as char);
          rest := args[1..];
        case 'e' =>
          if args == [] || !args[0].W32? || Signed32(args[0].w) == -(M32 / 2) {
            return false, false, args;
          }
          var err := Signed32(args[0].w);
          PutError(if err < 0 then -err else err);
          rest := args[1..];
        case 's' =>
          if args == [] || !(args[0].Str? || args[0].Null?) {
            return false, false, args;
          }
          PutString(if args[0].Str? then args[0].s else "(null)", sp);
          rest := args[1..];
        case 'd' =>
          var v := GetInt(sp.lflag, args);
          if v.None? {
            return false, false, args;
          }
          var num := v.value;
          if num < 0 {
            Putch('-');
            num := -num;
          }
          PrintNum(num, 10, sp.width, sp.padc);
          rest := args[1..];
        case 'p' =>
          if args == [] || !args[0].W64? {
            return false, false, args;
          }
          Putch('0');
          Putch('x');
          PrintNum(args[0].l, 16, sp.width, sp.padc);
          rest := args[1..];
        case 'u' => ok, rest := PutUnsigned(10, sp, args);
        case 'o' => ok, rest := PutUnsigned(8, sp, args);
        case 'x' => ok, rest := PutUnsigned(16, sp, args);
        case '%' => Putch('%');
        case _ => known := false;
      }
    }

    method PutUnsigned(base: nat, sp: Spec, args: seq<Arg>) returns (ok: bool, rest: seq<Arg>)
      requires Valid() && 2 <= base <= 16
      modifies this, mem
      ensures ok <==> Number(base, sp, args).Text?
      ensures ok ==> Valid() && old(log) <= log && Number(base, sp, args) == Text(log[|old(log)|..], rest)
    {
      hide Valid, NumField;
      ok, rest := false, args;
      if args != [] && (if sp.lflag > 0 then args[0].W64? else args[0].W32?) {
        PrintNum(if sp.lflag > 0 then args[0].l else args[0].w, base, sp.width, sp.padc);
        ok, rest := true, args[1..];
      }
    }

    method PutError(err: nat)
      requires Valid()
      modifies this, mem
      ensures Valid() && log == old(log) + ErrorText(err)
    {
      hide Valid, NumField, StrField;
      if err > MAXERROR || ErrorString(err).None? {
        PlainString("error ");
        PlainNumber(err);
        PutString("error ", PLAIN);
        PrintNum(err, 10, -1, ' ');
        assert old(log) + ("error " + Numeral(err, 10)) == old(log) + "error " + Numeral(err, 10);
      } else {
        PlainString(ErrorString(err).value);
        PutString(ErrorString(err).value, PLAIN);
      }
    }

    /** vprintfmt; false where the behaviour is undefined. Every read of `fmt` is at or before its NUL. */
    method Vprintfmt(fmt: seq<char>, args: seq<Arg>, ghost t: CString) returns (ok: bool)
      requires Valid() && fmt == t + [NUL]
      modifies this, mem
      ensures ok <==> Printed(t, 0, args).Some?
      ensures ok ==> Valid() && log == old(log) + Printed(t, 0, args).value
    {
      hide Valid, Flags, Convert, Ahead;
      ok := true;
      var i: nat, ap := 0, args;
      AheadStart(t, args, log);
      while true
        invariant Valid() && i <= |t|
        invariant Ahead(t, args, old(log), i, ap, log)
        decreases |t| - i
      {
        var ch := fmt[i];
        if ch == NUL {
          AheadDone(t, args, old(log), ap, log);
          return;
        }
        i := i + 1;
        if ch != '%' {
          AheadStep(t, args, old(log), i - 1, ap, log, [ch], i, ap);
          Putch(ch);
        } else {
          ghost var mark, ap0, log0 := i, ap, log;
          var sp, known;
          ok, i, sp, ap := ReadFlags(fmt, i, ap, t);
          if !ok {
            AheadStuck(t, args, old(log), mark - 1, ap0, log);
            return;
          }
          ch := fmt[i];
          i := i + 1;
          ok, known, ap := PutConversion(ch, sp, ap);
          if !ok {
            AheadStuck(t, args, old(log), mark - 1, ap0, log0);
            return;
          }
          if !known {
            Putch('%');
            i := i - 1;
            while fmt[i - 1] != '%'
              invariant mark <= i <= |t| && forall k :: mark <= k < i ==> t[k] != '%'
              decreases i
            {
              i := i - 1;
            }
            AheadStep(t, args, old(log), mark - 1, ap0, log0, "%", mark, ap);
          } else {
            assert log == log0 + log[|log0|..];
            AheadStep(t, args, old(log), mark - 1, ap0, log0, log[|log0|..], i, ap);
          }
        }
      }
    }
  }

  /** With `out` put so far, what the whole format prints is `out` and what is printed from `i` on. */
  ghost predicate Ahead(t: CString, args: seq<Arg>, was: string, i: nat, ap: seq<Arg>, log: string) {
    && i <= |t| && was <= log
    && Printed(t, 0, args) == if Printed(t, i, ap).None? then None
                              else Some(log[|was|..] + Printed(t, i, ap).value)
  }

  lemma AheadStart(t: CString, args: seq<Arg>, was: string)
    ensures Ahead(t, args, was, 0, args, was)
  {
    hide Printed;
    if Printed(t, 0, args).Some? {
      assert was[|was|..] + Printed(t, 0, args).value == Printed(t, 0, args).value;
    }
  }

  /** A further step puts `s` and goes on at `j`. */
  lemma AheadStep(t: CString, args: seq<Arg>, was: string, i: nat, ap: seq<Arg>, log: string,
                  s: string, j: nat, ap': seq<Arg>)
    requires Ahead(t, args, was, i, ap, log) && j <= |t|
    requires Printed(t, i, ap) == if Printed(t, j, ap').None? then None else Some(s + Printed(t, j, ap').value)
    ensures Ahead(t, args, was, j, ap', log + s)
  {
    hide Printed;
    assert (log + s)[|was|..] == log[|was|..] + s;
    if Printed(t, j, ap').Some? {
      var rest := Printed(t, j, ap').value;
      assert log[|was|..] + (s + rest) == log[|was|..] + s + rest;
    }
  }

  lemma AheadStuck(t: CString, args: seq<Arg>, was: string, i: nat, ap: seq<Arg>, log: string)
    requires Ahead(t, args, was, i, ap, log) && Printed(t, i, ap).None?
    ensures Printed(t, 0, args).None?
  {
  }

  lemma AheadDone(t: CString, args: seq<Arg>, was: string, ap: seq<Arg>, log: string)
    requires Ahead(t, args, was, |t|, ap, log)
    ensures Printed(t, 0, args) == Some(log[|was|..]) && log == was + log[|was|..]
  {
    assert log[|was|..] + "" == log[|was|..];
  }

  /** getint */
  method GetInt(lflag: nat, args: seq<Arg>) returns (r: Option<int>)
    ensures r == Signed(lflag, args)
  {
    if args == [] || !(if lflag > 0 then args[0].W64? else args[0].W32?) {
      return None;
    }
    var v := if lflag > 0 then Signed64(args[0].l) else Signed32(args[0].w);
    r := if v == -(M64 / 2) then None else Some(v);
  }

  /** The `for` loop of a width field whose first digit is `ch`, the cursor just behind it. */
  method ReadDigits(fmt: seq<char>, first: char, start: nat, ghost t: CString) returns (ok: bool, v: nat, i: nat)
    requires fmt == t + [NUL] && 0 < start <= |t| && first == t[start - 1] && IsDigit(first)
    ensures ok <==> Digits(t, start - 1, 0).Some?
    ensures ok ==> Digits(t, start - 1, 0) == Some((v, i))
  {
    var ch := first;
    ok, v, i := true, 0, start;
    while true
      invariant start <= i <= |t| && ch == t[i - 1] && IsDigit(ch)
      invariant Digits(t, start - 1, 0) == Digits(t, i - 1, v)
      decreases |t| - i
    {
      if v * 10 + ch as int > INT_MAX {
        return false, 0, i;
      }
      v := v * 10 + ch as int - '0' as int;
      ch := fmt[i];
      if !IsDigit(ch) {
        break;
      }
      i := i + 1;
    }
  }

  /** The `reswitch` loop over flags, width and precision, up to the character that is none of them. */
  method ReadFlags(fmt: seq<char>, start: nat, args: seq<Arg>, ghost t: CString)
    returns (ok: bool, i: nat, sp: Spec, ap: seq<Arg>)
    requires fmt == t + [NUL] && start <= |t|
    ensures ok <==> Flags(t, start, PLAIN, args).Some?
    ensures ok ==> Flags(t, start, PLAIN, args) == Some(Flagged(i, sp, ap))
  {
    ok, i, sp, ap := true, start, PLAIN, args;
    while true
      invariant start <= i <= |t| && Flags(t, start, PLAIN, args) == Flags(t, i, sp, ap)
      decreases |t| - i
    {
      var ch := fmt[i];
      if ch == '-' {
        sp := sp.(padc := '-');
      } else if ch == '0' {
        sp := sp.(padc := '0');
      } else if IsDigit(ch) {
        var precision, j;
        ok, precision, j := ReadDigits(fmt, ch, i + 1, t);
        if !ok {
          return;
        }
        sp := SetPrecision(sp, precision);
        i := j - 1;
      } else if ch == '*' {
        if ap == [] || !ap[0].W32? {
          return false, i, sp, ap;
        }
        sp, ap := SetPrecision(sp, Signed32(ap[0].w)), ap[1..];
      } else if ch == '.' {
        if sp.width < 0 {
          sp := sp.(width := 0);
        }
      } else if ch == '#' {
        sp := sp.(alt := true);
      } else if ch == 'l' {
        sp := sp.(lflag := sp.lflag + 1);
      } else {
        return;
      }
      i := i + 1;
    }
  }

  lemma NoPad(c: char, n: int, was: string)
    ensures n <= 0 ==> was + Repeat(c, n) == was
  {
  }

  lemma StrFieldIs(s: string, sp: Spec, was: string)
    ensures var (n, body) := (Shown(s, sp.precision), Masked(s[..Shown(s, sp.precision)], sp.alt));
      was + StrField(s, sp) ==
        if sp.width > 0 && sp.padc != '-' then was + Repeat(sp.padc, sp.width - n) + body
        else was + body + Repeat(' ', sp.width - n)
  {
    var (n, body) := (Shown(s, sp.precision), Masked(s[..Shown(s, sp.precision)], sp.alt));
    assert was + (Repeat(sp.padc, sp.width - n) + body) == was + Repeat(sp.padc, sp.width - n) + body;
    assert was + (body + Repeat(' ', sp.width - n)) == was + body + Repeat(' ', sp.width - n);
  }

  lemma MaskedNone(s: string, alt: bool, was: string)
    ensures was + Masked(s[..0], alt) == was
  {
  }

  lemma Divide(num: nat, base: nat)
    requires 2 <= base <= 16
    ensures num % base < base && num / base <= num && (num >= base ==> num / base < num)
    ensures num < base ==> num % base == num
  {
  }

  lemma NumFieldStep(num: nat, base: nat, width: int, padc: char, was: string)
    requires 2 <= base <= 16
    ensures num % base < 16
    ensures was + NumField(num, base, width, padc) ==
      was + (if num >= base then NumField(num / base, base, width - 1, padc) else Repeat(padc, width - 1))
      + [Digit(num % base)]
  {
    hide Digit, Repeat;
    Divide(num, base);
    var d := [Digit(num % base)];
    if num >= base {
      var pads, rest := Repeat(padc, width - 1 - |Numeral(num / base, base)|), Numeral(num / base, base);
      assert pads + (rest + d) == pads + rest + d;
      assert was + (pads + rest + d) == was + (pads + rest) + d;
    } else {
      assert was + (Repeat(padc, width - 1) + d) == was + Repeat(padc, width - 1) + d;
    }
  }

  lemma MaskedStep(s: string, k: nat, alt: bool, was: string)
    requires k < |s|
    ensures was + Masked(s[..k + 1], alt)
         == was + Masked(s[..k], alt) + [if alt && (s[k] < ' ' || s[k] > '~') then '?' else s[k]]
  {
    assert Masked(s[..k + 1], alt) == Masked(s[..k], alt) + [if alt && (s[k] < ' ' || s[k] > '~') then '?' else s[k]];
  }

  /** A negative length is a huge one once it is a size_t. */
  method Strnlen(s: string, len: int) returns (cnt: nat)
    ensures cnt == if 0 <= len < |s| then len else |s|
  {
    cnt := 0;
    while (len < 0 || cnt < len) && cnt < |s|
      invariant cnt <= Shown(s, len)
    {
      cnt := cnt + 1;
    }
  }

  /** The first min(|out|, size - 1) characters of the text, a NUL, and the rest as it was. */
  ghost predicate Stored(was: seq<char>, now: seq<char>, size: nat, out: string) {
    var n := if |out| < size then |out| else size - 1;
    0 < size <= |was| && now == out[..n] + [NUL] + was[n + 1..]
  }

  /**
   * vsnprintf: the buffer gets as much of the text as leaves room for a NUL, nothing else in it changes, and the
   * result is the length of the whole text.
   */
  method Vsnprintf(str: array?<char>, size: nat, fmt: seq<char>, args: seq<Arg>, ghost t: CString)
    returns (ok: bool, r: int)
    requires fmt == t + [NUL] && (str != null ==> size <= str.Length)
    modifies if str != null then {str} else {}
    ensures str == null || size == 0 ==> ok && r == -3 && (str != null ==> str[..] == old(str[..]))
    ensures str != null && size > 0 ==> (ok <==> Printed(t, 0, args).Some?)
    ensures str != null && size > 0 && ok ==>
      var out := Printed(t, 0, args).value;
      r == |out| && Stored(old(str[..]), str[..], size, out)
  {
    hide Stored, Printed, SprintBuf.Valid;
    if str == null || size == 0 {
      return true, -E_INVAL;
    }
    var b := new SprintBuf(str, size);
    ok := b.Vprintfmt(fmt, args, t);
    if !ok {
      return false, 0;
    }
    r := b.Finish();
    assert b.log == Printed(t, 0, args).value;
  }
}
