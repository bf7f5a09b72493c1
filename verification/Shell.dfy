/** The shell's lexer: tokens are cut out of the command line in place, each word terminated only later. */
module Shell {
  import opened Basics
  import opened Wrappers

  const WHITESPACE := " \t\r\n"
  const SYMBOLS := "<|>&;"

  /** Whether strchr finds a character among the whitespace; this strchr does not find the NUL. */
  predicate White(c: char)
    ensures White(c) ==> c != NUL
  {
    c in WHITESPACE
  }

  /** Whether it finds it among the symbols. */
  predicate Special(c: char)
    ensures Special(c) ==> c != NUL && !White(c)
  {
    c in SYMBOLS
  }

  /** `end` is where the next token is looked for. */
  datatype Token = Symbol(at: nat, c: char) | Word(at: nat, end: nat)

  // ----- the lexer on the original text

  function Skip(t: CString, i: nat): (j: nat)
    requires i <= |t|
    ensures i <= j <= |t|
    ensures j < |t| ==> !White(t[j])
    ensures forall k :: i <= k < j ==> White(t[k])
    decreases |t| - i
  {
    if i < |t| && White(t[i]) then Skip(t, i + 1) else i
  }

  /** Where a word ends: at a separator outside quotes. */
  function WordEnd(t: CString, i: nat, quoted: bool): (e: nat)
    requires i <= |t|
    ensures i <= e <= |t|
    ensures e < |t| ==> White(t[e]) || Special(t[e])
    decreases |t| - i
  {
    if i == |t| || (!quoted && (White(t[i]) || Special(t[i]))) then i
    else WordEnd(t, i + 1, if t[i] == '"' then !quoted else quoted)
  }

  function End(k: Token): nat {
    match k
    case Symbol(at, _) => at + 1
    case Word(_, end) => end
  }

  /** The token that begins at `j`. */
  function Head(t: CString, j: nat): (k: Token)
    requires j < |t| && !White(t[j])
    ensures k.at == j < End(k) <= |t|
  {
    if Special(t[j]) then Symbol(j, t[j]) else Word(j, WordEnd(t, j, false))
  }

  function Lex(t: CString, i: nat): seq<Token>
    requires i <= |t|
    decreases |t| - i
  {
    var j := Skip(t, i);
    if j == |t| then [] else [Head(t, j)] + Lex(t, End(Head(t, j)))
  }

  /** Quotes become spaces. */
  function Blank(w: string): (r: string)
    ensures |r| == |w| && forall k :: 0 <= k < |w| ==> r[k] == if w[k] == '"' then ' ' else w[k]
  {
    seq(|w|, k requires 0 <= k < |w| => if w[k] == '"' then ' ' else w[k])
  }

  function Nuls(n: nat): (r: string)
    ensures |r| == n && forall k :: 0 <= k < n ==> r[k] == NUL
  {
    seq(n, _ => NUL)
  }

  /** What is left of a token in the buffer. */
  function Cut(t: CString, k: Token): (r: string)
    requires k.at <= End(k) <= |t|
    ensures |r| == End(k) - k.at
  {
    if k.Symbol? then [NUL] else Blank(t[k.at..k.end])
  }

  /** What becomes of the text from `i` on: separators turn to NUL, words lose their quotes. */
  function Rewrite(t: CString, i: nat): (r: string)
    requires i <= |t|
    ensures |r| == |t| - i
    decreases |t| - i
  {
    var j := Skip(t, i);
    if j == |t| then Nuls(j - i)
    else Nuls(j - i) + Cut(t, Head(t, j)) + Rewrite(t, End(Head(t, j)))
  }

  /** The line with everything before `p` replaced by `done`, and whatever lies behind its NUL. */
  function Line(done: string, t: CString, p: nat, tail: string): string
    requires p <= |t|
  {
    done + t[p..] + [NUL] + tail
  }

  /** The line once everything before `p` is consumed. */
  function Buffer(t: CString, p: nat, tail: string): string
    requires p <= |t|
  {
    Line(Rewrite(t, 0)[..p], t, p, tail)
  }

  /** `p` is a place where a token may begin. */
  ghost predicate Reached(t: CString, p: nat) {
    p <= |t| && Rewrite(t, 0)[p..] == Rewrite(t, p)
  }

  lemma LineStep(done: string, t: CString, p: nat, tail: string, c: char)
    requires p < |t| && |done| == p
    ensures Line(done, t, p, tail)[p := c] == Line(done + [c], t, p + 1, tail)
  {
  }

  /** What the scan sees at `p`. */
  lemma LineHead(done: string, t: CString, p: nat, tail: string)
    requires p <= |t| && |done| == p
    ensures |Line(done, t, p, tail)| > p && Line(done, t, p, tail)[p] == if p < |t| then t[p] else NUL
  {
  }

  lemma SplitAt<T>(r: seq<T>, p: nat, part: seq<T>, rest: seq<T>)
    requires p <= |r| && r[p..] == part + rest
    ensures |r| == p + |part| + |rest|
    ensures r[p + |part|..] == rest && r[..p + |part|] == r[..p] + part
  {
    assert r == r[..p] + (part + rest);
  }

  lemma Advance(t: CString, p: nat, q: nat, part: string)
    requires Reached(t, p) && p <= q <= |t| && |part| == q - p && Rewrite(t, p) == part + Rewrite(t, q)
    ensures Reached(t, q) && Rewrite(t, 0)[..q] == Rewrite(t, 0)[..p] + part
  {
    hide Rewrite;
    SplitAt(Rewrite(t, 0), p, part, Rewrite(t, q));
  }

  /** After trailing whitespace the place where it began holds a NUL. */
  lemma Behind(done: string, t: CString, p: nat, tail: string)
    requires p <= |t| && |done| == p
    ensures Line(done + Nuls(|t| - p), t, |t|, tail)[p] == NUL
  {
  }

  lemma NulsStep(done: string, n: nat)
    ensures done + Nuls(n) + [NUL] == done + Nuls(n + 1)
  {
    assert Nuls(n) + [NUL] == Nuls(n + 1);
  }

  lemma BlankStep(t: CString, i: nat, s: nat, done: string)
    requires i <= s < |t|
    ensures done + Blank(t[i..s + 1]) == done + Blank(t[i..s]) + [if t[s] == '"' then ' ' else t[s]]
  {
    assert Blank(t[i..s + 1]) == Blank(t[i..s]) + [if t[s] == '"' then ' ' else t[s]];
  }

  lemma SkipTo(t: CString, i: nat, j: nat)
    requires i <= j <= |t| && forall k :: i <= k < j ==> White(t[k])
    ensures Skip(t, i) == Skip(t, j)
    decreases j - i
  {
    if i < j {
      SkipTo(t, i + 1, j);
    }
  }

  /** Consuming trailing whitespace. */
  lemma AtEnd(t: CString, p: nat)
    requires Reached(t, p) && Skip(t, p) == |t|
    ensures Lex(t, p) == [] && Reached(t, |t|) && Rewrite(t, 0)[..|t|] == Rewrite(t, 0)[..p] + Nuls(|t| - p)
  {
    Advance(t, p, |t|, Nuls(|t| - p));
  }

  /** Consuming a token and the whitespace before it. */
  lemma AtToken(t: CString, p: nat, j: nat)
    requires Reached(t, p) && j == Skip(t, p) < |t|
    ensures var k := Head(t, j);
      && Lex(t, p) == [k] + Lex(t, End(k)) && Reached(t, End(k))
      && Rewrite(t, 0)[..End(k)] == Rewrite(t, 0)[..p] + Nuls(j - p) + Cut(t, k)
  {
    var k := Head(t, j);
    hide White, Special, Head, Cut, Skip;
    Advance(t, p, End(k), Nuls(j - p) + Cut(t, k));
    assert Rewrite(t, 0)[..p] + (Nuls(j - p) + Cut(t, k)) == Rewrite(t, 0)[..p] + Nuls(j - p) + Cut(t, k);
  }

  // ----- what the tokens are

  predicate Space(c: char) {
    c == ' ' || c == '\t' || c == '\r' || c == '\n'
  }

  predicate Sign(c: char) {
    c == '<' || c == '|' || c == '>' || c == '&' || c == ';'
  }

  predicate Separator(c: char) {
    Space(c) || Sign(c)
  }

  /** Inside an odd number of quotes. */
  predicate Quoted(t: CString, at: nat, x: nat)
    requires at <= x <= |t|
    decreases x - at
  {
    x > at && (Quoted(t, at, x - 1) != (t[x - 1] == '"'))
  }

  ghost predicate Inside(t: CString, at: nat, x: nat) {
    at <= x < |t| && (Separator(t[x]) ==> Quoted(t, at, x))
  }

  lemma {:induction false} WordEndOk(t: CString, at: nat, i: nat)
    requires at <= i <= |t|
    ensures var e := WordEnd(t, i, Quoted(t, at, i));
      && (forall x :: i <= x < e ==> Inside(t, at, x))
      && (e < |t| ==> Separator(t[e]) && !Quoted(t, at, e))
    decreases |t| - i
  {
    if i < |t| && (Quoted(t, at, i) || !Separator(t[i])) {
      WordEndOk(t, at, i + 1);
    }
  }

  ghost predicate TokenOk(t: CString, k: Token) {
    match k
    case Symbol(at, c) => at < |t| && t[at] == c && Sign(c)
    case Word(at, end) =>
      && at < end <= |t| && !Separator(t[at]) && (forall x :: at <= x < end ==> Inside(t, at, x))
      && (end < |t| ==> Separator(t[end]) && !Quoted(t, at, end))
  }

  lemma HeadOk(t: CString, j: nat)
    requires j < |t| && !White(t[j])
    ensures TokenOk(t, Head(t, j))
  {
    WordEndOk(t, j, j);
  }

  /** In order, apart, and between them nothing but whitespace. */
  ghost predicate Tiles(t: CString, i: nat, ks: seq<Token>)
    decreases |ks|
  {
    if ks == [] then forall x :: i <= x < |t| ==> Space(t[x])
    else i <= ks[0].at && (forall x :: i <= x < ks[0].at && x < |t| ==> Space(t[x])) && Tiles(t, End(ks[0]), ks[1..])
  }

  /**
   * The tokens cover the text but for whitespace; a word reaches from a character that is no separator as far
   * as the separators are quoted.
   */
  lemma {:induction false} LexOk(t: CString, i: nat)
    requires i <= |t|
    ensures Tiles(t, i, Lex(t, i)) && forall k :: k in Lex(t, i) ==> TokenOk(t, k)
    decreases |t| - i
  {
    hide Special, TokenOk;
    var j := Skip(t, i);
    if j < |t| {
      HeadOk(t, j);
      LexOk(t, End(Head(t, j)));
    }
  }

  const LINE := "a>\"b c\"\n"

  lemma QuotedWord()
    ensures WordEnd(LINE, 2, false) == 7
  {
    hide White, Special;
    assert !Separator(LINE[2]) && !Separator(LINE[3]) && Separator(LINE[7]) && LINE[6] == '"';
    SetsAre(LINE[2]);
    SetsAre(LINE[7]);
    assert WordEnd(LINE, 7, false) == 7;
    assert WordEnd(LINE, 6, true) == 7;
    assert WordEnd(LINE, 5, true) == 7;
    assert WordEnd(LINE, 4, true) == 7;
    assert WordEnd(LINE, 3, true) == 7;
  }

  lemma SetsAre(c: char)
    ensures (White(c) <==> Space(c)) && (Special(c) <==> Sign(c))
  {
  }

  lemma LineHeads()
    ensures Skip(LINE, 0) == 0 && Head(LINE, 0) == Word(0, 1)
    ensures Skip(LINE, 1) == 1 && Head(LINE, 1) == Symbol(1, '>')
    ensures Skip(LINE, 2) == 2 && Head(LINE, 2) == Word(2, 7) && Skip(LINE, 7) == 8
  {
    hide White, Special;
    QuotedWord();
    SetsAre(LINE[0]);
    SetsAre(LINE[1]);
    SetsAre(LINE[2]);
    SetsAre(LINE[7]);
    assert WordEnd(LINE, 1, false) == 1;
  }

  /** A line with a redirection and a quoted word. */
  lemma LineTokens()
    ensures Lex(LINE, 0) == [Word(0, 1), Symbol(1, '>'), Word(2, 7)]
  {
    hide Skip, Head;
    LineHeads();
    assert Lex(LINE, 7) == [];
    assert Lex(LINE, 2) == [Word(2, 7)];
    assert Lex(LINE, 1) == [Symbol(1, '>'), Word(2, 7)];
  }

  // ----- gettoken

  class Lexer {
    const buf: array<char>
    var p1: Option<nat>
    var p2: nat
    ghost const text: CString
    ghost const tail: string
    ghost var pos: nat

    /** `pos` is how far the text is consumed; at its end p1 may lag behind, on a NUL. */
    ghost predicate Valid()
      reads this, buf
    {
      && Reached(text, pos) && buf[..] == Buffer(text, pos, tail)
      && match p1
         case None => pos == |text|
         case Some(q) => if pos < |text| then q == pos else q <= |text| && buf[q] == NUL
    }

    constructor (line: array<char>, ghost t: CString, ghost rest: string)
      requires line[..] == t + [NUL] + rest
      ensures Valid() && buf == line && text == t && tail == rest && pos == 0 && p1 == Some(0)
    {
      buf, p1, p2 := line, Some(0), 0;
      text, tail, pos := t, rest, 0;
      new;
      assert Rewrite(t, 0)[..0] + t[0..] == t;
    }

    /** Whitespace before a token turns to NUL. */
    method SkipWhite(start: nat, ghost done: string) returns (s: nat)
      requires start < buf.Length
      requires buf[start] != NUL ==> start <= |text| && |done| == start && buf[..] == Line(done, text, start, tail)
      modifies buf
      ensures old(buf[start]) == NUL ==> s == start && buf[..] == old(buf[..])
      ensures old(buf[start]) != NUL ==>
        s == Skip(text, start) && buf[..] == Line(done + Nuls(s - start), text, s, tail)
      ensures s < buf.Length && buf[s] == if old(buf[start]) != NUL && s < |text| then text[s] else NUL
    {
      hide Line, White, Special;
      s := start;
      ghost var sofar := done;
      assert done + Nuls(0) == done;
      hide Nuls;
      if buf[s] != NUL {
        LineHead(sofar, text, s, tail);
      }
      while White(buf[s])
        invariant s < buf.Length
        invariant old(buf[start]) == NUL ==> s == start && buf[..] == old(buf[..])
        invariant old(buf[start]) != NUL ==>
          start <= s <= |text| && Skip(text, s) == Skip(text, start)
          && sofar == done + Nuls(s - start) && buf[..] == Line(sofar, text, s, tail)
        decreases |text| - s
      {
        LineHead(sofar, text, s, tail);
        LineStep(sofar, text, s, tail, NUL);
        NulsStep(done, s - start);
        buf[s] := NUL;
        s, sofar := s + 1, sofar + [NUL];
        LineHead(sofar, text, s, tail);
      }
      if old(buf[start]) != NUL {
        LineHead(sofar, text, s, tail);
      }
    }

    /** The loop over a word. */
    method ScanWord(start: nat, ghost done: string) returns (s: nat)
      requires start <= |text| && |done| == start && buf[..] == Line(done, text, start, tail)
      modifies buf
      ensures s == WordEnd(text, start, false)
      ensures buf[..] == Line(done + Blank(text[start..s]), text, s, tail)
      ensures s < buf.Length && buf[s] == if s < |text| then text[s] else NUL
    {
      s := start;
      var flag := false;
      ghost var sofar := done;
      assert done + Blank(text[start..start]) == done;
      LineHead(sofar, text, s, tail);
      while buf[s] != NUL && (flag || !(White(buf[s]) || Special(buf[s])))
        invariant start <= s <= |text| && WordEnd(text, s, flag) == WordEnd(text, start, false)
        invariant sofar == done + Blank(text[start..s]) && buf[..] == Line(sofar, text, s, tail)
        invariant s < buf.Length && buf[s] == (if s < |text| then text[s] else NUL)
        decreases |text| - s
      {
        ghost var c := if text[s] == '"' then ' ' else text[s];
        LineStep(sofar, text, s, tail, c);
        ghost var was := buf[..];
        assert was[s := was[s]] == was;
        if buf[s] == '"' {
          buf[s] := ' ';
          flag := !flag;
        }
        assert buf[..] == was[s := c];
        BlankStep(text, start, s, done);
        s, sofar := s + 1, sofar + [c];
        LineHead(sofar, text, s, tail);
      }
    }

    method GetToken() returns (token: char)
      requires Valid()
      modifies this`p1, this`p2, this`pos, buf
      ensures Valid()
      ensures var rest := Lex(text, old(pos));
        if rest == [] then token == NUL && pos == |text| && p2 == old(p2) && p1 == old(p1)
        else && token == (if rest[0].Symbol? then rest[0].c else 'w') && token != NUL
             && p2 == rest[0].at && pos == End(rest[0]) && Lex(text, pos) == rest[1..]
    {
      hide White, Special, Skip, WordEnd, Lex, Rewrite, Blank, Nuls, Line;
      if p1.None? {
        AtEnd(text, pos);
        return NUL;
      }
      ghost var done, p := Rewrite(text, 0)[..pos], pos;
      LineHead(done, text, p, tail);
      var s := SkipWhite(p1.value, done);
      done := done + Nuls(Skip(text, p) - p);
      if buf[s] == NUL {
        AtEnd(text, p);
        Behind(Rewrite(text, 0)[..p], text, p, tail);
        pos := |text|;
        return NUL;
      }
      AtToken(text, p, s);
      p2 := s;
      token := 'w';
      if Special(buf[s]) {
        LineStep(done, text, s, tail, NUL);
        token := buf[s];
        buf[s] := NUL;
        s := s + 1;
        LineHead(done + [NUL], text, s, tail);
      } else {
        s := ScanWord(s, done);
      }
      p1 := if buf[s] != NUL then Some(s) else None;
      pos := s;
    }

    /** Calling gettoken until it returns 0, keeping each token and where `*p2` points. */
    method Tokens() returns (r: seq<(char, nat)>)
      requires Valid()
      modifies this`p1, this`p2, this`pos, buf
      ensures Valid() && pos == |text|
      ensures r == Shown(Lex(text, old(pos)))
    {
      hide Lex, Rewrite, Buffer;
      r := [];
      ghost var all := Shown(Lex(text, pos));
      Unshow(Lex(text, pos));
      var token := GetToken();
      while token != NUL
        invariant Valid()
        invariant if token == NUL then pos == |text| && r == all
                  else r + ([(token, p2)] + Shown(Lex(text, pos))) == all
        decreases |all| - |r|
      {
        Regroup(r, [(token, p2)], Shown(Lex(text, pos)));
        r := r + [(token, p2)];
        Unshow(Lex(text, pos));
        token := GetToken();
      }
    }
  }

  lemma Regroup<T>(a: seq<T>, b: seq<T>, c: seq<T>)
    ensures a + (b + c) == a + b + c
  {
  }

  lemma Unshow(ks: seq<Token>)
    ensures Shown(ks) == if ks == [] then [] else [(Kind(ks[0]), ks[0].at)] + Shown(ks[1..])
  {
  }

  function Kind(k: Token): char {
    if k.Symbol? then k.c else 'w'
  }

  function Shown(ks: seq<Token>): (r: seq<(char, nat)>)
    ensures |r| == |ks|
  {
    seq(|ks|, i requires 0 <= i < |ks| => (Kind(ks[i]), ks[i].at))
  }

  // ----- the words as C strings

  /** From `i` up to the next NUL. */
  function ReadString(b: string, i: nat): string
    decreases |b| - i
  {
    if i >= |b| || b[i] == NUL then "" else [b[i]] + ReadString(b, i + 1)
  }

  lemma {:induction false} ReadStringOf(b: string, i: nat, j: nat)
    requires i <= j <= |b| && NUL !in b[i..j]
    ensures ReadString(b, i) == b[i..j] + ReadString(b, j)
    decreases j - i
  {
    if i < j {
      assert b[i..j] == [b[i]] + b[i + 1..j];
      ReadStringOf(b, i + 1, j);
    }
  }

  lemma StopsAt(b: string, i: nat, j: nat)
    requires i <= j < |b| && NUL !in b[i..j] && b[j] == NUL
    ensures ReadString(b, i) == b[i..j]
  {
    ReadStringOf(b, i, j);
  }

  /** A word's place in `r`, which holds the text from `i` on: its letters, then a NUL unless the line ends there. */
  ghost predicate WordAt(t: CString, r: string, i: nat, k: Token) {
    k.Word? ==>
      && |r| == |t| - i && i <= k.at < k.end <= |t| && r[k.at - i..k.end - i] == Blank(t[k.at..k.end])
      && (k.end < |t| ==> r[k.end - i] == NUL)
  }

  lemma ShiftWord(t: CString, pre: string, r: string, i: nat, k: Token)
    requires WordAt(t, r, i + |pre|, k)
    ensures WordAt(t, pre + r, i, k)
  {
  }

  lemma Middle<T>(a: seq<T>, b: seq<T>, c: seq<T>)
    ensures (a + b + c)[|a|..|a| + |b|] == b
    ensures c != [] ==> (a + b + c)[|a| + |b|] == c[0]
  {
  }

  lemma InMiddle(t: CString, a: string, b: string, c: string, i: nat, k: Token)
    requires k.Word? ==> k.at == i + |a| < k.end == i + |a| + |b| && |c| == |t| - k.end && b == Blank(t[k.at..k.end])
    requires k.Word? && c != [] ==> c[0] == NUL
    ensures WordAt(t, a + b + c, i, k)
  {
    hide Blank;
    Middle(a, b, c);
  }

  lemma HeadWord(t: CString, i: nat, j: nat)
    requires i <= j < |t| && !White(t[j])
    ensures var k := Head(t, j); WordAt(t, Nuls(j - i) + Cut(t, k) + Rewrite(t, End(k)), i, k)
  {
    hide Rewrite, Nuls, Blank, White, Special, WordEnd, WordAt;
    var k := Head(t, j);
    if k.Word? && k.end < |t| {
      Follows(t, k.end);
    }
    InMiddle(t, Nuls(j - i), Cut(t, k), Rewrite(t, End(k)), i, k);
  }

  lemma UnfoldLex(t: CString, i: nat, k: Token)
    requires i <= |t| && k in Lex(t, i)
    ensures Skip(t, i) < |t|
    ensures var h := Head(t, Skip(t, i)); k == h || k in Lex(t, End(h))
  {
    hide Skip, Head;
  }

  lemma UnfoldRewrite(t: CString, i: nat)
    requires i <= |t| && Skip(t, i) < |t|
    ensures var (j, h) := (Skip(t, i), Head(t, Skip(t, i)));
      Rewrite(t, i) == Nuls(j - i) + Cut(t, h) + Rewrite(t, End(h))
  {
    hide Skip, Head, Cut, Nuls;
  }

  lemma {:induction false} WordsAt(t: CString, i: nat, k: Token)
    requires i <= |t| && k in Lex(t, i)
    ensures WordAt(t, Rewrite(t, i), i, k)
    decreases |t| - i
  {
    hide Rewrite, Lex, Skip, Head, Cut, White, WordAt;
    UnfoldLex(t, i, k);
    UnfoldRewrite(t, i);
    var j, h := Skip(t, i), Head(t, Skip(t, i));
    if k == h {
      HeadWord(t, i, j);
    } else {
      WordsAt(t, End(h), k);
      ShiftWord(t, Nuls(j - i) + Cut(t, h), Rewrite(t, End(h)), i, k);
    }
  }

  /** A separator is rewritten to NUL. */
  lemma Follows(t: CString, e: nat)
    requires e < |t| && (White(t[e]) || Special(t[e]))
    ensures Rewrite(t, e)[0] == NUL
  {
    hide White, Special;
  }

  lemma BlankNotNul(t: CString, i: nat, j: nat)
    requires i <= j <= |t|
    ensures NUL !in Blank(t[i..j])
  {
  }

  lemma Slices(t: CString, p: nat, tail: string, i: nat, j: nat)
    requires i < j <= p <= |t|
    ensures var b := Buffer(t, p, tail);
      && |b| > |t| && b[i..j] == Rewrite(t, 0)[i..j] && (j < p ==> b[j] == Rewrite(t, 0)[j])
      && b[p..|t|] == t[p..] && b[|t|] == NUL
  {
    hide Rewrite;
  }

  lemma WordIn(t: CString, k: Token, p: nat, tail: string)
    requires k in Lex(t, 0) && k.Word? && k.at < k.end <= p <= |t|
    ensures var b := Buffer(t, p, tail);
      && |b| > |t| && b[|t|] == NUL && b[p..|t|] == t[p..]
      && b[k.at..k.end] == Blank(t[k.at..k.end]) && (k.end < p ==> b[k.end] == NUL)
  {
    WordsAt(t, 0, k);
    Slices(t, p, tail, k.at, k.end);
    hide Lex, Rewrite, Blank, Buffer;
  }

  /** Once everything before `p` is consumed, every earlier word is a C string, its quotes turned to spaces. */
  lemma EarlierWord(t: CString, k: Token, p: nat, tail: string)
    requires k in Lex(t, 0) && k.Word? && k.at < k.end <= p <= |t| && (k.end < p || p == |t|)
    ensures ReadString(Buffer(t, p, tail), k.at) == Blank(t[k.at..k.end])
    ensures var w := ReadString(Buffer(t, p, tail), k.at);
      |w| == k.end - k.at && forall x :: k.at <= x < k.end ==> w[x - k.at] == if t[x] == '"' then ' ' else t[x]
  {
    WordIn(t, k, p, tail);
    BlankNotNul(t, k.at, k.end);
    hide Lex, Rewrite, Blank, ReadString, Buffer;
    StopsAt(Buffer(t, p, tail), k.at, k.end);
  }

  /** The latest word runs on into the rest of the line: it is cut off only by the next call. */
  lemma LatestWord(t: CString, k: Token, tail: string)
    requires k in Lex(t, 0) && k.Word? && k.at < k.end <= |t|
    ensures ReadString(Buffer(t, k.end, tail), k.at) == Blank(t[k.at..k.end]) + t[k.end..]
  {
    WordIn(t, k, k.end, tail);
    BlankNotNul(t, k.at, k.end);
    hide Lex, Rewrite, Blank, ReadString, Buffer;
    ReadStringOf(Buffer(t, k.end, tail), k.at, k.end);
    StopsAt(Buffer(t, k.end, tail), k.end, |t|);
  }
}
