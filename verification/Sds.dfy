/** Quoting and splitting of byte strings: sdscatrepr, sdssplitargs, sdssplitlen, sdsjoinsds. */
module Sds {
  import opened Common

  // ---------------------------------------------------------------- the printer

  predicate IsPrint(b: int) {
    32 <= b <= 126
  }

  predicate IsSpace(b: int) {
    b == 32 || 9 <= b <= 13
  }

  predicate IsXDigit(b: int) {
    48 <= b <= 57 || 97 <= b <= 102 || 65 <= b <= 70
  }

  function HexDigit(n: int): Byte
    requires 0 <= n < 16
  {
    if n < 10 then 48 + n else 97 + n - 10
  }

  /** hex_digit_to_int. */
  function HexValue(b: int): (n: int)
    ensures 0 <= n < 16
  {
    if 48 <= b <= 57 then b - 48
    else if 97 <= b <= 102 then b - 97 + 10
    else if 65 <= b <= 70 then b - 65 + 10
    else 0
  }

  /** What sdscatrepr appends for one byte. */
  function Escape(b: Byte): Bytes {
    if b == 92 || b == 34 then [92, b]
    else if b == 10 then [92, 110]
    else if b == 13 then [92, 114]
    else if b == 9 then [92, 116]
    else if b == 7 then [92, 97]
    else if b == 8 then [92, 98]
    else if IsPrint(b) then [b]
    else [92, 120, HexDigit(b / 16), HexDigit(b % 16)]
  }

  function EscapeAll(s: Bytes): Bytes {
    if s == [] then [] else Escape(s[0]) + EscapeAll(s[1..])
  }

  function Repr(s: Bytes): Bytes {
    [34] + EscapeAll(s) + [34]
  }

  /** sdscatrepr. */
  method CatRepr(p: Bytes) returns (s: Bytes)
    ensures s == Repr(p)
  {
    s := [34];
    for i := 0 to |p|
      invariant s + EscapeAll(p[i..]) == [34] + EscapeAll(p)
    {
      assert p[i..] == [p[i]] + p[i + 1..];
      s := s + Escape(p[i]);
    }
    assert p[|p|..] == [];
    s := s + [34];
  }

  // ---------------------------------------------------------------- the parser

  /** The i-th byte of a C string: 0 from its end on. */
  function At(t: Bytes, i: nat): int {
    if i < |t| then t[i] else 0
  }

  function Unescape(b: Byte): Byte {
    if b == 110 then 10
    else if b == 114 then 13
    else if b == 116 then 9
    else if b == 98 then 8
    else if b == 97 then 7
    else b
  }

  datatype Mode = Plain | InQuotes | InSingle

  datatype Token = Token(text: Bytes, rest: Bytes) | Bad

  /** One round of the token loop of sdssplitargs: `cur` has been read, `t` is what follows. */
  datatype Step = Stop(token: Token) | More(t: Bytes, cur: Bytes, mode: Mode)

  function ReadStep(t: Bytes, cur: Bytes, mode: Mode): (r: Step)
    ensures r.More? ==> |r.t| < |t|
    ensures r.Stop? && r.token.Token? ==> |r.token.rest| <= |t| && (At(t, 0) != 0 ==> |r.token.rest| < |t|)
  {
    var c := At(t, 0);
    match mode
    case InQuotes =>
      if c == 92 && At(t, 1) == 120 && IsXDigit(At(t, 2)) && IsXDigit(At(t, 3)) then
        More(t[4..], cur + [HexValue(At(t, 2)) * 16 + HexValue(At(t, 3))], mode)
      else if c == 92 && At(t, 1) != 0 then More(t[2..], cur + [Unescape(t[1])], mode)
      else if c == 34 then Stop(if At(t, 1) != 0 && !IsSpace(At(t, 1)) then Bad else Token(cur, t[1..]))
      else if c == 0 then Stop(Bad)
      else More(t[1..], cur + [t[0]], mode)
    case InSingle =>
      if c == 92 && At(t, 1) == 39 then More(t[2..], cur + [39], mode)
      else if c == 39 then Stop(if At(t, 1) != 0 && !IsSpace(At(t, 1)) then Bad else Token(cur, t[1..]))
      else if c == 0 then Stop(Bad)
      else More(t[1..], cur + [t[0]], mode)
    case Plain =>
      if c == 0 then Stop(Token(cur, t))
      else if c == 32 || c == 10 || c == 13 || c == 9 then Stop(Token(cur, t[1..]))
      else if c == 34 then More(t[1..], cur, InQuotes)
      else if c == 39 then More(t[1..], cur, InSingle)
      else More(t[1..], cur + [t[0]], Plain)
  }

  function ReadToken(t: Bytes, cur: Bytes, mode: Mode): (r: Token)
    ensures r.Token? ==> |r.rest| <= |t| && (At(t, 0) != 0 ==> |r.rest| < |t|)
    decreases |t|
  {
    match ReadStep(t, cur, mode)
    case Stop(token) => token
    case More(u, more, next) => ReadToken(u, more, next)
  }

  function SkipBlanks(t: Bytes): (r: Bytes)
    ensures |r| <= |t|
  {
    if At(t, 0) != 0 && IsSpace(At(t, 0)) then SkipBlanks(t[1..]) else t
  }

  /** sdssplitargs from `t` on, with the arguments already found. */
  function SplitFrom(t: Bytes, args: seq<Bytes>): Option<seq<Bytes>>
    decreases |t|
  {
    var u := SkipBlanks(t);
    if At(u, 0) == 0 then Some(args)
    else
      var tok := ReadToken(u, [], Plain);
      if tok.Bad? then None else SplitFrom(tok.rest, args + [tok.text])
  }

  /** One round of the token loop left it at `p`, with `current` read, in `next` or done or on an error. */
  ghost predicate Round(line: Bytes, p0: nat, cur0: Bytes, mode: Mode, bad: bool, done: bool, current: Bytes, p: nat,
                        next: Mode)
    requires p0 <= |line|
  {
    p0 <= p <= |line| &&
    ReadStep(line[p0..], cur0, mode) ==
      if bad then Stop(Bad) else if done then Stop(Token(current, line[p..])) else More(line[p..], current, next)
  }

  /** The branch of the token loop inside double quotes. */
  method QuotedRound(line: Bytes, p0: nat, cur0: Bytes) returns (bad: bool, done: bool, current: Bytes, p: nat)
    requires p0 <= |line|
    ensures Round(line, p0, cur0, InQuotes, bad, done, current, p, InQuotes)
  {
    bad, done, current, p := false, false, cur0, p0;
    var c, c1, c2, c3 := At(line, p), At(line, p + 1), At(line, p + 2), At(line, p + 3);
    AtSuffix(line, p);
    if c == 92 && c1 == 120 && IsXDigit(c2) && IsXDigit(c3) {
      current := current + [HexValue(c2) * 16 + HexValue(c3)];
      p := p + 3;
    } else if c == 92 && c1 != 0 {
      p := p + 1;
      current := current + [Unescape(line[p])];
    } else if c == 34 {
      bad, done := c1 != 0 && !IsSpace(c1), true;
    } else if c == 0 {
      bad := true;
    } else {
      current := current + [line[p]];
    }
    if At(line, p) != 0 {
      p := p + 1;
    }
  }

  /** The branch inside single quotes. */
  method SingleRound(line: Bytes, p0: nat, cur0: Bytes) returns (bad: bool, done: bool, current: Bytes, p: nat)
    requires p0 <= |line|
    ensures Round(line, p0, cur0, InSingle, bad, done, current, p, InSingle)
  {
    bad, done, current, p := false, false, cur0, p0;
    var c, c1 := At(line, p), At(line, p + 1);
    AtSuffix(line, p);
    if c == 92 && c1 == 39 {
      p := p + 1;
      current := current + [39];
    } else if c == 39 {
      bad, done := c1 != 0 && !IsSpace(c1), true;
    } else if c == 0 {
      bad := true;
    } else {
      current := current + [line[p]];
    }
    if At(line, p) != 0 {
      p := p + 1;
    }
  }

  /** The branch outside quotes; a quote sets one of the two flags. */
  method PlainRound(line: Bytes, p0: nat, cur0: Bytes)
    returns (done: bool, current: Bytes, p: nat, inq: bool, insq: bool)
    requires p0 <= |line|
    ensures !(inq && insq)
    ensures Round(line, p0, cur0, Plain, false, done, current, p, ModeOf(inq, insq))
  {
    done, current, p, inq, insq := false, cur0, p0, false, false;
    var c := At(line, p);
    AtSuffix(line, p);
    if c == 32 || c == 10 || c == 13 || c == 9 || c == 0 {
      done := true;
    } else if c == 34 {
      inq := true;
    } else if c == 39 {
      insq := true;
    } else {
      current := current + [line[p]];
    }
    if At(line, p) != 0 {
      p := p + 1;
    }
  }

  function ModeOf(inq: bool, insq: bool): Mode {
    if inq then InQuotes else if insq then InSingle else Plain
  }

  /** The token loop with its pointer and its two flags. */
  method TokenLoop(line: Bytes, start: nat) returns (ok: bool, current: Bytes, p: nat)
    requires start <= |line|
    ensures p <= |line|
    ensures ok <==> ReadToken(line[start..], [], Plain).Token?
    ensures ok ==> ReadToken(line[start..], [], Plain) == Token(current, line[p..])
  {
    hide ReadToken, ReadStep;
    var inq, insq, done, bad := false, false, false, false;
    p, current := start, [];
    ghost var all := ReadToken(line[start..], [], Plain);
    while !done
      invariant p <= |line| && !(inq && insq)
      invariant !done ==> all == ReadToken(line[p..], current, ModeOf(inq, insq))
      invariant done ==> all == Token(current, line[p..])
      decreases !done, |line| - p
    {
      ReadUnfold(line[p..], current, ModeOf(inq, insq));
      if inq {
        bad, done, current, p := QuotedRound(line, p, current);
      } else if insq {
        bad, done, current, p := SingleRound(line, p, current);
      } else {
        done, current, p, inq, insq := PlainRound(line, p, current);
      }
      if bad {
        return false, current, p;
      }
    }
    ok := true;
  }

  lemma {:induction false} AtSuffix(line: Bytes, p: nat)
    requires p <= |line|
    ensures forall i: nat :: At(line[p..], i) == At(line, p + i)
    ensures forall i: nat | p + i <= |line| :: line[p..][i..] == line[p + i..]
  {
  }

  /** ReadToken unfolded once, for callers that see it only by name. */
  lemma {:induction false} ReadUnfold(t: Bytes, cur: Bytes, mode: Mode)
    ensures ReadToken(t, cur, mode) ==
            match ReadStep(t, cur, mode)
            case Stop(token) => token
            case More(u, more, next) => ReadToken(u, more, next)
  {
  }

  /** sdssplitargs. */
  method SplitArgs(line: Bytes) returns (r: Option<seq<Bytes>>)
    ensures r == SplitFrom(line, [])
  {
    hide ReadToken;
    var p, vector := 0, [];
    assert line[0..] == line;
    while true
      invariant p <= |line| && SplitFrom(line[p..], vector) == SplitFrom(line, [])
      decreases |line| - p
    {
      ghost var t := line[p..];
      ghost var p0 := p;
      while At(line, p) != 0 && IsSpace(At(line, p))
        invariant p0 <= p <= |line| && SkipBlanks(line[p..]) == SkipBlanks(t)
        decreases |line| - p
      {
        AtSuffix(line, p);
        p := p + 1;
      }
      AtSuffix(line, p);
      assert SkipBlanks(t) == line[p..];
      if At(line, p) == 0 {
        return Some(vector);
      }
      TokenShrinks(line[p..]);
      var ok, current, q := TokenLoop(line, p);
      if !ok {
        return None;
      }
      p := q;
      vector := vector + [current];
    }
  }

  lemma {:induction false} TokenShrinks(t: Bytes)
    ensures var r := ReadToken(t, [], Plain); r.Token? && At(t, 0) != 0 ==> |r.rest| < |t|
  {
  }

  // ---------------------------------------------------------------- round trip

  /** Inside quotes, one escaped byte is read back as that byte. */
  lemma {:induction false} ReadEscape(b: Byte, u: Bytes, cur: Bytes)
    ensures ReadToken(Escape(b) + u, cur, InQuotes) == ReadToken(u, cur + [b], InQuotes)
  {
    hide ReadToken;
    var e := Escape(b);
    var t := e + u;
    ReadUnfold(t, cur, InQuotes);
    assert t[|e|..] == u;
    assert forall i | 0 <= i < |e| :: t[i] == e[i];
  }

  /** The closing quote ends the token. */
  lemma {:induction false} ReadQuote(rest: Bytes, cur: Bytes)
    requires rest == [] || rest[0] == 32
    ensures ReadToken([34] + rest, cur, InQuotes) == Token(cur, rest)
  {
    hide ReadToken;
    var t := [34] + rest;
    ReadUnfold(t, cur, InQuotes);
    assert t[1..] == rest;
  }

  lemma {:induction false} ReadEscaped(s: Bytes, rest: Bytes, cur: Bytes)
    requires rest == [] || rest[0] == 32
    ensures ReadToken(EscapeAll(s) + ([34] + rest), cur, InQuotes) == Token(cur + s, rest)
  {
    hide ReadToken, Escape, ReadStep;
    var end := [34] + rest;
    if s == [] {
      assert EscapeAll(s) + end == end;
      ReadQuote(rest, cur);
      assert cur + s == cur;
    } else {
      var u := EscapeAll(s[1..]) + end;
      assert EscapeAll(s) + end == Escape(s[0]) + u;
      ReadEscape(s[0], u, cur);
      ReadEscaped(s[1..], rest, cur + [s[0]]);
      assert (cur + [s[0]]) + s[1..] == cur + s;
    }
  }

  lemma {:induction false} ReadRepr(s: Bytes, rest: Bytes)
    requires rest == [] || rest[0] == 32
    ensures ReadToken(Repr(s) + rest, [], Plain) == Token(s, rest)
  {
    hide ReadToken, EscapeAll;
    var body := EscapeAll(s) + ([34] + rest);
    var t := Repr(s) + rest;
    assert t == [34] + body;
    ReadUnfold(t, [], Plain);
    assert t[1..] == body;
    hide Repr, ReadStep;
    ReadEscaped(s, rest, []);
    assert [] + s == s;
  }

  /** The quoted arguments, separated by single spaces. */
  function Line(args: seq<Bytes>): Bytes {
    if args == [] then []
    else if |args| == 1 then Repr(args[0])
    else Repr(args[0]) + [32] + Line(args[1..])
  }

  /** Splitting reads one quoted argument off the front of the line. */
  lemma {:induction false} SplitOne(a: Bytes, rest: Bytes, vec: seq<Bytes>)
    requires rest == [] || rest[0] == 32
    ensures SplitFrom(Repr(a) + rest, vec) == SplitFrom(rest, vec + [a])
  {
    hide ReadToken, Repr, SkipBlanks, At;
    ReprStarts(a, rest);
    ReadRepr(a, rest);
  }

  lemma {:induction false} SplitNothing(vec: seq<Bytes>)
    ensures SplitFrom([], vec) == Some(vec)
  {
  }

  lemma {:induction false} LineHead(args: seq<Bytes>)
    ensures args == [] ==> Line(args) == []
    ensures args != [] ==> Line(args) == Repr(args[0]) + if |args| == 1 then [] else [32] + Line(args[1..])
    ensures |args| == 1 ==> Line(args[1..]) == []
  {
    hide Repr;
  }

  lemma {:induction false} SplitLine(args: seq<Bytes>, vec: seq<Bytes>)
    ensures SplitFrom(Line(args), vec) == Some(vec + args)
  {
    hide ReadToken, Repr, SplitFrom, Line;
    SplitNothing(vec);
    LineHead(args);
    if args == [] {
      assert vec + args == vec;
    } else {
      var a, more := args[0], args[1..];
      var rest := if |args| == 1 then [] else [32] + Line(more);
      SplitOne(a, rest, vec);
      assert (vec + [a]) + more == vec + args;
      SplitLine(more, vec + [a]);
      SkipOne(Line(more), vec + [a]);
    }
  }

  lemma {:induction false} ReprStarts(s: Bytes, rest: Bytes)
    ensures At(Repr(s) + rest, 0) == 34 && SkipBlanks(Repr(s) + rest) == Repr(s) + rest
  {
  }

  lemma {:induction false} SkipOne(t: Bytes, vec: seq<Bytes>)
    ensures SplitFrom([32] + t, vec) == SplitFrom(t, vec)
  {
    assert ([32] + t)[1..] == t;
    assert SkipBlanks([32] + t) == SkipBlanks(t);
  }

  /** Printer and parser undo each other, for every list of byte strings. */
  lemma {:induction false} ReprRoundTrip(args: seq<Bytes>)
    ensures SplitFrom(Line(args), []) == Some(args)
  {
    SplitLine(args, []);
    assert [] + args == args;
  }

  // ---------------------------------------------------------------- words, single quotes and errors

  /** Neither blank, nor a quote, nor the end of the string. */
  predicate WordByte(b: Byte) {
    b !in {0, 9, 10, 11, 12, 13, 32, 34, 39}
  }

  predicate Word(w: Bytes) {
    w != [] && forall i | 0 <= i < |w| :: WordByte(w[i])
  }

  lemma {:induction false} ReadByte(b: Byte, u: Bytes, cur: Bytes)
    requires WordByte(b)
    ensures ReadToken([b] + u, cur, Plain) == ReadToken(u, cur + [b], Plain)
  {
    hide ReadToken;
    ReadUnfold([b] + u, cur, Plain);
    assert ([b] + u)[1..] == u;
  }

  lemma {:induction false} ReadBlank(rest: Bytes, cur: Bytes)
    requires rest == [] || rest[0] in {32, 10, 13, 9}
    ensures ReadToken(rest, cur, Plain) == Token(cur, if rest == [] then [] else rest[1..])
  {
    hide ReadToken;
    ReadUnfold(rest, cur, Plain);
  }

  /** An unquoted word is read whole. */
  lemma {:induction false} ReadWord(w: Bytes, rest: Bytes, cur: Bytes)
    requires (forall i | 0 <= i < |w| :: WordByte(w[i])) && (rest == [] || rest[0] in {32, 10, 13, 9})
    ensures ReadToken(w + rest, cur, Plain) == Token(cur + w, if rest == [] then [] else rest[1..])
  {
    hide ReadToken, ReadStep;
    if w == [] {
      assert w + rest == rest && cur + w == cur;
      ReadBlank(rest, cur);
    } else {
      assert w + rest == [w[0]] + (w[1..] + rest);
      ReadByte(w[0], w[1..] + rest, cur);
      ReadWord(w[1..], rest, cur + [w[0]]);
      assert (cur + [w[0]]) + w[1..] == cur + w;
    }
  }

  /** Words separated by single spaces. */
  function Words(ws: seq<Bytes>): Bytes {
    if ws == [] then [] else if |ws| == 1 then ws[0] else ws[0] + [32] + Words(ws[1..])
  }

  /** A space, a newline, a return or a tab ends a word. */
  lemma {:induction false} SplitWord(w: Bytes, rest: Bytes, vec: seq<Bytes>)
    requires Word(w) && (rest == [] || rest[0] in {32, 10, 13, 9})
    ensures SplitFrom(w + rest, vec) == SplitFrom(if rest == [] then [] else rest[1..], vec + [w])
  {
    hide ReadToken;
    ReadWord(w, rest, []);
    assert [] + w == w && WordByte(w[0]) && (w + rest)[0] == w[0];
    assert SkipBlanks(w + rest) == w + rest;
  }

  /** Blanks in front of an argument are skipped, whichever and however many. */
  lemma {:induction false} LeadingBlanks(blanks: Bytes, t: Bytes, vec: seq<Bytes>)
    requires forall i | 0 <= i < |blanks| :: blanks[i] in {32, 9, 10, 11, 12, 13}
    ensures SplitFrom(blanks + t, vec) == SplitFrom(t, vec)
  {
    if blanks == [] {
      assert blanks + t == t;
    } else {
      var u := blanks[1..] + t;
      LeadingBlanks(blanks[1..], t, vec);
      assert (blanks + t)[1..] == u;
      assert SkipBlanks(blanks + t) == SkipBlanks(u);
    }
  }

  /** Splitting a line of unquoted words gives the words. */
  lemma {:induction false} SplitWords(ws: seq<Bytes>, vec: seq<Bytes>)
    requires forall i | 0 <= i < |ws| :: Word(ws[i])
    ensures SplitFrom(Words(ws), vec) == Some(vec + ws)
  {
    hide ReadToken, SplitFrom, Word;
    SplitNothing(vec);
    if ws == [] {
      assert vec + ws == vec;
    } else {
      var w, more := ws[0], ws[1..];
      var rest := if |ws| == 1 then [] else [32] + Words(more);
      assert Words(ws) == w + rest;
      SplitWord(w, rest, vec);
      assert |ws| > 1 ==> rest[1..] == Words(more);
      assert (vec + [w]) + more == vec + ws;
      SplitWords(more, vec + [w]);
    }
  }

  /** Between single quotes only a single quote is escaped. */
  function SingleAll(s: Bytes): Bytes {
    if s == [] then [] else (if s[0] == 39 then [92, 39] else [s[0]]) + SingleAll(s[1..])
  }

  lemma {:induction false} SingleStarts(s: Bytes, end: Bytes)
    requires s != []
    ensures SingleAll(s) + end != [] && (SingleAll(s) + end)[0] != 39
  {
  }

  /** One byte between single quotes; a backslash must not be taken for an escape. */
  lemma {:induction false} ReadSingle(b: Byte, u: Bytes, cur: Bytes)
    requires b != 0 && (b == 92 ==> At(u, 0) != 39)
    ensures ReadToken((if b == 39 then [92, 39] else [b]) + u, cur, InSingle) == ReadToken(u, cur + [b], InSingle)
  {
    hide ReadToken;
    var e := if b == 39 then [92, 39] else [b];
    ReadUnfold(e + u, cur, InSingle);
    assert (e + u)[|e|..] == u;
  }

  predicate Singleable(s: Bytes) {
    (forall i | 0 <= i < |s| :: s[i] != 0) && (s != [] ==> s[|s| - 1] != 92)
  }

  lemma {:induction false} SingleUnfold(s: Bytes, end: Bytes)
    requires Singleable(s)
    ensures s == [] ==> SingleAll(s) + end == end
    ensures s != [] ==>
              var u := SingleAll(s[1..]) + end;
              && SingleAll(s) + end == (if s[0] == 39 then [92, 39] else [s[0]]) + u
              && (s[0] == 92 ==> At(u, 0) != 39)
  {
    if s != [] {
      var e := if s[0] == 39 then [92, 39] else [s[0]];
      assert SingleAll(s) + end == e + (SingleAll(s[1..]) + end);
      if s[1..] != [] {
        SingleStarts(s[1..], end);
      }
    }
  }

  lemma {:induction false} ReadSingles(s: Bytes, end: Bytes, cur: Bytes)
    requires Singleable(s)
    ensures ReadToken(SingleAll(s) + end, cur, InSingle) == ReadToken(end, cur + s, InSingle)
  {
    hide ReadToken, ReadStep, SingleAll, At;
    if s == [] {
      SingleUnfold(s, end);
      assert cur + s == cur;
    } else {
      var u := SingleAll(s[1..]) + end;
      SingleUnfold(s, end);
      ReadSingle(s[0], u, cur);
      ReadSingles(s[1..], end, cur + [s[0]]);
      TakeHead(cur, s, s[0]);
    }
  }

  lemma {:induction false} OpenQuote(q: Byte, t: Bytes, vec: seq<Bytes>)
    requires q == 34 || q == 39
    ensures var tok := ReadToken(t, [], if q == 34 then InQuotes else InSingle);
            SplitFrom([q] + t, vec) == if tok.Bad? then None else SplitFrom(tok.rest, vec + [tok.text])
  {
    hide ReadToken;
    var line := [q] + t;
    assert SkipBlanks(line) == line && line[1..] == t;
    ReadUnfold(line, [], Plain);
    TokenShrinks(line);
  }

  /** Something other than a blank, and not the end of the string, stands behind the closing quote. */
  predicate Attached(rest: Bytes) {
    rest != [] && rest[0] !in {0, 9, 10, 11, 12, 13, 32}
  }

  lemma {:induction false} ReadEnd(q: Byte, rest: Bytes, cur: Bytes)
    requires q == 34 || q == 39
    ensures ReadToken([], cur, if q == 34 then InQuotes else InSingle) == Bad
    ensures ReadToken([q] + rest, cur, if q == 34 then InQuotes else InSingle)
         == if Attached(rest) then Bad else Token(cur, rest)
  {
    hide ReadToken;
    var mode := if q == 34 then InQuotes else InSingle;
    ReadUnfold([], cur, mode);
    ReadUnfold([q] + rest, cur, mode);
    assert ([q] + rest)[1..] == rest;
  }

  /**
   * Single quotes: what stands between them is read back, for every byte string without a zero byte that does not end
   * with a backslash. Without the closing quote, or with something other than a blank behind it, the line is an error.
   */
  lemma {:induction false} SingleQuotes(s: Bytes, rest: Bytes, vec: seq<Bytes>)
    requires Singleable(s)
    ensures SplitFrom([39] + SingleAll(s) + [39], vec) == Some(vec + [s])
    ensures SplitFrom([39] + SingleAll(s), vec) == None
    ensures Attached(rest) ==> SplitFrom([39] + SingleAll(s) + [39] + rest, vec) == None
  {
    hide ReadToken, ReadStep, SplitFrom, SingleAll, Singleable;
    var body := SingleAll(s);
    assert [] + s == s && [39] + [] == [39] && body + [] == body;
    assert [39] + body + [39] == [39] + (body + [39]) && [39] + body + [39] + rest == [39] + (body + ([39] + rest));
    OpenQuote(39, body + [39], vec);
    OpenQuote(39, body, vec);
    OpenQuote(39, body + ([39] + rest), vec);
    ReadSingles(s, [39], []);
    ReadSingles(s, [], []);
    ReadSingles(s, [39] + rest, []);
    ReadEnd(39, [], s);
    ReadEnd(39, rest, s);
    SplitNothing(vec + [s]);
  }

  lemma {:induction false} ReadEscapes(s: Bytes, end: Bytes, cur: Bytes)
    ensures ReadToken(EscapeAll(s) + end, cur, InQuotes) == ReadToken(end, cur + s, InQuotes)
  {
    hide ReadToken, ReadStep, Escape;
    if s == [] {
      assert EscapeAll(s) + end == end && cur + s == cur;
    } else {
      var u := EscapeAll(s[1..]) + end;
      assert EscapeAll(s) + end == Escape(s[0]) + u;
      ReadEscape(s[0], u, cur);
      ReadEscapes(s[1..], end, cur + [s[0]]);
      assert (cur + [s[0]]) + s[1..] == cur + s;
    }
  }

  /** Double quotes: the same errors, for every byte string. */
  lemma {:induction false} DoubleQuoteErrors(s: Bytes, rest: Bytes, vec: seq<Bytes>)
    ensures SplitFrom([34] + EscapeAll(s), vec) == None
    ensures Attached(rest) ==> SplitFrom(Repr(s) + rest, vec) == None
  {
    hide ReadToken, ReadStep, SplitFrom, EscapeAll;
    var body := EscapeAll(s);
    assert body + [] == body && Repr(s) + rest == [34] + (body + ([34] + rest));
    OpenQuote(34, body, vec);
    OpenQuote(34, body + ([34] + rest), vec);
    ReadEscapes(s, [], []);
    ReadEscapes(s, [34] + rest, []);
    ReadEnd(34, [], [] + s);
    ReadEnd(34, rest, [] + s);
  }

  // ---------------------------------------------------------------- everything that can stand in quotes

  const LOWER: Bytes := [48, 49, 50, 51, 52, 53, 54, 55, 56, 57, 97, 98, 99, 100, 101, 102]
  const UPPER: Bytes := [48, 49, 50, 51, 52, 53, 54, 55, 56, 57, 65, 66, 67, 68, 69, 70]
  type Nibble = n: int | 0 <= n < 16
  const CONTROLS: map<Byte, Byte> := map[110 := 10, 114 := 13, 116 := 9, 98 := 8, 97 := 7]

  /** One byte between double quotes: itself, two hexadecimal digits in either case, or a character behind a backslash. */
  datatype Atom = Raw(b: Byte) | Hex(hi: Nibble, lo: Nibble, upHi: bool, upLo: bool) | Escaped(b: Byte) {
    /** What may follow the backslash depends on the bytes `u` behind the atom. */
    predicate Ok(u: Bytes) {
      match this
      case Raw(b) => b != 0 && b != 34 && b != 92
      case Hex(_, _, _, _) => true
      case Escaped(b) => b != 0 && (b == 120 ==> |u| < 2 || !(u[0] in LOWER + UPPER && u[1] in LOWER + UPPER))
    }

    function Spelling(): Bytes {
      match this
      case Raw(b) => [b]
      case Hex(hi, lo, upHi, upLo) => [92, 120, (if upHi then UPPER else LOWER)[hi], (if upLo then UPPER else LOWER)[lo]]
      case Escaped(b) => [92, b]
    }

    function Meaning(): Byte {
      match this
      case Raw(b) => b
      case Hex(hi, lo, _, _) => 16 * hi + lo
      case Escaped(b) => if b in CONTROLS then CONTROLS[b] else b
    }
  }

  /** `body` spells `s` when `end` follows. */
  ghost predicate Spells(atoms: seq<Atom>, body: Bytes, s: Bytes, end: Bytes) {
    if atoms == [] then body == [] && s == []
    else
      && s != [] && |atoms[0].Spelling()| <= |body|
      && var u := body[|atoms[0].Spelling()|..];
        && atoms[0].Ok(u + end) && body == atoms[0].Spelling() + u && s[0] == atoms[0].Meaning()
        && Spells(atoms[1..], u, s[1..], end)
  }

  lemma {:induction false} HexIsHex(n: Nibble, upper: bool)
    ensures var b := (if upper then UPPER else LOWER)[n]; IsXDigit(b) && HexValue(b) == n
  {
    assert n == 0 || n == 1 || n == 2 || n == 3 || n == 4 || n == 5 || n == 6 || n == 7
        || n == 8 || n == 9 || n == 10 || n == 11 || n == 12 || n == 13 || n == 14 || n == 15;
  }

  lemma {:induction false} ReadAtom(a: Atom, u: Bytes, cur: Bytes)
    requires a.Ok(u)
    ensures ReadToken(a.Spelling() + u, cur, InQuotes) == ReadToken(u, cur + [a.Meaning()], InQuotes)
  {
    hide ReadToken, ReadStep;
    match a
    case Raw(b) => ReadRaw(b, u, cur);
    case Hex(hi, lo, upHi, upLo) =>
      HexIsHex(hi, upHi);
      HexIsHex(lo, upLo);
      ReadHex((if upHi then UPPER else LOWER)[hi], (if upLo then UPPER else LOWER)[lo], u, cur);
    case Escaped(b) =>
      HexDigits(At(u, 0));
      HexDigits(At(u, 1));
      ReadBackslash(b, u, cur);
  }

  /** The hexadecimal digits, in either case, and nothing else. */
  lemma {:induction false} HexDigits(b: int)
    ensures IsXDigit(b) <==> b in LOWER + UPPER
  {
    var all := LOWER + UPPER;
    if 48 <= b <= 57 {
      assert all[b - 48] == b;
    } else if 97 <= b <= 102 {
      assert all[b - 97 + 10] == b;
    } else if 65 <= b <= 70 {
      assert all[b - 65 + 26] == b;
    }
  }

  lemma {:induction false} ReadRaw(b: Byte, u: Bytes, cur: Bytes)
    requires b != 0 && b != 34 && b != 92
    ensures ReadToken([b] + u, cur, InQuotes) == ReadToken(u, cur + [b], InQuotes)
  {
    hide ReadToken;
    ReadUnfold([b] + u, cur, InQuotes);
    assert ([b] + u)[1..] == u;
  }

  lemma {:induction false} ReadHex(h: Byte, l: Byte, u: Bytes, cur: Bytes)
    requires IsXDigit(h) && IsXDigit(l)
    ensures ReadToken([92, 120, h, l] + u, cur, InQuotes) == ReadToken(u, cur + [HexValue(h) * 16 + HexValue(l)], InQuotes)
  {
    hide ReadToken, HexValue;
    var t := [92, 120, h, l] + u;
    ReadUnfold(t, cur, InQuotes);
    assert t[4..] == u;
  }

  lemma {:induction false} ReadBackslash(b: Byte, u: Bytes, cur: Bytes)
    requires b != 0 && (b == 120 ==> !(IsXDigit(At(u, 0)) && IsXDigit(At(u, 1))))
    ensures ReadToken([92, b] + u, cur, InQuotes)
         == ReadToken(u, cur + [if b in CONTROLS then CONTROLS[b] else b], InQuotes)
  {
    hide ReadToken, IsXDigit;
    var t := [92, b] + u;
    ReadUnfold(t, cur, InQuotes);
    assert t[2..] == u && At(t, 2) == At(u, 0) && At(t, 3) == At(u, 1);
  }

  /** The first byte of a spelling. */
  lemma {:induction false} SpellsUnfold(atoms: seq<Atom>, body: Bytes, s: Bytes, end: Bytes) returns (e: Bytes,
                                        b: Byte, u: Bytes)
    requires Spells(atoms, body, s, end) && atoms != []
    ensures e == atoms[0].Spelling() && b == atoms[0].Meaning() && atoms[0].Ok(u + end)
    ensures body == e + u && s == [b] + s[1..] && Spells(atoms[1..], u, s[1..], end)
  {
    e, b := atoms[0].Spelling(), atoms[0].Meaning();
    u := body[|e|..];
  }

  lemma {:induction false} SpellsNothing(body: Bytes, s: Bytes, end: Bytes)
    requires Spells([], body, s, end)
    ensures body == [] && s == []
  {
  }

  lemma {:induction false} TakeHead(cur: Bytes, s: Bytes, b: Byte)
    requires s != [] && s[0] == b
    ensures (cur + [b]) + s[1..] == cur + s
  {
  }

  lemma {:induction false} ReadAtoms(atoms: seq<Atom>, body: Bytes, s: Bytes, end: Bytes, cur: Bytes)
    requires Spells(atoms, body, s, end)
    ensures ReadToken(body + end, cur, InQuotes) == ReadToken(end, cur + s, InQuotes)
  {
    hide *;
    if atoms == [] {
      SpellsNothing(body, s, end);
      assert body + end == end && cur + s == cur;
    } else {
      var e, b, u := SpellsUnfold(atoms, body, s, end);
      assert body + end == e + (u + end);
      ReadAtom(atoms[0], u + end, cur);
      ReadAtoms(atoms[1..], u, s[1..], end, cur + [b]);
      TakeHead(cur, s, b);
    }
  }

  lemma {:induction false} ReadOpen(w: Bytes, q: Byte, t: Bytes, cur: Bytes)
    requires (forall i | 0 <= i < |w| :: WordByte(w[i])) && (q == 34 || q == 39)
    ensures ReadToken(w + ([q] + t), cur, Plain) == ReadToken(t, cur + w, if q == 34 then InQuotes else InSingle)
  {
    hide ReadToken;
    var line := [q] + t;
    if w == [] {
      assert w + line == line && line[1..] == t && cur + w == cur;
      ReadUnfold(line, cur, Plain);
    } else {
      hide ReadStep;
      assert w + line == [w[0]] + (w[1..] + line);
      ReadByte(w[0], w[1..] + line, cur);
      ReadOpen(w[1..], q, t, cur + [w[0]]);
      assert (cur + [w[0]]) + w[1..] == cur + w;
    }
  }

  /**
   * An argument is an unquoted beginning, perhaps empty, and a part in double quotes: its value is the beginning and
   * what the quoted part spells. The closing quote ends it and needs a blank or the end of the line behind it.
   */
  lemma {:induction false} DoubleQuotes(w: Bytes, atoms: seq<Atom>, body: Bytes, s: Bytes, rest: Bytes, vec: seq<Bytes>)
    requires (forall i | 0 <= i < |w| :: WordByte(w[i])) && Spells(atoms, body, s, [34] + rest)
    ensures SplitFrom(w + ([34] + (body + ([34] + rest))), vec)
         == if Attached(rest) then None else SplitFrom(rest, vec + [w + s])
  {
    hide ReadToken, ReadStep, Spells;
    var t := body + ([34] + rest);
    ReadOpen(w, 34, t, []);
    ReadAtoms(atoms, body, s, [34] + rest, [] + w);
    ReadEnd(34, rest, w + s);
    assert [] + w == w;
    StartsToken(w, 34, t);
    TokenShrinks(w + ([34] + t));
  }

  lemma {:induction false} StartsToken(w: Bytes, q: Byte, t: Bytes)
    requires (forall i | 0 <= i < |w| :: WordByte(w[i])) && (q == 34 || q == 39)
    ensures var line := w + ([q] + t); SkipBlanks(line) == line && At(line, 0) != 0
  {
    var line := w + ([q] + t);
    assert line[0] == (if w == [] then q else w[0]);
    assert w != [] ==> WordByte(w[0]);
  }

  /** The same with a part in single quotes. */
  lemma {:induction false} QuotedTail(w: Bytes, s: Bytes, rest: Bytes, vec: seq<Bytes>)
    requires (forall i | 0 <= i < |w| :: WordByte(w[i])) && Singleable(s)
    ensures SplitFrom(w + ([39] + (SingleAll(s) + ([39] + rest))), vec)
         == if Attached(rest) then None else SplitFrom(rest, vec + [w + s])
  {
    hide ReadToken, ReadStep, SingleAll, Singleable;
    var t := SingleAll(s) + ([39] + rest);
    ReadOpen(w, 39, t, []);
    ReadSingles(s, [39] + rest, [] + w);
    ReadEnd(39, rest, w + s);
    assert [] + w == w;
    StartsToken(w, 39, t);
    TokenShrinks(w + ([39] + t));
  }

  /** Everything sdscatrepr prints is printable, and printable bytes other than quote and backslash stand for themselves. */
  lemma {:induction false} ReprIsPrintable(s: Bytes)
    ensures forall i | 0 <= i < |EscapeAll(s)| :: IsPrint(EscapeAll(s)[i])
    ensures (forall i | 0 <= i < |s| :: IsPrint(s[i]) && s[i] != 34 && s[i] != 92) ==> Repr(s) == [34] + s + [34]
  {
    if s != [] {
      ReprIsPrintable(s[1..]);
      EscapePrintable(s[0]);
      hide Escape;
      assert s == [s[0]] + s[1..];
      assert (forall i | 0 <= i < |s| :: IsPrint(s[i]) && s[i] != 34 && s[i] != 92) ==>
          Repr(s[1..]) == [34] + s[1..] + [34] && EscapeAll(s[1..]) == Repr(s[1..])[1..|s[1..]| + 1];
    }
  }

  /**
   * How each byte is printed: quote and backslash behind a backslash, the control characters that have a letter by that
   * letter, other printable bytes as they are, and the rest as two lower-case hexadecimal digits.
   */
  lemma {:induction false} EscapeForm(b: Byte)
    ensures b == 34 || b == 92 ==> Escape(b) == Escaped(b).Spelling()
    ensures forall n | n in CONTROLS && CONTROLS[n] == b :: Escape(b) == Escaped(n).Spelling()
    ensures b !in CONTROLS.Values && b != 34 && b != 92 ==>
              Escape(b) == (if 32 <= b <= 126 then Raw(b) else Hex(b / 16, b % 16, false, false)).Spelling()
  {
    assert CONTROLS[110] == 10 && CONTROLS[114] == 13 && CONTROLS[116] == 9 && CONTROLS[98] == 8 && CONTROLS[97] == 7;
    if b !in CONTROLS.Values && b != 34 && b != 92 && !IsPrint(b) {
      LowerDigit(b / 16);
      LowerDigit(b % 16);
    }
  }

  lemma {:induction false} LowerDigit(n: Nibble)
    ensures HexDigit(n) == LOWER[n]
  {
    assert n == 0 || n == 1 || n == 2 || n == 3 || n == 4 || n == 5 || n == 6 || n == 7
        || n == 8 || n == 9 || n == 10 || n == 11 || n == 12 || n == 13 || n == 14 || n == 15;
  }

  lemma {:induction false} EscapePrintable(b: Byte)
    ensures forall i | 0 <= i < |Escape(b)| :: IsPrint(Escape(b)[i])
    ensures IsPrint(b) && b != 34 && b != 92 ==> Escape(b) == [b]
  {
  }

  // ---------------------------------------------------------------- split and join

  /** sdsjoinsds. */
  function Join(tokens: seq<Bytes>, sep: Bytes): Bytes {
    if tokens == [] then []
    else if |tokens| == 1 then tokens[0]
    else Join(tokens[..|tokens| - 1], sep) + sep + tokens[|tokens| - 1]
  }

  method JoinSds(tokens: seq<Bytes>, sep: Bytes) returns (s: Bytes)
    ensures s == Join(tokens, sep)
  {
    s := [];
    for j := 0 to |tokens|
      invariant s == Join(tokens[..j], sep) + if 0 < j < |tokens| then sep else []
    {
      assert tokens[..j + 1][..j] == tokens[..j];
      s := s + tokens[j];
      if j != |tokens| - 1 {
        s := s + sep;
      }
    }
    assert tokens[..|tokens|] == tokens;
  }

  predicate OccursAt(sep: Bytes, s: Bytes, i: nat) {
    i + |sep| <= |s| && s[i..i + |sep|] == sep
  }

  ghost predicate Occurs(sep: Bytes, s: Bytes) {
    exists i: nat :: OccursAt(sep, s, i)
  }

  /** sdssplitlen: joining the tokens gives the input back, and no token contains the separator. */
  method SplitLen(s: Bytes, sep: Bytes) returns (r: Option<seq<Bytes>>)
    ensures r.None? <==> sep == []
    ensures r.Some? ==> Join(r.value, sep) == s && (r.value == [] <==> s == [])
    ensures r.Some? ==> forall k | 0 <= k < |r.value| :: !Occurs(sep, r.value[k])
  {
    if |sep| < 1 {
      return None;
    }
    if s == [] {
      return Some([]);
    }
    var tokens: seq<Bytes> := [];
    var start, j := 0, 0;
    while j < |s| - (|sep| - 1)
      invariant 0 <= start <= j && start <= |s|
      invariant Scanned(s, sep, tokens, start)
      invariant forall i | start <= i < j :: !OccursAt(sep, s, i)
      invariant forall k | 0 <= k < |tokens| :: !Occurs(sep, tokens[k])
      decreases |s| - j
    {
      if s[j..j + |sep|] == sep {
        NoneInside(s, sep, start, j);
        ScanStep(s, sep, tokens, start, j);
        tokens := tokens + [s[start..j]];
        start := j + |sep|;
        j := j + |sep| - 1;
      }
      j := j + 1;
    }
    NoneInside(s, sep, start, |s|);
    ScanEnd(s, sep, tokens, start);
    tokens := tokens + [s[start..]];
    assert s[start..|s|] == s[start..];
    return Some(tokens);
  }

  /** `tokens` and the separators after each of them make up s[..start]. */
  ghost predicate Scanned(s: Bytes, sep: Bytes, tokens: seq<Bytes>, start: nat) {
    start <= |s| && s[..start] == if tokens == [] then [] else Join(tokens, sep) + sep
  }

  lemma {:induction false} JoinSnoc(tokens: seq<Bytes>, t: Bytes, sep: Bytes)
    ensures Join(tokens + [t], sep) == if tokens == [] then t else Join(tokens, sep) + sep + t
  {
    assert (tokens + [t])[..|tokens|] == tokens;
  }

  lemma {:induction false} ScanStep(s: Bytes, sep: Bytes, tokens: seq<Bytes>, start: nat, j: nat)
    requires Scanned(s, sep, tokens, start) && start <= j && OccursAt(sep, s, j)
    ensures Scanned(s, sep, tokens + [s[start..j]], j + |sep|)
  {
    JoinSnoc(tokens, s[start..j], sep);
    assert s[..j + |sep|] == s[..start] + s[start..j] + s[j..j + |sep|];
  }

  lemma {:induction false} ScanEnd(s: Bytes, sep: Bytes, tokens: seq<Bytes>, start: nat)
    requires Scanned(s, sep, tokens, start)
    ensures Join(tokens + [s[start..]], sep) == s
  {
    JoinSnoc(tokens, s[start..], sep);
    assert s == s[..start] + s[start..];
  }

  lemma {:induction false} NoneInside(s: Bytes, sep: Bytes, lo: nat, hi: nat)
    requires lo <= hi <= |s| && sep != []
    requires forall i | lo <= i && i + |sep| <= hi :: !OccursAt(sep, s, i)
    ensures !Occurs(sep, s[lo..hi])
  {
    forall i: nat
      ensures !OccursAt(sep, s[lo..hi], i)
    {
      if i + |sep| <= hi - lo {
        SliceOfSlice(s, lo, hi, i, i + |sep|);
        assert !OccursAt(sep, s, lo + i);
      }
    }
  }
}
