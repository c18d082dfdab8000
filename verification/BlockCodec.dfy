/**
 * NginxBlockCodec: the lexer for pasted nginx blocks.
 *
 * Offsets stand for the line and column that the source derives from them. Beside the loops stands a recursive lexer,
 * whose tokens can be followed through a text that is put together from parts: ScanAppend and ScanShift say what the
 * tokens of a concatenation are, and under which condition on the place where the parts meet.
 */
module BlockCodec {
  import opened Text

  datatype Code =
    | InvalidContext | UnbalancedBraces | MultipleBlocks | ExpectedBlock | MissingTerminator
    | InvalidHeader | WrongContext | InvalidName | DanglingEscape | UnterminatedQuote
    | MissingClosingBrace

  datatype Result<+T> = Ok(value: T) | Err(code: Code, offset: int)

  datatype Kind = Word | Open | Close | Semi

  /** value: the word with quotes and escapes resolved; raw: the word as written. */
  datatype Token = Token(kind: Kind, start: nat, raw: string, value: string)

  datatype Scan = Scan(tokens: seq<Token>, trailingComment: bool)

  datatype Draft = Draft(header: string, body: string)

  const NO_QUOTE: char := '\0'

  // ----- the lexer -----

  datatype Lexeme = Lexeme(end: nat, value: string)

  predicate IsQuote(c: char) {
    c == '\'' || c == '"'
  }

  predicate IsPunct(c: char) {
    c == '{' || c == '}' || c == ';'
  }

  /** Where an unquoted word stops. A closing brace does not stop a word. */
  predicate IsBreak(c: char) {
    IsSpace(c) || c == '{' || c == ';'
  }

  function Prepend(v: string, r: Result<Lexeme>): Result<Lexeme> {
    if r.Ok? then Ok(Lexeme(r.value.end, v + r.value.value)) else r
  }

  /** One step of reading a word: stop before position i, fail, or take a piece and go on at `next`. */
  datatype WordMove =
    | Stop
    | Fail(code: Code, offset: int)
    | Go(piece: string, next: nat, quote: char, quoteAt: int)

  function WordStep(s: string, i: nat, quote: char, quoteAt: int): (m: WordMove)
    requires i <= |s|
    ensures m.Go? ==> i < m.next <= |s|
    ensures m.Stop? && i < |s| ==> IsBreak(s[i])
  {
    if i == |s| then
      if quote != NO_QUOTE then Fail(UnterminatedQuote, quoteAt) else Stop
    else if s[i] == '\\' then
      if i + 1 == |s| then Fail(DanglingEscape, i) else Go([s[i + 1]], i + 2, quote, quoteAt)
    else if quote != NO_QUOTE then
      if s[i] == quote then Go("", i + 1, NO_QUOTE, quoteAt) else Go([s[i]], i + 1, quote, quoteAt)
    else if IsQuote(s[i]) then
      Go("", i + 1, s[i], i)
    else if s[i] == '$' && i + 1 < |s| && s[i + 1] == '{' then
      match IndexOf(s, '}', i + 2)
      case None => Fail(UnbalancedBraces, i + 1)
      case Some(e) => Go(s[i..e + 1], e + 1, NO_QUOTE, quoteAt)
    else if IsBreak(s[i]) then
      Stop
    else
      Go([s[i]], i + 1, NO_QUOTE, quoteAt)
  }

  /** The rest of a word from position i, inside the given quote; quoteAt is where that quote opened. */
  function LexWord(s: string, i: nat, quote: char, quoteAt: int): (r: Result<Lexeme>)
    requires i <= |s|
    ensures r.Ok? ==> i <= r.value.end <= |s|
    ensures r.Ok? && r.value.end < |s| ==> IsBreak(s[r.value.end])
    decreases |s| - i
  {
    match WordStep(s, i, quote, quoteAt)
    case Stop => Ok(Lexeme(i, ""))
    case Fail(code, offset) => Err(code, offset)
    case Go(piece, next, q, at) => Prepend(piece, LexWord(s, next, q, at))
  }

  function KindOf(c: char): Kind {
    if c == '{' then Open else if c == '}' then Close else Semi
  }

  function Cons(t: Token, r: Result<Scan>): Result<Scan> {
    if r.Ok? then Ok(Scan([t] + r.value.tokens, r.value.trailingComment)) else r
  }

  function Append(ts: seq<Token>, r: Result<Scan>): Result<Scan> {
    if r.Ok? then Ok(Scan(ts + r.value.tokens, r.value.trailingComment)) else r
  }

  lemma PrependTwice(u: string, v: string, r: Result<Lexeme>)
    ensures Prepend("", r) == r
    ensures Prepend(u, Prepend(v, r)) == Prepend(u + v, r)
  {
    if r.Ok? {
      assert "" + r.value.value == r.value.value;
      assert u + (v + r.value.value) == (u + v) + r.value.value;
    }
  }

  lemma AppendCons(ts: seq<Token>, t: Token, r: Result<Scan>)
    ensures Append([], r) == r
    ensures Append(ts, Cons(t, r)) == Append(ts + [t], r)
  {
    if r.Ok? {
      assert [] + r.value.tokens == r.value.tokens;
      assert ts + ([t] + r.value.tokens) == (ts + [t]) + r.value.tokens;
    }
  }

  /** The tokens start at increasing positions within lo..hi. */
  predicate InOrder(ts: seq<Token>, lo: nat, hi: nat) {
    forall k :: 0 <= k < |ts| ==> lo <= ts[k].start < hi && (k > 0 ==> ts[k - 1].start < ts[k].start)
  }

  /** One step of scan: skip to `next`, end in a comment, emit a token and go on, or fail. */
  datatype ScanMove =
    | Skip(next: nat)
    | Finish(trailing: bool)
    | Emit(token: Token, next: nat)
    | Abort(code: Code, offset: int)

  function ScanStep(s: string, i: nat): (m: ScanMove)
    requires i <= |s|
    ensures m.Skip? ==> i < m.next <= |s|
    ensures m.Emit? ==> i < m.next <= |s| && m.token.start == i && m.token.raw == s[i..(m.next)]
  {
    if i == |s| then Finish(false)
    else if IsSpace(s[i]) then Skip(i + 1)
    else if s[i] == '#' then
      var e := LineEndFrom(s, i);
      if e == |s| then Finish(true) else Skip(e)
    else if IsPunct(s[i]) then Emit(Token(KindOf(s[i]), i, [s[i]], [s[i]]), i + 1)
    else
      match LexWord(s, i, NO_QUOTE, -1)
      case Err(code, offset) => Abort(code, offset)
      case Ok(w) => Emit(Token(Word, i, s[i..w.end], w.value), w.end)
  }

  /** The tokens from position i on. */
  function ScanFrom(s: string, i: nat): (r: Result<Scan>)
    requires i <= |s|
    decreases |s| - i
  {
    match ScanStep(s, i)
    case Finish(trailing) => Ok(Scan([], trailing))
    case Abort(code, offset) => Err(code, offset)
    case Skip(next) => ScanFrom(s, next)
    case Emit(token, next) => Cons(token, ScanFrom(s, next))
  }

  lemma {:induction false} ScanInOrder(s: string, i: nat)
    requires i <= |s|
    ensures ScanFrom(s, i).Ok? ==> InOrder(ScanFrom(s, i).value.tokens, i, |s|)
    decreases |s| - i
  {
    var m := ScanStep(s, i);
    if m.Skip? || m.Emit? { ScanInOrder(s, m.next); }
  }

  /** What one step of the word loop leaves to be read. */
  lemma OnePiece(all: Result<Lexeme>, value: string, text: string, i: nat, quote: char, quoteAt: int)
    requires i <= |text| && all == Prepend(value, LexWord(text, i, quote, quoteAt))
    ensures match WordStep(text, i, quote, quoteAt)
            case Stop => all == Ok(Lexeme(i, value))
            case Fail(code, offset) => all == Err(code, offset)
            case Go(piece, next, q, at) => all == Prepend(value + piece, LexWord(text, next, q, at))
  {
    hide WordStep;
    match WordStep(text, i, quote, quoteAt)
    case Stop => assert value + "" == value;
    case Fail(code, offset) =>
    case Go(piece, next, q, at) => PrependTwice(value, piece, LexWord(text, next, q, at));
  }

  /** One word of scan: the inner loop. */
  method ScanWord(text: string, start: nat) returns (r: Result<Lexeme>)
    requires start <= |text|
    ensures r == LexWord(text, start, NO_QUOTE, -1)
  {
    hide LexWord, Prepend, IndexOf;
    var i := start;
    var value := "";
    var quote := NO_QUOTE;
    var quoteStart := -1;
    PrependTwice("", "", LexWord(text, start, NO_QUOTE, -1));
    while i < |text|
      invariant start <= i <= |text|
      invariant quote == NO_QUOTE || IsQuote(quote)
      invariant LexWord(text, start, NO_QUOTE, -1) == Prepend(value, LexWord(text, i, quote, quoteStart))
      invariant value + "" == value
      decreases |text| - i
    {
      OnePiece(LexWord(text, start, NO_QUOTE, -1), value, text, i, quote, quoteStart);
      var ch := text[i];
      if ch == '\\' {
        if i + 1 == |text| { return Err(DanglingEscape, i); }
        value := value + [text[i + 1]];
        i := i + 2;
      } else if quote != NO_QUOTE {
        if ch == quote { quote := NO_QUOTE; } else { value := value + [ch]; }
        i := i + 1;
      } else if ch == '\'' || ch == '"' {
        quote := ch;
        quoteStart := i;
        i := i + 1;
      } else if ch == '$' && i + 1 < |text| && text[i + 1] == '{' {
        var end := IndexOf(text, '}', i + 2);
        if end.None? { return Err(UnbalancedBraces, i + 1); }
        value := value + text[i..end.value + 1];
        i := end.value + 1;
      } else if IsSpace(ch) || ch == '{' || ch == ';' {
        break;
      } else {
        value := value + [ch];
        i := i + 1;
      }
    }
    OnePiece(LexWord(text, start, NO_QUOTE, -1), value, text, i, quote, quoteStart);
    if quote != NO_QUOTE { return Err(UnterminatedQuote, quoteStart); }
    r := Ok(Lexeme(i, value));
  }

  method SkipComment(text: string, from: nat) returns (i: nat)
    requires from <= |text|
    ensures i == LineEndFrom(text, from)
  {
    i := from;
    while i < |text| && text[i] != '\n' && text[i] != '\r'
      invariant from <= i <= |text|
      invariant forall k :: from <= k < i ==> !IsLineEnd(text[k])
    {
      i := i + 1;
    }
    LineEndUnique(text, from, i);
  }

  /** scan, in the source's loops. */
  method ScanText(text: string) returns (r: Result<Scan>)
    ensures r == ScanFrom(text, 0)
  {
    hide LexWord, LineEndFrom;
    var tokens: seq<Token> := [];
    var trailing := false;
    var i := 0;
    AppendCons([], Token(Semi, 0, "", ""), ScanFrom(text, 0));
    while i < |text|
      invariant i <= |text|
      invariant trailing ==> i == |text|
      invariant ScanFrom(text, 0) == Append(tokens, if trailing then Ok(Scan([], true)) else ScanFrom(text, i))
      decreases |text| - i
    {
      var ch := text[i];
      if IsSpace(ch) { i := i + 1; continue; }
      if ch == '#' {
        i := SkipComment(text, i);
        trailing := i == |text|;
        continue;
      }
      if ch == '{' || ch == '}' || ch == ';' {
        AppendCons(tokens, Token(KindOf(ch), i, [ch], [ch]), ScanFrom(text, i + 1));
        tokens := tokens + [Token(KindOf(ch), i, [ch], [ch])];
        i := i + 1;
        continue;
      }
      var word := ScanWord(text, i);
      if word.Err? { return Err(word.code, word.offset); }
      AppendCons(tokens, Token(Word, i, text[i..word.value.end], word.value.value), ScanFrom(text, word.value.end));
      tokens := tokens + [Token(Word, i, text[i..word.value.end], word.value.value)];
      i := word.value.end;
    }
    assert tokens + [] == tokens;
    r := Ok(Scan(tokens, trailing));
  }

  // ----- the lexer is local: what it reads depends on the text from a token boundary on -----

  function MoveLexeme(r: Result<Lexeme>, n: nat): Result<Lexeme> {
    match r
    case Ok(w) => Ok(Lexeme(w.end + n, w.value))
    case Err(c, o) => Err(c, o + n)
  }

  function Move(ts: seq<Token>, n: nat): (r: seq<Token>)
    ensures |r| == |ts|
    ensures forall k :: 0 <= k < |ts| ==> r[k] == ts[k].(start := ts[k].start + n)
  {
    if ts == [] then [] else [ts[0].(start := ts[0].start + n)] + Move(ts[1..], n)
  }

  lemma {:induction false} MoveConcat(a: seq<Token>, b: seq<Token>, n: nat)
    ensures Move(a + b, n) == Move(a, n) + Move(b, n)
  {
    hide Move;
  }

  function MoveScan(r: Result<Scan>, n: nat): Result<Scan> {
    match r
    case Ok(sc) => Ok(Scan(Move(sc.tokens, n), sc.trailingComment))
    case Err(c, o) => Err(c, o + n)
  }

  function MoveWordMove(m: WordMove, n: nat): WordMove {
    match m
    case Stop => Stop
    case Fail(c, o) => Fail(c, o + n)
    case Go(piece, next, quote, at) => Go(piece, next + n, quote, at + n)
  }

  lemma WordStepAppend(p: string, q: string, i: nat, quote: char, quoteAt: int)
    requires i <= |p|
    requires !WordStep(p, i, quote, quoteAt).Fail?
    requires i == |p| ==> q == "" || IsSpace(q[0])
    requires i + 1 == |p| && p[i] == '$' ==> q == "" || q[0] != '{'
    ensures WordStep(p + q, i, quote, quoteAt) == WordStep(p, i, quote, quoteAt)
  {
    hide IndexOf;
    var s := p + q;
    assert forall k :: 0 <= k < |p| ==> s[k] == p[k];
    assert forall k :: 0 <= k < |q| ==> s[|p| + k] == q[k];
    var e := IndexOf(p, '}', i + 2);
    if e.Some? {
      IndexOfAppend(p, q, '}', i + 2);
      assert s[i..e.value + 1] == p[i..e.value + 1];
    }
  }

  lemma WordStepShift(p: string, q: string, j: nat, quote: char, quoteAt: int)
    requires j <= |q|
    ensures WordStep(p + q, |p| + j, quote, |p| + quoteAt) == MoveWordMove(WordStep(q, j, quote, quoteAt), |p|)
  {
    hide IndexOf;
    var s := p + q;
    if j < |q| {
      assert s[|p| + j] == q[j];
      if j + 1 < |q| {
        assert s[|p| + j + 1] == q[j + 1];
        VariableShift(p, q, j);
      }
    }
  }

  lemma VariableShift(p: string, q: string, j: nat)
    requires j + 2 <= |q|
    ensures var e, moved := IndexOf(q, '}', j + 2), IndexOf(p + q, '}', |p| + j + 2);
            if e.None? then moved.None?
            else moved == Some(|p| + e.value) && (p + q)[|p| + j..|p| + e.value + 1] == q[j..e.value + 1]
  {
    IndexOfShift(p, q, '}', j + 2);
    var e := IndexOf(q, '}', j + 2);
    if e.Some? { SliceShift(p, q, j, e.value + 1); }
  }

  lemma SliceShift(p: string, q: string, a: nat, b: nat)
    requires a <= b <= |q|
    ensures (p + q)[|p| + a..|p| + b] == q[a..b]
  {
  }

  lemma {:induction false} LexWordAppend(p: string, q: string, i: nat, quote: char, quoteAt: int)
    requires i <= |p|
    requires LexWord(p, i, quote, quoteAt).Ok?
    requires LexWord(p, i, quote, quoteAt).value.end < |p| || q == "" || IsSpace(q[0])
    ensures LexWord(p + q, i, quote, quoteAt) == LexWord(p, i, quote, quoteAt)
    decreases |p| - i
  {
    hide WordStep;
    WordStepAppend(p, q, i, quote, quoteAt);
    var m := WordStep(p, i, quote, quoteAt);
    if m.Go? { LexWordAppend(p, q, m.next, m.quote, m.quoteAt); }
  }

  /** Outside quotes the remembered quote position plays no part. */
  lemma {:induction false} LexWordQuoteAt(s: string, i: nat, a: int, b: int)
    requires i <= |s|
    ensures LexWord(s, i, NO_QUOTE, a) == LexWord(s, i, NO_QUOTE, b)
    decreases |s| - i
  {
    hide IndexOf;
    var m := WordStep(s, i, NO_QUOTE, a);
    if m.Go? && m.quote == NO_QUOTE { LexWordQuoteAt(s, m.next, a, b); }
  }

  lemma {:induction false} LexWordShift(p: string, q: string, j: nat, quote: char, quoteAt: int)
    requires j <= |q|
    ensures LexWord(p + q, |p| + j, quote, |p| + quoteAt) == MoveLexeme(LexWord(q, j, quote, quoteAt), |p|)
    decreases |q| - j
  {
    hide WordStep;
    WordStepShift(p, q, j, quote, quoteAt);
    var m := WordStep(q, j, quote, quoteAt);
    if m.Go? { LexWordShift(p, q, m.next, m.quote, m.quoteAt); }
  }

  function MoveScanMove(m: ScanMove, n: nat): ScanMove {
    match m
    case Skip(next) => Skip(next + n)
    case Finish(trailing) => m
    case Emit(t, next) => Emit(t.(start := t.start + n), next + n)
    case Abort(c, o) => Abort(c, o + n)
  }

  lemma LineEndShift(p: string, q: string, j: nat)
    requires j <= |q|
    ensures LineEndFrom(p + q, |p| + j) == |p| + LineEndFrom(q, j)
  {
    var s := p + q;
    var e := LineEndFrom(q, j);
    assert forall k {:trigger s[k]} :: |p| + j <= k < |p| + e ==> s[k] == q[k - |p|];
    LineEndUnique(s, |p| + j, |p| + e);
  }

  lemma WordShift(p: string, q: string, j: nat)
    requires j <= |q|
    ensures LexWord(p + q, |p| + j, NO_QUOTE, -1) == MoveLexeme(LexWord(q, j, NO_QUOTE, -1), |p|)
  {
    hide LexWord;
    LexWordShift(p, q, j, NO_QUOTE, -1);
    LexWordQuoteAt(p + q, |p| + j, -1, |p| - 1);
  }

  lemma ScanStepShift(p: string, q: string, j: nat)
    requires j <= |q|
    ensures ScanStep(p + q, |p| + j) == MoveScanMove(ScanStep(q, j), |p|)
  {
    hide LexWord, LineEndFrom, IndexOf, IsSpace;
    var s := p + q;
    LineEndShift(p, q, j);
    WordShift(p, q, j);
    if j < |q| {
      assert s[|p| + j] == q[j];
      var w := LexWord(q, j, NO_QUOTE, -1);
      if w.Ok? {
        assert s[|p| + j..|p| + w.value.end] == q[j..w.value.end];
      }
    }
  }

  lemma {:induction false} ScanShift(p: string, q: string, j: nat)
    requires j <= |q|
    ensures ScanFrom(p + q, |p| + j) == MoveScan(ScanFrom(q, j), |p|)
    decreases |q| - j
  {
    hide ScanStep;
    ScanStepShift(p, q, j);
    var m := ScanStep(q, j);
    if m.Skip? || m.Emit? { ScanShift(p, q, m.next); }
  }

  /** The text ends in a word that text appended to it could lengthen. */
  predicate EndsInWord(sc: Scan, length: nat) {
    sc.tokens != [] && var last := sc.tokens[|sc.tokens| - 1];
    last.kind.Word? && last.start + |last.raw| == length
  }

  /** Appending q to a text scanned as sc cannot change what was read. */
  predicate Joins(sc: Scan, length: nat, q: string) {
    q != "" &&
    (IsLineEnd(q[0]) || (!sc.trailingComment && (IsSpace(q[0]) || !EndsInWord(sc, length))))
  }

  lemma ScanStepAppend(p: string, q: string, i: nat)
    requires i < |p|
    requires !ScanStep(p, i).Abort?
    requires ScanStep(p, i).Finish? ==> q != "" && IsLineEnd(q[0])
    requires ScanStep(p, i).Emit? && ScanStep(p, i).token.kind.Word? && ScanStep(p, i).next == |p| ==>
              q == "" || IsSpace(q[0])
    ensures ScanStep(p + q, i) == if ScanStep(p, i).Finish? then Skip(|p|) else ScanStep(p, i)
  {
    var s := p + q;
    assert forall k :: 0 <= k < |p| ==> s[k] == p[k];
    assert q != "" ==> s[|p|] == q[0];
    if p[i] == '#' {
      LineEndUnique(s, i, LineEndFrom(p, i));
    } else if !IsSpace(p[i]) && !IsPunct(p[i]) {
      LexWordAppend(p, q, i, NO_QUOTE, -1);
      var w := LexWord(p, i, NO_QUOTE, -1).value;
      assert s[i..w.end] == p[i..w.end];
    }
  }

  /** If q joins on to p, the tokens of p + q are those of p followed by those read from q's start. */
  lemma {:induction false} ScanAppend(p: string, q: string, i: nat)
    requires i <= |p|
    requires ScanFrom(p, i).Ok?
    requires Joins(ScanFrom(p, i).value, |p|, q)
    ensures ScanFrom(p + q, i) == Append(ScanFrom(p, i).value.tokens, ScanFrom(p + q, |p|))
    decreases |p| - i
  {
    var rest := ScanFrom(p + q, |p|);
    AppendCons([], Token(Semi, 0, "", ""), rest);
    if i < |p| {
      var m := ScanStep(p, i);
      if m.Emit? {
        JoinsTail(m.token, ScanFrom(p, m.next).value, |p|, q);
        if m.token.kind.Word? && m.next == |p| { EmptyRestEndsInWord(p, i); }
        ScanStepAppend(p, q, i);
        ScanAppend(p, q, m.next);
        ConsAppend(m.token, ScanFrom(p, m.next).value.tokens, rest);
      } else {
        ScanStepAppend(p, q, i);
        if m.Skip? { ScanAppend(p, q, m.next); }
      }
    }
  }

  lemma JoinsTail(t: Token, sc: Scan, length: nat, q: string)
    requires Joins(Scan([t] + sc.tokens, sc.trailingComment), length, q)
    ensures Joins(sc, length, q)
  {
    var all := [t] + sc.tokens;
    assert sc.tokens != [] ==> all[|all| - 1] == sc.tokens[|sc.tokens| - 1];
  }

  lemma EmptyRestEndsInWord(s: string, i: nat)
    requires i <= |s|
    requires ScanStep(s, i).Emit? && ScanStep(s, i).token.kind.Word? && ScanStep(s, i).next == |s|
    ensures ScanFrom(s, i).Ok?
    ensures EndsInWord(ScanFrom(s, i).value, |s|) && !ScanFrom(s, i).value.trailingComment
  {
    assert ScanFrom(s, |s|) == Ok(Scan([], false));
    assert ScanFrom(s, i).value.tokens == [ScanStep(s, i).token];
  }

  lemma ConsAppend(t: Token, ts: seq<Token>, r: Result<Scan>)
    ensures Cons(t, Append(ts, r)) == Append([t] + ts, r)
  {
    if r.Ok? {
      assert [t] + (ts + r.value.tokens) == ([t] + ts) + r.value.tokens;
    }
  }
}
