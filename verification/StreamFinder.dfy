/**
 * ConfService.findTopLevelStreamBlock: the second lexer, which cuts the top-level stream block out of a
 * finished configuration character by character, and its agreement with NginxBlockCodec's lexer.
 */
module StreamFinder {
  import opened Text
  import opened BlockCodec
  import opened BlockRoundTrip

  const STREAM := "stream"

  predicate IsNginxWordChar(c: char) {
    'a' <= c <= 'z' || 'A' <= c <= 'Z' || '0' <= c <= '9' || c == '_' || c == '$' || c == '-'
  }

  /** After any white space from position i on comes an opening brace. */
  predicate BraceFollows(s: string, i: nat)
    decreases |s| - i
  {
    i < |s| && (s[i] == '{' || (IsSpace(s[i]) && BraceFollows(s, i + 1)))
  }

  predicate StreamAt(s: string, i: nat)
    requires i <= |s|
  {
    && STREAM <= s[i..]
    && (i + 6 == |s| || !IsNginxWordChar(s[i + 6]))
    && BraceFollows(s, i + 6)
  }

  /** The loop's variables. */
  datatype Finder = Finder(candidate: int, depth: nat, quote: char, escaped: bool, comment: bool, boundary: bool)

  const INIT := Finder(-1, 0, NO_QUOTE, false, false, true)

  datatype Move = Next(i: nat, st: Finder) | Return(from: int, to: nat)

  /** The loop body at position i. */
  function FindStep(s: string, i: nat, st: Finder): (m: Move)
    requires i < |s|
    ensures m.Next? ==> i < m.i <= |s|
  {
    var ch := s[i];
    if st.comment then
      Next(i + 1, if ch == '\n' || ch == '\r' then st.(comment := false, boundary := true) else st)
    else if st.quote != NO_QUOTE then
      Next(i + 1, if st.escaped then st.(escaped := false)
                  else if ch == '\\' then st.(escaped := true)
                  else if ch == st.quote then st.(quote := NO_QUOTE, boundary := false)
                  else st)
    else if ch == '\\' then
      Next(if i + 1 < |s| then i + 2 else i + 1, st.(boundary := false))
    else if st.boundary && ch == '#' then
      Next(i + 1, st.(comment := true))
    else if ch == '\'' || ch == '"' then
      Next(i + 1, st.(quote := ch, boundary := false))
    else if ch == '$' && i + 1 < |s| && s[i + 1] == '{' then
      var end := IndexOf(s, '}', i + 2);
      Next(if end.Some? then end.value + 1 else i + 1, st.(boundary := false))
    else
      var cand := if st.boundary && st.depth == 0 && StreamAt(s, i) then i else st.candidate;
      if IsSpace(ch) then Next(i + 1, st.(candidate := cand, boundary := true))
      else if ch == '{' then Next(i + 1, st.(candidate := cand, depth := st.depth + 1, boundary := true))
      else if st.boundary && ch == '}' && st.depth > 0 then
        if st.depth == 1 && cand >= 0 then Return(cand, i + 1)
        else Next(i + 1, st.(candidate := cand, depth := st.depth - 1))
      else Next(i + 1, st.(candidate := cand, boundary := ch == ';'))
  }

  /** Start and end of the block the loop finds from position i on. */
  function FindFrom(s: string, i: nat, st: Finder): (r: Option<(int, nat)>)
    requires i <= |s|
    decreases |s| - i
  {
    if i == |s| then None
    else
      match FindStep(s, i, st)
      case Return(from, to) => Some((from, to))
      case Next(j, st') => FindFrom(s, j, st')
  }

  method StreamStarts(conf: string, i: nat) returns (starts: bool)
    requires i <= |conf|
    ensures starts == StreamAt(conf, i)
  {
    if !(STREAM <= conf[i..]) || (i + 6 < |conf| && IsNginxWordChar(conf[i + 6])) { return false; }
    var next := i + 6;
    while next < |conf| && IsSpace(conf[next])
      invariant i + 6 <= next <= |conf|
      invariant BraceFollows(conf, i + 6) == BraceFollows(conf, next)
    {
      next := next + 1;
    }
    starts := next < |conf| && conf[next] == '{';
  }

  lemma FindOneMore(s: string, i: nat, st: Finder)
    requires i <= |s|
    ensures FindFrom(s, i, st) ==
            if i == |s| then None
            else match FindStep(s, i, st)
                 case Return(from, to) => Some((from, to))
                 case Next(j, st') => FindFrom(s, j, st')
  {
  }

  method FindTopLevelStreamBlock(conf: string) returns (r: Option<string>)
    ensures FindFrom(conf, 0, INIT).None? ==> r == None
    ensures FindFrom(conf, 0, INIT).Some? ==>
              var (from, to) := FindFrom(conf, 0, INIT).value;
              0 <= from <= to <= |conf| && r == Some(conf[from..to])
  {
    hide FindFrom, StreamAt, IndexOf, IsSpace;
    var candidate := -1;
    var depth: nat := 0;
    var quote := NO_QUOTE;
    var escaped, comment, tokenBoundary := false, false, true;
    var i := 0;
    while i < |conf|
      invariant i <= |conf| && candidate <= i
      invariant FindFrom(conf, 0, INIT) ==
                FindFrom(conf, i, Finder(candidate, depth, quote, escaped, comment, tokenBoundary))
      decreases |conf| - i
    {
      FindOneMore(conf, i, Finder(candidate, depth, quote, escaped, comment, tokenBoundary));
      var ch := conf[i];
      if comment {
        if ch == '\n' || ch == '\r' {
          comment := false;
          tokenBoundary := true;
        }
        i := i + 1;
        continue;
      }
      if quote != NO_QUOTE {
        if escaped { escaped := false; }
        else if ch == '\\' { escaped := true; }
        else if ch == quote {
          quote := NO_QUOTE;
          tokenBoundary := false;
        }
        i := i + 1;
        continue;
      }
      if ch == '\\' {
        if i + 1 < |conf| { i := i + 1; }
        tokenBoundary := false;
        i := i + 1;
        continue;
      }
      if tokenBoundary && ch == '#' {
        comment := true;
        i := i + 1;
        continue;
      }
      if ch == '\'' || ch == '"' {
        quote := ch;
        tokenBoundary := false;
        i := i + 1;
        continue;
      }
      if ch == '$' && i + 1 < |conf| && conf[i + 1] == '{' {
        var end := IndexOf(conf, '}', i + 2);
        if end.Some? { i := end.value; }
        tokenBoundary := false;
        i := i + 1;
        continue;
      }
      if tokenBoundary && depth == 0 {
        var starts := StreamStarts(conf, i);
        if starts { candidate := i; }
      }
      if IsSpace(ch) {
        tokenBoundary := true;
        i := i + 1;
        continue;
      }
      if ch == '{' {
        depth := depth + 1;
        tokenBoundary := true;
      } else if tokenBoundary && ch == '}' && depth > 0 {
        depth := depth - 1;
        tokenBoundary := true;
        if depth == 0 && candidate >= 0 { return Some(conf[candidate..i + 1]); }
      } else if ch == ';' {
        tokenBoundary := true;
      } else {
        tokenBoundary := false;
      }
      i := i + 1;
    }
    FindOneMore(conf, i, Finder(candidate, depth, quote, escaped, comment, tokenBoundary));
    r := None;
  }

  // ----- the same search over NginxBlockCodec's tokens -----

  /** Lost: the text does not scan, or a closing brace has nothing to close. */
  datatype Search = Found(from: int, to: nat) | NotFound | Lost

  datatype Progress = On(depth: nat, candidate: int) | Done(result: Search)

  /** What one token, which ends at `next`, does to the depth and to the remembered start of a stream block. */
  function Advance(s: string, t: Token, next: nat, depth: nat, candidate: int): Progress {
    match t.kind
    case Word => On(depth, if depth == 0 && t.raw == STREAM && BraceFollows(s, next) then t.start else candidate)
    case Open => On(depth + 1, candidate)
    case Semi => On(depth, candidate)
    case Close =>
      if depth == 0 then Done(Lost)
      else if depth == 1 && candidate >= 0 then Done(Found(candidate, next))
      else On(depth - 1, candidate)
  }

  /** Read tokens from position i on until the block that follows a top-level "stream" closes. */
  function TokenSearch(s: string, i: nat, depth: nat, candidate: int): Search
    requires i <= |s|
    decreases |s| - i
  {
    match ScanStep(s, i)
    case Finish(_) => NotFound
    case Abort(_, _) => Lost
    case Skip(next) => TokenSearch(s, next, depth, candidate)
    case Emit(t, next) =>
      match Advance(s, t, next, depth, candidate)
      case Done(r) => r
      case On(d, c) => TokenSearch(s, next, d, c)
  }

  // ----- the character loop follows the tokens -----

  /** The loop between two tokens. */
  function Between(depth: nat, candidate: int, boundary: bool): Finder {
    Finder(candidate, depth, NO_QUOTE, false, false, boundary)
  }

  /** Inside a word, the loop runs to the word's end and changes nothing else. */
  lemma {:induction false} WordRun(s: string, i: nat, quote: char, quoteAt: int, st: Finder)
    requires i <= |s| && LexWord(s, i, quote, quoteAt).Ok?
    requires st.quote == quote && !st.escaped && !st.comment && !st.boundary
    requires quote == NO_QUOTE || IsQuote(quote)
    ensures FindFrom(s, i, st) == FindFrom(s, LexWord(s, i, quote, quoteAt).value.end, st.(quote := NO_QUOTE))
    decreases |s| - i
  {
    var m := WordStep(s, i, quote, quoteAt);
    if m.Go? {
      WordRun(s, m.next, m.quote, m.quoteAt, st.(quote := m.quote));
      if quote != NO_QUOTE && s[i] == '\\' {
        assert FindStep(s, i, st) == Next(i + 1, st.(escaped := true));
        assert FindStep(s, i + 1, st.(escaped := true)) == Next(i + 2, st);
        assert FindFrom(s, i + 1, st.(escaped := true)) == FindFrom(s, i + 2, st);
      } else {
        assert FindStep(s, i, st) == Next(m.next, st.(quote := m.quote));
      }
    }
  }

  /** A word starts with a stream candidate exactly when it is the bare word "stream". */
  lemma StreamIsTheWord(s: string, i: nat)
    requires i < |s| && ScanStep(s, i).Emit? && ScanStep(s, i).token.kind.Word?
    ensures StreamAt(s, i) <==> ScanStep(s, i).token.raw == STREAM && BraceFollows(s, ScanStep(s, i).next)
  {
    hide LexWord, ScanStep, BraceFollows;
    var m := ScanStep(s, i);
    WordToken(s, i);
    if STREAM <= s[i..] {
      StreamWord(s, i);
      if BraceFollows(s, i + 6) { BareStream(s, i); }
      assert m.token.raw == STREAM ==> |m.token.raw| == 6;
    } else {
      RawIsPrefix(s, i);
    }
  }

  lemma WordToken(s: string, i: nat)
    requires i < |s| && ScanStep(s, i).Emit? && ScanStep(s, i).token.kind.Word?
    ensures LexWord(s, i, NO_QUOTE, -1).Ok? && LexWord(s, i, NO_QUOTE, -1).value.end == ScanStep(s, i).next
  {
    hide LexWord, LineEndFrom;
  }

  lemma RawIsPrefix(s: string, i: nat)
    requires i < |s| && ScanStep(s, i).Emit?
    ensures ScanStep(s, i).token.raw <= s[i..]
  {
    var m := ScanStep(s, i);
    assert s[i..] == s[i..m.next] + s[m.next..];
  }

  lemma BareStream(s: string, i: nat)
    requires i + 6 <= |s| && s[i..i + 6] == STREAM && BraceFollows(s, i + 6)
    requires LexWord(s, i, NO_QUOTE, -1) == Prepend(STREAM, LexWord(s, i + 6, NO_QUOTE, -1))
    ensures LexWord(s, i, NO_QUOTE, -1) == Ok(Lexeme(i + 6, STREAM))
    ensures !IsNginxWordChar(s[i + 6])
  {
    assert WordStep(s, i + 6, NO_QUOTE, -1) == Stop;
    assert STREAM + "" == STREAM;
  }

  lemma StreamWord(s: string, i: nat)
    requires i <= |s| && STREAM <= s[i..]
    ensures i + 6 <= |s| && s[i..i + 6] == STREAM
    ensures LexWord(s, i, NO_QUOTE, -1) == Prepend(STREAM, LexWord(s, i + 6, NO_QUOTE, -1))
  {
    hide LexWord, Prepend;
    assert s[i..][..6] == STREAM;
    assert forall k :: 0 <= k < 6 ==> s[i + k] == s[i..][k] == STREAM[k];
    Letters(s, i, 0);
    PrependTwice("", STREAM, LexWord(s, i + 6, NO_QUOTE, -1));
  }

  /** The letters of "stream" from the k-th on are read as they stand. */
  lemma {:induction false} Letters(s: string, i: nat, k: nat)
    requires k <= 6 && i + 6 <= |s| && forall j :: 0 <= j < 6 ==> s[i + j] == STREAM[j]
    ensures LexWord(s, i + k, NO_QUOTE, -1) == Prepend(STREAM[k..], LexWord(s, i + 6, NO_QUOTE, -1))
    decreases 6 - k
  {
    hide LexWord, Prepend;
    PrependTwice("", "", LexWord(s, i + 6, NO_QUOTE, -1));
    if k < 6 {
      Letters(s, i, k + 1);
      assert s[i + k] == STREAM[k] && 'a' <= STREAM[k] <= 'z';
      PlainLetter(s, i + k);
      PrependTwice([STREAM[k]], STREAM[k + 1..], LexWord(s, i + 6, NO_QUOTE, -1));
      assert STREAM[k..] == [STREAM[k]] + STREAM[k + 1..];
    } else {
      assert STREAM[6..] == "";
    }
  }

  lemma PlainLetter(s: string, i: nat)
    requires i < |s| && 'a' <= s[i] <= 'z'
    ensures LexWord(s, i, NO_QUOTE, -1) == Prepend([s[i]], LexWord(s, i + 1, NO_QUOTE, -1))
  {
  }

  /** From the start of a word to its end. */
  lemma WordFound(s: string, i: nat, depth: nat, candidate: int)
    requires i < |s| && ScanStep(s, i).Emit? && ScanStep(s, i).token.kind.Word?
    ensures var m := ScanStep(s, i);
            var here := depth == 0 && m.token.raw == STREAM && BraceFollows(s, m.next);
            FindFrom(s, i, Between(depth, candidate, true)) ==
            FindFrom(s, m.next, Between(depth, if here then i else candidate, false))
  {
    var st := Between(depth, candidate, true);
    StreamIsTheWord(s, i);
    var w := WordStep(s, i, NO_QUOTE, -1);
    var cand := if depth == 0 && StreamAt(s, i) then i else candidate;
    if StreamAt(s, i) { assert s[i] == s[i..][0] == 's'; }
    var st' := Between(depth, cand, false).(quote := w.quote);
    assert FindStep(s, i, st) == Next(w.next, st');
    WordRun(s, w.next, w.quote, w.quoteAt, st');
  }

  /** A comment is passed over; behind it the loop is at a boundary, as the lexer is. */
  lemma {:induction false} CommentRun(s: string, i: nat, depth: nat, candidate: int)
    requires i <= |s|
    ensures var e := LineEndFrom(s, i);
            FindFrom(s, i, Between(depth, candidate, true).(comment := true)) ==
            if e == |s| then None else FindFrom(s, e, Between(depth, candidate, true))
    decreases |s| - i
  {
    if i < |s| && !IsLineEnd(s[i]) {
      CommentRun(s, i + 1, depth, candidate);
    } else if i < |s| {
      var st := Between(depth, candidate, true);
      NotStream(s, i);
      assert FindStep(s, i, st) == Next(i + 1, st);
      assert FindStep(s, i, st.(comment := true)) == Next(i + 1, st);
    }
  }

  lemma NotStream(s: string, i: nat)
    requires i < |s| && s[i] != 's'
    ensures !StreamAt(s, i)
  {
    assert s[i..][0] == s[i] && STREAM[0] == 's';
  }

  function AsOption(r: Search): Option<(int, nat)> {
    match r
    case Found(from, to) => Some((from, to))
    case _ => None
  }

  /** The two lexers agree: unless the token search is lost, the character loop finds just what it finds. */
  lemma {:induction false} LexersAgree(s: string, i: nat, depth: nat, candidate: int, boundary: bool)
    requires i <= |s|
    requires boundary || i == |s| || IsBreak(s[i])
    requires TokenSearch(s, i, depth, candidate) != Lost
    ensures FindFrom(s, i, Between(depth, candidate, boundary)) == AsOption(TokenSearch(s, i, depth, candidate))
    decreases |s| - i
  {
    hide LexWord, IndexOf, StreamAt;
    var st := Between(depth, candidate, boundary);
    var m := ScanStep(s, i);
    if i < |s| {
      if IsSpace(s[i]) {
        NotStream(s, i);
        assert FindStep(s, i, st) == Next(i + 1, st.(boundary := true));
        LexersAgree(s, m.next, depth, candidate, true);
      } else if s[i] == '#' {
        assert FindStep(s, i, st) == Next(i + 1, st.(comment := true));
        CommentRun(s, i + 1, depth, candidate);
        assert LineEndFrom(s, i) == LineEndFrom(s, i + 1);
        if m.Skip? { LexersAgree(s, m.next, depth, candidate, true); }
      } else {
        var a := Advance(s, m.token, m.next, depth, candidate);
        if m.token.kind.Word? {
          WordFound(s, i, depth, candidate);
          LexersAgree(s, m.next, a.depth, a.candidate, false);
        } else {
          PunctRun(s, i, depth, candidate, boundary);
          if a.On? { LexersAgree(s, m.next, a.depth, a.candidate, true); }
        }
      }
    }
  }

  lemma PunctRun(s: string, i: nat, depth: nat, candidate: int, boundary: bool)
    requires i < |s| && IsPunct(s[i]) && (boundary || IsBreak(s[i])) && (s[i] == '}' ==> depth > 0)
    ensures FindStep(s, i, Between(depth, candidate, boundary)) ==
            if s[i] == '{' then Next(i + 1, Between(depth + 1, candidate, true))
            else if s[i] == ';' then Next(i + 1, Between(depth, candidate, true))
            else if depth == 1 && candidate >= 0 then Return(candidate, i + 1)
            else Next(i + 1, Between(depth - 1, candidate, true))
  {
    NotStream(s, i);
  }

  // ----- a stream block between other text -----

  function Delta(t: Token): int {
    if t.kind.Open? then 1 else if t.kind.Close? then -1 else 0
  }

  /**
   * Reading from this depth, no token closes more than was opened, and no top-level "stream" is followed by a brace.
   */
  predicate Calm(ts: seq<Token>, depth: int, s: string) {
    && depth >= 0
    && (ts != [] ==>
          && (ts[0].kind.Word? && ts[0].raw == STREAM && depth == 0 ==> !BraceFollows(s, ts[0].start + 6))
          && Calm(ts[1..], depth + Delta(ts[0]), s))
  }

  /** The depth reached by reading all tokens from this depth. */
  function DepthAfter(ts: seq<Token>, depth: int): int {
    if ts == [] then depth else DepthAfter(ts[1..], depth + Delta(ts[0]))
  }

  lemma {:induction false} DepthCons(t: Token, ts: seq<Token>, k: nat)
    requires k <= |ts|
    ensures Depth([t] + ts, k + 1) == Delta(t) + Depth(ts, k)
  {
    if k > 0 {
      DepthCons(t, ts, k - 1);
      assert ([t] + ts)[k] == ts[k - 1];
    }
  }

  lemma CalmAdvance(t: Token, ts: seq<Token>, next: nat, depth: nat, s: string)
    requires Calm([t] + ts, depth, s) && next == t.start + |t.raw|
    ensures depth + Delta(t) >= 0 && Calm(ts, depth + Delta(t), s)
    ensures DepthAfter([t] + ts, depth) == DepthAfter(ts, depth + Delta(t))
    ensures Advance(s, t, next, depth, -1) == On(depth + Delta(t), -1)
  {
    assert ([t] + ts)[1..] == ts;
  }

  /** Reading calm text in front of q brings the search to q with nothing found. */
  lemma {:induction false} SearchThrough(p: string, q: string, i: nat, depth: nat)
    requires i <= |p| && ScanFrom(p, i).Ok? && Joins(ScanFrom(p, i).value, |p|, q)
    requires Calm(ScanFrom(p, i).value.tokens, depth, p + q)
    ensures DepthAfter(ScanFrom(p, i).value.tokens, depth) >= 0
    ensures TokenSearch(p + q, i, depth, -1)
         == TokenSearch(p + q, |p|, DepthAfter(ScanFrom(p, i).value.tokens, depth), -1)
    decreases |p| - i
  {
    hide Calm, Advance, LexWord;
    if i < |p| {
      var m := ScanStep(p, i);
      if m.Emit? {
        SearchStep(p, q, i, depth);
        SearchThrough(p, q, m.next, depth + Delta(m.token));
      } else {
        ScanStepAppend(p, q, i);
        if m.Skip? { SearchThrough(p, q, m.next, depth); }
      }
    }
  }

  lemma SearchStep(p: string, q: string, i: nat, depth: nat)
    requires i < |p| && ScanFrom(p, i).Ok? && Joins(ScanFrom(p, i).value, |p|, q)
    requires Calm(ScanFrom(p, i).value.tokens, depth, p + q) && ScanStep(p, i).Emit?
    ensures var m := ScanStep(p, i);
            var rest := ScanFrom(p, m.next);
            && depth + Delta(m.token) >= 0
            && rest.Ok? && Joins(rest.value, |p|, q) && Calm(rest.value.tokens, depth + Delta(m.token), p + q)
            && DepthAfter(ScanFrom(p, i).value.tokens, depth) == DepthAfter(rest.value.tokens, depth + Delta(m.token))
            && TokenSearch(p + q, i, depth, -1) == TokenSearch(p + q, m.next, depth + Delta(m.token), -1)
  {
    hide ScanStep, Calm, DepthAfter, Advance;
    var m := ScanStep(p, i);
    var rest := ScanFrom(p, m.next).value;
    JoinsTail(m.token, rest, |p|, q);
    if m.token.kind.Word? && m.next == |p| { EmptyRestEndsInWord(p, i); }
    ScanStepAppend(p, q, i);
    CalmAdvance(m.token, rest.tokens, m.next, depth, p + q);
  }

  function MoveSearch(r: Search, n: nat): Search {
    match r
    case Found(from, to) => Found(from + n, to + n)
    case _ => r
  }

  lemma {:induction false} BraceShift(p: string, q: string, j: nat)
    ensures BraceFollows(p + q, |p| + j) == BraceFollows(q, j)
    decreases |q| - j
  {
    if j < |q| && IsSpace(q[j]) { BraceShift(p, q, j + 1); }
  }

  function MoveCandidate(candidate: int, n: nat): int {
    if candidate < 0 then -1 else candidate + n
  }

  lemma AdvanceShift(p: string, q: string, t: Token, next: nat, depth: nat, candidate: int)
    ensures var a := Advance(q, t, next, depth, candidate);
            Advance(p + q, t.(start := t.start + |p|), |p| + next, depth, MoveCandidate(candidate, |p|)) ==
            if a.On? then On(a.depth, MoveCandidate(a.candidate, |p|)) else Done(MoveSearch(a.result, |p|))
  {
    BraceShift(p, q, next);
  }

  lemma {:induction false} SearchShift(p: string, q: string, j: nat, depth: nat, candidate: int)
    requires j <= |q|
    ensures TokenSearch(p + q, |p| + j, depth, MoveCandidate(candidate, |p|))
         == MoveSearch(TokenSearch(q, j, depth, candidate), |p|)
    decreases |q| - j
  {
    hide ScanStep, Advance;
    ScanStepShift(p, q, j);
    var m := ScanStep(q, j);
    if m.Skip? {
      SearchShift(p, q, m.next, depth, candidate);
    } else if m.Emit? {
      AdvanceShift(p, q, m.token, m.next, depth, candidate);
      var a := Advance(q, m.token, m.next, depth, candidate);
      if a.On? { SearchShift(p, q, m.next, a.depth, a.candidate); }
    }
  }

  lemma StillInside(t: Token, rest: seq<Token>, depth: nat)
    requires rest != [] && forall k | 0 < k < |rest| + 1 :: depth + Depth([t] + rest, k) > 0
    ensures depth + Delta(t) > 0 && forall k | 0 < k < |rest| :: depth + Delta(t) + Depth(rest, k) > 0
  {
    DepthCons(t, rest, 0);
    assert Depth(rest, 0) == 0;
    forall k | 0 < k < |rest| ensures depth + Delta(t) + Depth(rest, k) > 0 {
      DepthCons(t, rest, k);
    }
  }

  /** From inside the candidate's block, the search ends at the block's last brace. */
  lemma {:induction false} SearchToEnd(b: string, post: string, i: nat, depth: nat, candidate: nat)
    requires i <= |b| && ScanFrom(b, i).Ok?
    requires var ts := ScanFrom(b, i).value.tokens;
             && ts != [] && depth + Depth(ts, |ts|) == 0
             && (forall k | 0 < k < |ts| :: depth + Depth(ts, k) > 0)
             && (depth == 0 ==> ts[0].kind.Open?)
             && ts[|ts| - 1].kind.Close? && ts[|ts| - 1].start + 1 == |b|
    ensures TokenSearch(b + post, i, depth, candidate) == Found(candidate, |b|)
    decreases |b| - i
  {
    hide ScanStep;
    var ts := ScanFrom(b, i).value.tokens;
    var m := ScanStep(b, i);
    if m.Skip? {
      ScanStepAppend(b, post, i);
      SearchToEnd(b, post, m.next, depth, candidate);
    } else {
      var rest := ScanFrom(b, m.next).value.tokens;
      assert ts == [m.token] + rest;
      assert m.next == |b| ==> rest == [];
      LastOf(m.token, rest);
      ScanStepAppend(b, post, i);
      DepthCons(m.token, rest, |rest|);
      if rest != [] {
        StillInside(m.token, rest, depth);
        SearchToEnd(b, post, m.next, depth + Delta(m.token), candidate);
      }
    }
  }

  /** A complete block headed by the bare word "stream". */
  predicate IsStreamBlock(block: string) {
    && ScanFrom(block, 0).Ok?
    && OneBlock(ScanFrom(block, 0).value.tokens, 1, |block|)
    && ScanStep(block, 0).Emit? && ScanStep(block, 0).token.raw == "stream" && BraceFollows(block, 6)
  }

  lemma SearchBlock(block: string, post: string)
    requires IsStreamBlock(block)
    ensures TokenSearch(block + post, 0, 0, -1) == Found(0, |block|)
  {
    hide ScanStep;
    var ts := ScanFrom(block, 0).value.tokens;
    var m := ScanStep(block, 0);
    var rest := ScanFrom(block, m.next).value.tokens;
    assert ts == [m.token] + rest && m.next == 6;
    LastOf(m.token, rest);
    ScanStepAppend(block, post, 0);
    BracePrefix(block, post, 6);
    assert ts[0].kind.Word?;
    forall k | 0 <= k <= |rest| ensures Depth(ts, k + 1) == Depth(rest, k) {
      DepthCons(m.token, rest, k);
    }
    assert rest[0] == ts[1];
    assert Depth(ts, 1) == 0 && Depth(rest, 1) == Depth(ts, 2) > 0;
    forall k | 0 < k < |rest| ensures Depth(rest, k) > 0 {
      assert Depth(ts, k + 1) > 0;
    }
    SearchToEnd(block, post, 6, 0, 0);
  }

  lemma {:induction false} BracePrefix(p: string, q: string, i: nat)
    requires BraceFollows(p, i)
    ensures BraceFollows(p + q, i)
    decreases |p| - i
  {
    if p[i] != '{' { BracePrefix(p, q, i + 1); }
  }

  /**
   * Behind any text that scans, balances and holds no earlier top-level stream block, and in front of any
   * text at all, exactly the stream block is cut out.
   */
  lemma StreamBlockFound(pre: string, block: string, post: string)
    requires ScanFrom(pre, 0).Ok? && IsStreamBlock(block)
    requires !ScanFrom(pre, 0).value.trailingComment && !EndsInWord(ScanFrom(pre, 0).value, |pre|)
    requires var ts := ScanFrom(pre, 0).value.tokens; DepthAfter(ts, 0) == 0 && Calm(ts, 0, pre + (block + post))
    ensures FindFrom(pre + block + post, 0, INIT) == Some((|pre|, |pre| + |block|))
    ensures (pre + block + post)[|pre|..|pre| + |block|] == block
  {
    var rest := block + post;
    assert pre + block + post == pre + rest;
    SearchFinds(pre, rest, |block|) by { SearchBlock(block, post); }
    assert (pre + rest)[|pre|..|pre| + |block|] == rest[..|block|] == block;
  }

  lemma SearchFinds(pre: string, rest: string, length: nat)
    requires ScanFrom(pre, 0).Ok? && Joins(ScanFrom(pre, 0).value, |pre|, rest)
    requires var ts := ScanFrom(pre, 0).value.tokens; DepthAfter(ts, 0) == 0 && Calm(ts, 0, pre + rest)
    requires TokenSearch(rest, 0, 0, -1) == Found(0, length)
    ensures FindFrom(pre + rest, 0, INIT) == Some((|pre|, |pre| + length))
  {
    SearchResult(pre, rest, length);
    LexersAgree(pre + rest, 0, 0, -1, true);
  }

  lemma SearchResult(pre: string, rest: string, length: nat)
    requires ScanFrom(pre, 0).Ok? && Joins(ScanFrom(pre, 0).value, |pre|, rest)
    requires var ts := ScanFrom(pre, 0).value.tokens; DepthAfter(ts, 0) == 0 && Calm(ts, 0, pre + rest)
    requires TokenSearch(rest, 0, 0, -1) == Found(0, length)
    ensures TokenSearch(pre + rest, 0, 0, -1) == Found(|pre|, |pre| + length)
  {
    SearchAtEnd(pre, rest, length);
    SearchThrough(pre, rest, 0, 0);
  }

  lemma SearchAtEnd(pre: string, rest: string, length: nat)
    requires TokenSearch(rest, 0, 0, -1) == Found(0, length)
    ensures TokenSearch(pre + rest, |pre|, 0, -1) == Found(|pre|, |pre| + length)
  {
    SearchShift(pre, rest, 0, 0, -1);
  }
}
