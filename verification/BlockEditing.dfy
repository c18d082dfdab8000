/**
 * Editing a pasted block: parseSingleBlock splits a text into the draft that is stored, and compose prints
 * that draft again.
 *
 * Printing gives the draft back exactly when trimming its header takes nothing away. An escaped blank at the
 * end of a header is the case in which it does.
 */
module BlockEditing {
  import opened Text
  import opened BlockCodec
  import opened BlockParser
  import opened BlockRoundTrip

  // ----- cutting a scanned text at a token -----

  lemma {:induction false} LexWordCut(s: string, i: nat, quote: char, quoteAt: int, c: nat)
    requires i <= c <= |s|
    requires LexWord(s, i, quote, quoteAt).Ok? && LexWord(s, i, quote, quoteAt).value.end <= c
    ensures LexWord(s[..c], i, quote, quoteAt) == LexWord(s, i, quote, quoteAt)
    decreases |s| - i
  {
    hide IndexOf;
    var m := WordStep(s, i, quote, quoteAt);
    if m.Go? {
      WordStepCut(s, i, quote, quoteAt, c);
      LexWordCut(s, m.next, m.quote, m.quoteAt, c);
    }
  }

  lemma WordStepCut(s: string, i: nat, quote: char, quoteAt: int, c: nat)
    requires i <= c <= |s|
    requires WordStep(s, i, quote, quoteAt).Go? && WordStep(s, i, quote, quoteAt).next <= c
    ensures WordStep(s[..c], i, quote, quoteAt) == WordStep(s, i, quote, quoteAt)
  {
    hide IndexOf;
    var t := s[..c];
    assert t[i] == s[i];
    if i + 1 < c {
      assert t[i + 1] == s[i + 1];
      assert t + s[c..] == s;
      if IndexOf(t, '}', i + 2).Some? {
        IndexOfAppend(t, s[c..], '}', i + 2);
      }
    }
    if IndexOf(s, '}', i + 2).Some? && IndexOf(s, '}', i + 2).value < c {
      assert t[i..IndexOf(s, '}', i + 2).value + 1] == s[i..IndexOf(s, '}', i + 2).value + 1];
    }
  }

  /** Cut just before a brace or semicolon token, the text scans to the tokens before it, outside any comment. */
  lemma {:induction false} ScanCut(s: string, i: nat, k: nat)
    requires i <= |s| && ScanFrom(s, i).Ok? && k < |ScanFrom(s, i).value.tokens|
    requires !ScanFrom(s, i).value.tokens[k].kind.Word?
    ensures var ts := ScanFrom(s, i).value.tokens;
            var c := ts[k].start;
            && i <= c < |s| && IsPunct(s[c])
            && ScanFrom(s[..c], i) == Ok(Scan(ts[..k], false))
            && ScanFrom(s, c + 1) == Ok(Scan(ts[k + 1..], ScanFrom(s, i).value.trailingComment))
    decreases |s| - i
  {
    hide ScanStep;
    var ts := ScanFrom(s, i).value.tokens;
    var c := ts[k].start;
    ScanInOrder(s, i);
    var m := ScanStep(s, i);
    if m.Skip? {
      ScanCut(s, m.next, k);
      SkipCut(s, i, c);
    } else if k == 0 {
      CutHere(s, i);
      assert ts[1..] == ScanFrom(s, m.next).value.tokens;
      assert ts[..0] == [];
    } else {
      var rest := ScanFrom(s, m.next).value.tokens;
      assert ts[k] == rest[k - 1];
      ScanCut(s, m.next, k - 1);
      EmitCut(s, i, c);
      assert ts[..k] == [m.token] + rest[..k - 1];
      assert ts[k + 1..] == rest[k..];
    }
  }

  lemma CutHere(s: string, i: nat)
    requires i < |s| && ScanStep(s, i).Emit? && !ScanStep(s, i).token.kind.Word?
    ensures IsPunct(s[i]) && ScanStep(s, i).next == i + 1 && ScanFrom(s[..i], i) == Ok(Scan([], false))
  {
    hide LexWord;
  }

  lemma SkipCut(s: string, i: nat, c: nat)
    requires i <= c < |s| && ScanStep(s, i).Skip? && ScanStep(s, i).next <= c && IsPunct(s[c])
    ensures ScanStep(s[..c], i) == ScanStep(s, i)
  {
    var t := s[..c];
    assert i < c && t[i] == s[i];
    if s[i] == '#' {
      var e := LineEndFrom(s, i);
      assert e != c;
      assert forall j :: i <= j < e ==> t[j] == s[j];
      LineEndUnique(t, i, e);
    }
  }

  lemma EmitCut(s: string, i: nat, c: nat)
    requires i <= c < |s| && ScanStep(s, i).Emit? && ScanStep(s, i).next <= c
    ensures ScanStep(s[..c], i) == ScanStep(s, i)
  {
    hide LexWord, LineEndFrom;
    var t := s[..c];
    var m := ScanStep(s, i);
    assert t[i] == s[i] && t[i..m.next] == s[i..m.next];
    if !IsPunct(s[i]) { LexWordCut(s, i, NO_QUOTE, -1, c); }
  }

  // ----- the words of a header, scanned again -----

  /** Scanned on its own, the word's text is that one word. */
  predicate Standalone(t: Token) {
    t.kind.Word? && t.raw != "" && ScanFrom(t.raw, 0) == Ok(Scan([t.(start := 0)], false))
  }

  lemma WordStandsAlone(s: string, i: nat)
    requires i <= |s| && ScanStep(s, i).Emit? && ScanStep(s, i).token.kind.Word?
    ensures Standalone(ScanStep(s, i).token)
  {
    hide LexWord, LineEndFrom;
    var m := ScanStep(s, i);
    var p, raw := s[..i], s[i..m.next];
    var t := s[..m.next];
    assert t == p + raw;
    LexWordCut(s, i, NO_QUOTE, -1, m.next);
    WordShift(p, raw, 0);
    assert raw[0] == s[i];
    var word := m.token.(start := 0);
    assert raw[0..|raw|] == raw;
    assert ScanStep(raw, 0) == Emit(word, |raw|);
    assert ScanFrom(raw, |raw|) == Ok(Scan([], false));
    assert [word] + [] == [word];
  }

  lemma {:induction false} WordsStandAlone(s: string, i: nat)
    requires i <= |s| && ScanFrom(s, i).Ok?
    ensures forall t :: t in ScanFrom(s, i).value.tokens && t.kind.Word? ==> Standalone(t)
    decreases |s| - i
  {
    var m := ScanStep(s, i);
    if m.Emit? && m.token.kind.Word? { WordStandsAlone(s, i); }
    if m.Skip? || m.Emit? { WordsStandAlone(s, m.next); }
  }

  /** The same words, whatever their positions. */
  predicate SameWords(a: seq<Token>, b: seq<Token>) {
    |a| == |b| && forall k :: 0 <= k < |a| ==>
      a[k].kind == b[k].kind && a[k].raw == b[k].raw && a[k].value == b[k].value
  }

  lemma {:induction false} JoinedWordsScan(words: seq<Token>)
    requires words != [] && forall t :: t in words ==> Standalone(t)
    ensures ScanFrom(JoinRaw(words), 0).Ok? && !ScanFrom(JoinRaw(words), 0).value.trailingComment
    ensures SameWords(ScanFrom(JoinRaw(words), 0).value.tokens, words)
  {
    hide ScanFrom;
    var n := |words| - 1;
    assert Standalone(words[0]);
    if n > 0 {
      var init, last := words[..n], words[n];
      JoinedWordsScan(init);
      JoinOneMore(JoinRaw(init), last);
      var ts := ScanFrom(JoinRaw(init), 0).value.tokens;
      var moved := last.(start := |JoinRaw(init)| + 1);
      assert ScanFrom(JoinRaw(words), 0).value.tokens == ts + [moved];
      assert words == init + [last];
    }
  }

  lemma BlankFirst(s: string)
    ensures ScanFrom(" " + s, 0) == ScanFrom(" " + s, 1)
  {
    assert ScanStep(" " + s, 0) == Skip(1);
  }

  lemma BlankThenWord(t: Token)
    requires Standalone(t)
    ensures ScanFrom(" " + t.raw, 0) == Ok(Scan([t.(start := 1)], false))
  {
    hide ScanFrom, Move;
    BlankFirst(t.raw);
    ScanShift(" ", t.raw, 0);
    MoveOne(t.(start := 0), 1);
  }

  lemma BlankJoins(sc: Scan, length: nat, s: string)
    requires !sc.trailingComment
    ensures Joins(sc, length, " " + s)
  {
  }

  lemma JoinOneMore(joined: string, t: Token)
    requires Standalone(t)
    requires ScanFrom(joined, 0).Ok? && !ScanFrom(joined, 0).value.trailingComment
    ensures ScanFrom(joined + " " + t.raw, 0)
         == Ok(Scan(ScanFrom(joined, 0).value.tokens + [t.(start := |joined| + 1)], false))
  {
    hide ScanFrom, Move, Joins;
    var rest := " " + t.raw;
    assert joined + " " + t.raw == joined + rest;
    BlankThenWord(t);
    BlankJoins(ScanFrom(joined, 0).value, |joined|, t.raw);
    ScanAppend(joined, rest, 0);
    ScanShift(joined, rest, 0);
    MoveOne(t.(start := 1), |joined|);
  }

  lemma {:induction false} JoinRawSame(a: seq<Token>, b: seq<Token>)
    requires SameWords(a, b)
    ensures JoinRaw(a) == JoinRaw(b)
  {
    if |a| > 1 { JoinRawSame(a[..|a| - 1], b[..|b| - 1]); }
  }

  lemma {:induction false} JoinRawLength(t: Token, ts: seq<Token>)
    ensures |JoinRaw([t] + ts)| == |t.raw| + if ts == [] then 0 else 1 + |JoinRaw(ts)|
  {
    var all := [t] + ts;
    var n := |ts|;
    if n == 1 {
      assert all[..1] == [t];
    } else if n > 1 {
      assert all[..n] == [t] + ts[..n - 1];
      JoinRawLength(t, ts[..n - 1]);
    }
  }

  lemma WordEndsAtBreak(s: string, i: nat)
    requires i <= |s| && ScanStep(s, i).Emit? && ScanStep(s, i).token.kind.Word? && ScanStep(s, i).next < |s|
    ensures IsBreak(s[ScanStep(s, i).next])
  {
    hide LexWord, LineEndFrom, IsBreak;
  }

  lemma WordFollowsBlank(s: string, i: nat)
    requires i <= |s| && (i < |s| ==> IsBreak(s[i]))
    requires ScanFrom(s, i).Ok? && ScanFrom(s, i).value.tokens != [] && ScanFrom(s, i).value.tokens[0].kind.Word?
    ensures i < |s| && ScanFrom(s, i) == ScanFrom(s, i + 1)
  {
    hide LexWord, LineEndFrom, IsSpace;
    assert i < |s| && !IsPunct(s[i]) ==> IsSpace(s[i]);
  }

  lemma BlankBetween(s: string, i: nat)
    requires i <= |s| && ScanStep(s, i).Emit? && ScanStep(s, i).token.kind.Word?
    requires var rest := ScanFrom(s, ScanStep(s, i).next);
             rest.Ok? && rest.value.tokens != [] && rest.value.tokens[0].kind.Word?
    ensures var next := ScanStep(s, i).next; next < |s| && ScanFrom(s, next) == ScanFrom(s, next + 1)
  {
    hide ScanStep, ScanFrom;
    if ScanStep(s, i).next < |s| { WordEndsAtBreak(s, i); }
    WordFollowsBlank(s, ScanStep(s, i).next);
  }

  /** Joining the words of a text with single blanks never makes it longer. */
  lemma {:induction false} JoinedNoLonger(s: string, i: nat)
    requires i <= |s| && ScanFrom(s, i).Ok?
    requires forall t :: t in ScanFrom(s, i).value.tokens ==> t.kind.Word?
    ensures |JoinRaw(ScanFrom(s, i).value.tokens)| <= |s| - i
    decreases |s| - i
  {
    hide ScanStep;
    var m := ScanStep(s, i);
    if m.Skip? {
      JoinedNoLonger(s, m.next);
    } else if m.Emit? {
      var rest := ScanFrom(s, m.next).value.tokens;
      var all := ScanFrom(s, i).value.tokens;
      assert all == [m.token] + rest;
      assert m.token == all[0] && m.token.kind.Word?;
      assert forall t :: t in rest ==> t in all;
      JoinRawLength(m.token, rest);
      if rest != [] {
        assert rest[0] in all;
        BlankBetween(s, i);
        JoinedNoLonger(s, m.next + 1);
      }
    }
  }

  // ----- what parseSingleBlock found -----

  lemma {:induction false} BeforeOpen(ts: seq<Token>, k: nat, context: string)
    requires k <= |ts| && ParsePrefix(ts, k, context).Ok? && ParsePrefix(ts, k, context).value.open < 0
    ensures forall j :: 0 <= j < k ==> ts[j].kind.Word?
    ensures ParsePrefix(ts, k, context).value == START.(pending := ts[..k])
  {
    if k > 0 {
      BeforeOpen(ts, k - 1, context);
      assert ts[..k] == ts[..k - 1] + [ts[k - 1]];
    }
  }

  /** The opening brace that made the header: words before it, and header and position as the state has them. */
  lemma {:induction false} FindOpen(ts: seq<Token>, k: nat, context: string, hi: nat) returns (m: nat)
    requires k <= |ts| && InOrder(ts, 0, hi)
    requires ParsePrefix(ts, k, context).Ok? && ParsePrefix(ts, k, context).value.open >= 0
    ensures m < k && ts[m].kind.Open? && forall j :: 0 <= j < m ==> ts[j].kind.Word?
    ensures m > 0 && CheckContext(ts[..m], context, 0).None?
    ensures ParsePrefix(ts, m + 1, context) == Ok(ParseState([], 1, ts[m].start, -1, JoinRaw(ts[..m])))
    ensures ParsePrefix(ts, k, context).value.open == ts[m].start
    ensures ParsePrefix(ts, k, context).value.header == JoinRaw(ts[..m])
  {
    hide ParseStep, CheckContext, JoinRaw;
    var before := ParsePrefix(ts, k - 1, context).value;
    if before.open < 0 {
      m := k - 1;
      BeforeOpen(ts, k - 1, context);
      OpenStep(ts[..m], ts[m], context);
    } else {
      m := FindOpen(ts, k - 1, context, hi);
      ParsePrefixState(ts, k - 1, context, hi);
      OpenKept(before, ts[k - 1], context);
    }
  }

  lemma OpenStep(words: seq<Token>, t: Token, context: string)
    requires var r := ParseStep(START.(pending := words), t, context); r.Ok? && r.value.open >= 0
    ensures t.kind.Open? && words != [] && CheckContext(words, context, 0).None?
    ensures ParseStep(START.(pending := words), t, context) == Ok(ParseState([], 1, t.start, -1, JoinRaw(words)))
  {
  }

  lemma OpenKept(st: ParseState, t: Token, context: string)
    requires st.open >= 0 && (st.depth == 0 ==> st.close >= 0)
    requires ParseStep(st, t, context).Ok?
    ensures ParseStep(st, t, context).value.open == st.open && ParseStep(st, t, context).value.header == st.header
  {
  }

  /** The tokens of an accepted text, and where its draft comes from. */
  lemma DraftTokens(text: string, context: string) returns (m: nat)
    requires ParseSingle(text, context).Ok?
    ensures ScanFrom(text, 0).Ok?
    ensures var ts := ScanFrom(text, 0).value.tokens;
            var d := ParseSingle(text, context).value;
            && context in CONTEXTS
            && 0 < m < |ts| - 1
            && (forall j :: 0 <= j < m ==> ts[j].kind.Word?)
            && CheckContext(ts[..m], context, 0).None?
            && d.header == JoinRaw(ts[..m])
            && ts[m].kind.Open? && ts[|ts| - 1].kind.Close?
            && ts[m].start < ts[|ts| - 1].start < |text|
            && d.body == text[ts[m].start + 1..ts[|ts| - 1].start]
            && WellFormedBody(ts[m + 1..|ts| - 1])
  {
    hide ScanFrom, ParsePrefix, CheckContext, JoinRaw, WellFormedBody;
    var ts := ScanFrom(text, 0).value.tokens;
    ScanInOrder(text, 0);
    ParsePrefixState(ts, |ts|, context, |text|);
    m := FindOpen(ts, |ts|, context, |text|);
    var st := ParsePrefix(ts, m + 1, context).value;
    var body := ts[m + 1..|ts| - 1];
    assert Holds(ts, m + 1, body);
    BodyAndClose(ts, m + 1, body, context, st);
  }

  /** Words that may open a block in this context, an opening brace at m, a body, and its closing brace at the end. */
  predicate IsBlock(ts: seq<Token>, m: nat, context: string) {
    && m < |ts| - 1 && (forall t | t in ts[..m] :: t.kind.Word?) && HeaderWords(ts[..m], context)
    && ts[m].kind.Open? && WellFormedBody(ts[m + 1..|ts| - 1]) && ts[|ts| - 1].kind.Close?
  }

  /** parseSingleBlock accepts exactly the texts whose tokens are one block, and splits them at its two braces. */
  lemma ParseAcceptsExactly(text: string, context: string)
    ensures ParseSingle(text, context).Ok? <==>
              ScanFrom(text, 0).Ok? && exists m: nat :: IsBlock(ScanFrom(text, 0).value.tokens, m, context)
    ensures forall m: nat | ScanFrom(text, 0).Ok? && IsBlock(ScanFrom(text, 0).value.tokens, m, context) ::
              var ts := ScanFrom(text, 0).value.tokens;
              && ts[m].start < ts[|ts| - 1].start < |text|
              && ParseSingle(text, context) == Ok(Draft(JoinRaw(ts[..m]), text[ts[m].start + 1..ts[|ts| - 1].start]))
  {
    hide ScanFrom, HeaderWords, WellFormedBody, JoinRaw, ParseSingle;
    if ParseSingle(text, context).Ok? {
      var m := DraftTokens(text, context);
      var ts := ScanFrom(text, 0).value.tokens;
      HeaderWritten(ts[..m], context);
      assert IsBlock(ts, m, context);
    }
    forall m: nat | ScanFrom(text, 0).Ok? && IsBlock(ScanFrom(text, 0).value.tokens, m, context)
      ensures var ts := ScanFrom(text, 0).value.tokens;
              && ts[m].start < ts[|ts| - 1].start < |text|
              && ParseSingle(text, context) == Ok(Draft(JoinRaw(ts[..m]), text[ts[m].start + 1..ts[|ts| - 1].start]))
    {
      BlockParses(text, m, context);
    }
  }

  lemma BlockParses(text: string, m: nat, context: string)
    requires ScanFrom(text, 0).Ok? && IsBlock(ScanFrom(text, 0).value.tokens, m, context)
    ensures var ts := ScanFrom(text, 0).value.tokens;
            && ts[m].start < ts[|ts| - 1].start < |text|
            && ParseSingle(text, context) == Ok(Draft(JoinRaw(ts[..m]), text[ts[m].start + 1..ts[|ts| - 1].start]))
  {
    hide ScanFrom, JoinRaw, WellFormedBody, HeaderWords, ParsePrefix, ParseSingle;
    var ts := ScanFrom(text, 0).value.tokens;
    var body := ts[m + 1..|ts| - 1];
    OpenParses(ts, m, context);
    assert Holds(ts, m + 1, body);
    BodyAndClose(ts, m + 1, body, context, ParseState([], 1, ts[m].start, -1, JoinRaw(ts[..m])));
    AcceptedIsDraft(text, context, ParsePrefix(ts, |ts|, context).value);
  }

  lemma AcceptedIsDraft(text: string, context: string, st: ParseState)
    requires ScanFrom(text, 0).Ok? && context in CONTEXTS && st.depth == 0 && st.open >= 0
    requires ParsePrefix(ScanFrom(text, 0).value.tokens, |ScanFrom(text, 0).value.tokens|, context) == Ok(st)
    ensures st.open < st.close < |text| &&
              ParseSingle(text, context) == Ok(Draft(st.header, text[st.open + 1..st.close]))
  {
    var ts := ScanFrom(text, 0).value.tokens;
    ScanInOrder(text, 0);
    ParsePrefixState(ts, |ts|, context, |text|);
    hide ScanFrom, ParsePrefix, JoinRaw;
  }

  lemma OpenParses(ts: seq<Token>, m: nat, context: string)
    requires IsBlock(ts, m, context)
    ensures context in CONTEXTS &&
              ParsePrefix(ts, m + 1, context) == Ok(ParseState([], 1, ts[m].start, -1, JoinRaw(ts[..m])))
  {
    hide JoinRaw, WellFormedBody, HeaderWords, ParsePrefix;
    HeaderWritten(ts[..m], context);
    assert forall j :: 0 <= j < m ==> ts[j] in ts[..m];
    HeaderPhase(ts, m, context);
    ParseOneMore(ts, m, context);
  }

  lemma {:induction false} WellFormedMoved(a: seq<Token>, n: nat, k: nat)
    requires k <= |a|
    ensures Depth(Move(a, n), k) == Depth(a, k) && RunStart(Move(a, n), k) == RunStart(a, k)
  {
    hide Move;
    if k > 0 { WellFormedMoved(a, n, k - 1); }
  }

  lemma WellFormedBodyMoved(a: seq<Token>, n: nat)
    requires WellFormedBody(Move(a, n))
    ensures WellFormedBody(a)
  {
    WellFormedMoved(a, n, |a|);
    forall k | 0 <= k < |a| ensures TokenFits(a, k) {
      WellFormedMoved(a, n, k);
      assert TokenFits(Move(a, n), k);
    }
  }

  /** The draft's body, scanned on its own, is well formed and ends outside comments. */
  lemma DraftBody(text: string, context: string)
    requires ParseSingle(text, context).Ok?
    ensures var bs := ScanFrom(ParseSingle(text, context).value.body, 0);
            bs.Ok? && !bs.value.trailingComment && WellFormedBody(bs.value.tokens)
  {
    hide ScanFrom, ParseSingle, WellFormedBody;
    var m := DraftTokens(text, context);
    var ts := ScanFrom(text, 0).value.tokens;
    var n := |ts| - 1;
    var open, close := ts[m].start, ts[n].start;
    var body := text[open + 1..close];
    ScanCut(text, 0, n);
    var cut := text[..close];
    ScanCut(cut, 0, m);
    assert ts[..n][m] == ts[m] && ts[..n][m + 1..] == ts[m + 1..n];
    assert cut == cut[..open + 1] + body;
    ScanShift(cut[..open + 1], body, 0);
    WellFormedBodyMoved(ScanFrom(body, 0).value.tokens, open + 1);
  }

  lemma CheckContextSame(a: seq<Token>, b: seq<Token>, context: string)
    requires SameWords(a, b) && a != [] && CheckContext(b, context, 0).None?
    ensures CheckContext(a, context, 0).None?
  {
  }

  /** The draft's header, scanned on its own, is its words again. */
  lemma DraftHeader(text: string, context: string)
    requires ParseSingle(text, context).Ok?
    ensures var header := ParseSingle(text, context).value.header;
            && ScanFrom(header, 0).Ok?
            && WellFormedHeader(ScanFrom(header, 0).value.tokens, context)
            && JoinRaw(ScanFrom(header, 0).value.tokens) == header
  {
    hide ScanFrom, ParseSingle, JoinRaw, CheckContext;
    var m := DraftTokens(text, context);
    var ts := ScanFrom(text, 0).value.tokens;
    var words := ts[..m];
    WordsStandAlone(text, 0);
    assert forall t :: t in words ==> t in ts && t.kind.Word?;
    JoinedWordsScan(words);
    var again := ScanFrom(JoinRaw(words), 0).value.tokens;
    JoinRawSame(again, words);
    assert forall t :: t in again ==> t.kind.Word?;
    CheckContextSame(again, words, context);
  }

  /** Printing a stored draft and parsing it again gives the same draft iff trimming its header changes nothing. */
  lemma EditRoundTrip(text: string, context: string)
    requires ParseSingle(text, context).Ok?
    ensures var d := ParseSingle(text, context).value;
            var again := Compose(d.header, d.body, context);
            (again.Ok? && ParseSingle(again.value, context) == Ok(d)) <==> Trim(d.header) == d.header
  {
    hide ScanFrom, ParseSingle, Compose, Trim, JoinRaw, WellFormedBody, CheckContext;
    var d := ParseSingle(text, context).value;
    DraftBody(text, context);
    if Trim(d.header) == d.header {
      DraftHeader(text, context);
      HeaderWritten(ScanFrom(d.header, 0).value.tokens, context);
      ComposeAcceptsExactly(d.header, d.body, context);
      ComposeRoundTrip(d.header, d.body, context);
      assert d.body + "" == d.body;
    } else {
      TrimShortens(d.header);
      if Compose(d.header, d.body, context).Ok? {
        ComposeAcceptsExactly(d.header, d.body, context);
        ComposeRoundTrip(d.header, d.body, context);
        JoinedNoLonger(Trim(d.header), 0);
      }
    }
  }

  lemma TrimShortens(s: string)
    ensures Trim(s) != s ==> |Trim(s)| < |s|
  {
    assert |TrimStart(s)| == |s| ==> TrimStart(s) == s;
  }

  /** A draft that does not survive: the escaped blank at the end of its header is trimmed away. */
  lemma EscapedBlankIsLost()
    ensures ParseSingle("a\\ {}", "stream-child") == Ok(Draft("a\\ ", ""))
    ensures Compose("a\\ ", "", "stream-child") == Err(DanglingEscape, 1)
  {
    EscapedBlankParses();
    EscapedBlankRefused();
    hide *;
  }

  lemma EscapedBlankRefused()
    ensures Compose("a\\ ", "", "stream-child") == Err(DanglingEscape, 1)
  {
    var h := "a\\ ";
    assert TrimEnd(h[..2]) == h[..2];
    assert Trim(h) == "a\\";
    var t := "a\\";
    assert WordStep(t, 1, NO_QUOTE, -1) == Fail(DanglingEscape, 1);
    assert LexWord(t, 1, NO_QUOTE, -1) == Err(DanglingEscape, 1);
    assert WordStep(t, 0, NO_QUOTE, -1) == Go("a", 1, NO_QUOTE, -1);
    assert ScanStep(t, 0) == Abort(DanglingEscape, 1);
  }

  lemma EscapedBlankParses()
    ensures ParseSingle("a\\ {}", "stream-child") == Ok(Draft("a\\ ", ""))
  {
    var s := "a\\ {}";
    var word, open, close := Token(Word, 0, "a\\ ", "a "), Token(Open, 3, "{", "{"), Token(Close, 4, "}", "}");
    EscapedBlankScans();
    var ts := [word, open, close];
    assert [] + [word] == [word];
    assert ParsePrefix(ts, 1, "stream-child") == Ok(START.(pending := [word]));
    assert CheckContext([word], "stream-child", 0) == None;
    assert ParsePrefix(ts, 2, "stream-child") == Ok(ParseState([], 1, 3, -1, "a\\ "));
    assert ParsePrefix(ts, 3, "stream-child") == Ok(ParseState([], 0, 3, 4, "a\\ "));
    assert s[4..4] == "";
  }

  lemma EscapedBlankScans()
    ensures ScanFrom("a\\ {}", 0) ==
              Ok(Scan([Token(Word, 0, "a\\ ", "a "), Token(Open, 3, "{", "{"), Token(Close, 4, "}", "}")], false))
  {
    var s := "a\\ {}";
    var word, open, close := Token(Word, 0, "a\\ ", "a "), Token(Open, 3, "{", "{"), Token(Close, 4, "}", "}");
    assert " " + "" == " " && "a" + " " == "a ";
    assert [close] + [] == [close] && [open] + [close] == [open, close] &&
      [word] + [open, close] == [word, open, close];
    assert WordStep(s, 3, NO_QUOTE, -1) == Stop;
    assert WordStep(s, 1, NO_QUOTE, -1) == Go(" ", 3, NO_QUOTE, -1);
    assert LexWord(s, 1, NO_QUOTE, -1) == Ok(Lexeme(3, " "));
    assert WordStep(s, 0, NO_QUOTE, -1) == Go("a", 1, NO_QUOTE, -1);
    assert LexWord(s, 0, NO_QUOTE, -1) == Ok(Lexeme(3, "a "));
    assert s[0..3] == "a\\ ";
    assert ScanFrom(s, 5) == Ok(Scan([], false));
    assert ScanStep(s, 4) == Emit(close, 5) && ScanStep(s, 3) == Emit(open, 4);
    assert ScanFrom(s, 4) == Ok(Scan([close], false));
    assert ScanFrom(s, 3) == Ok(Scan([open, close], false));
    assert ScanStep(s, 0) == Emit(word, 3);
  }
}
