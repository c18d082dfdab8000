/**
 * What the checked printer guarantees: exactly which headers and bodies it accepts, that parsing gives
 * both back, and that no text inside the body can close its block early.
 */
module BlockRoundTrip {
  import opened Text
  import opened BlockCodec
  import opened BlockParser

  // ----- which bodies are well formed, read off the tokens alone -----

  /** Brace depth after the first k tokens. */
  function Depth(ts: seq<Token>, k: nat): int
    requires k <= |ts|
  {
    if k == 0 then 0
    else Depth(ts, k - 1) + if ts[k - 1].kind.Open? then 1 else if ts[k - 1].kind.Close? then -1 else 0
  }

  /** The run of words that ends just before token k starts here. */
  function RunStart(ts: seq<Token>, k: nat): (r: nat)
    requires k <= |ts|
    ensures r <= k
  {
    if k == 0 || !ts[k - 1].kind.Word? then k else RunStart(ts, k - 1)
  }

  /**
   * A nested block has a name that is allowed there; a closing brace has something to close and follows no open
   * directive.
   */
  predicate TokenFits(ts: seq<Token>, k: nat)
    requires k < |ts|
  {
    var first := RunStart(ts, k);
    match ts[k].kind
    case Open =>
      first < k && ts[first].value !in {"http", "stream", "events", "upstream", "location", "if", "server"}
    case Close => first == k && Depth(ts, k) > 0
    case _ => true
  }

  predicate WellFormedBody(ts: seq<Token>) {
    && (forall k | 0 <= k < |ts| :: TokenFits(ts, k))
    && Depth(ts, |ts|) == 0
    && RunStart(ts, |ts|) == |ts|
  }

  predicate WellFormedHeader(ts: seq<Token>, context: string) {
    && context in CONTEXTS
    && ts != []
    && (forall t :: t in ts ==> t.kind.Word?)
    && CheckContext(ts, context, 0).None?
  }

  /**
   * The words that may open a block in a context: an upstream with a plain name, or any directive that is no
   * container.
   */
  predicate HeaderWords(ts: seq<Token>, context: string) {
    if context == "stream-child" then
      ts != [] && ts[0].value !in {"http", "stream", "events", "upstream", "location", "if"}
    else
      && (context == "http-upstream" || context == "stream-upstream")
      && |ts| == 2 && ts[0].value == "upstream"
      && ts[1].value != "" && '\\' !in ts[1].raw
      && forall c | c in ts[1].value :: !IsSpace(c) && c != '/' && c != '\\'
  }

  lemma HeaderWritten(ts: seq<Token>, context: string)
    ensures WellFormedHeader(ts, context) <==> (forall t | t in ts :: t.kind.Word?) && HeaderWords(ts, context)
  {
  }

  /** The texts a caller may pass to compose. */
  predicate Accepts(header: string, body: string, context: string) {
    var hs := ScanFrom(Trim(header), 0);
    var bs := ScanFrom(body, 0);
    && hs.Ok? && (forall t | t in hs.value.tokens :: t.kind.Word?) && HeaderWords(hs.value.tokens, context)
    && bs.Ok? && WellFormedBody(bs.value.tokens)
  }

  // ----- running the parser over a composed block -----

  lemma {:induction false} HeaderPhase(ts: seq<Token>, k: nat, context: string)
    requires k <= |ts| && forall j :: 0 <= j < k ==> ts[j].kind.Word?
    ensures ParsePrefix(ts, k, context) == Ok(START.(pending := ts[..k]))
  {
    if k > 0 {
      HeaderPhase(ts, k - 1, context);
      assert ts[..k] == ts[..k - 1] + [ts[k - 1]];
    }
  }

  /** ts holds the body's tokens from index n on; only their positions differ. */
  predicate Holds(ts: seq<Token>, n: nat, body: seq<Token>) {
    n + |body| <= |ts| &&
    forall j :: 0 <= j < |body| ==> ts[n + j].kind == body[j].kind && ts[n + j].value == body[j].value
  }

  predicate Inside(r: Result<ParseState>) {
    r.Ok? && r.value.close < 0
  }

  lemma {:induction false} BodyPhase(ts: seq<Token>, n: nat, body: seq<Token>, k: nat, context: string, st: ParseState)
    requires Holds(ts, n, body) && k <= |body|
    requires ParsePrefix(ts, n, context) == Ok(st)
    requires st.pending == [] && st.depth == 1 && st.open >= 0 && st.close == -1
    ensures Inside(ParsePrefix(ts, n + k, context)) <==> forall j | 0 <= j < k :: TokenFits(body, j)
    ensures Inside(ParsePrefix(ts, n + k, context)) ==> (
              && Depth(body, k) >= 0
              && ParsePrefix(ts, n + k, context).value ==
                 ParseState(ts[n + RunStart(body, k)..n + k], 1 + Depth(body, k), st.open, -1, st.header))
  {
    hide ParseStep, Depth, TokenFits, ParsePrefix, RunStart;
    if k == 0 {
      NothingRead(body);
    } else {
      BodyPhase(ts, n, body, k - 1, context, st);
      var before := ParsePrefix(ts, n + (k - 1), context);
      ParseOneMore(ts, n + (k - 1), context);
      if Inside(before) {
        BodyStep(before.value, ts[n + (k - 1)], body, k - 1, context);
        RunGrows(ts, n, body, k);
      } else if before.Ok? {
        OutsideStays(before.value, ts[n + (k - 1)], context);
      }
    }
  }

  lemma ParseOneMore(ts: seq<Token>, k: nat, context: string)
    requires k < |ts|
    ensures var before := ParsePrefix(ts, k, context);
            ParsePrefix(ts, k + 1, context) == if before.Err? then before else ParseStep(before.value, ts[k], context)
  {
  }

  lemma RunGrows(ts: seq<Token>, n: nat, body: seq<Token>, k: nat)
    requires 0 < k <= |body| && n + k <= |ts|
    ensures ts[n + RunStart(body, k)..n + k] ==
            if body[k - 1].kind.Word? then ts[n + RunStart(body, k - 1)..n + (k - 1)] + [ts[n + (k - 1)]] else []
  {
  }

  lemma NothingRead(ts: seq<Token>)
    ensures Depth(ts, 0) == 0 && RunStart(ts, 0) == 0
  {
  }

  lemma OutsideStays(before: ParseState, t: Token, context: string)
    requires before.close >= 0
    ensures !Inside(ParseStep(before, t, context))
  {
  }

  /** One token of the body: it is accepted, still inside the block, exactly when it fits. */
  lemma BodyStep(before: ParseState, t: Token, body: seq<Token>, i: nat, context: string)
    requires i < |body| && t.kind == body[i].kind
    requires before.open >= 0 && before.close < 0 && before.depth == 1 + Depth(body, i) && Depth(body, i) >= 0
    requires |before.pending| == i - RunStart(body, i)
    requires before.pending != [] ==> before.pending[0].value == body[RunStart(body, i)].value
    ensures Inside(ParseStep(before, t, context)) <==> TokenFits(body, i)
    ensures Inside(ParseStep(before, t, context)) ==> (
              && Depth(body, i + 1) >= 0
              && ParseStep(before, t, context).value == before.(
                 pending := if t.kind.Word? then before.pending + [t] else [], depth := 1 + Depth(body, i + 1)))
  {
  }

  /** The parser came to an end that parseSingleBlock accepts. */
  predicate Accepted(r: Result<ParseState>) {
    r.Ok? && r.value.depth == 0 && r.value.open >= 0
  }

  /** From an opened block over its body to the last closing brace. */
  lemma BodyAndClose(ts: seq<Token>, n: nat, body: seq<Token>, context: string, st: ParseState)
    requires Holds(ts, n, body) && |ts| == n + |body| + 1 && ts[|ts| - 1].kind.Close?
    requires ParsePrefix(ts, n, context) == Ok(st)
    requires st.pending == [] && st.depth == 1 && st.open >= 0 && st.close == -1
    ensures Accepted(ParsePrefix(ts, |ts|, context)) <==> WellFormedBody(body)
    ensures Accepted(ParsePrefix(ts, |ts|, context)) ==>
              ParsePrefix(ts, |ts|, context).value == ParseState([], 0, st.open, ts[|ts| - 1].start, st.header)
  {
    var k := |body|;
    BodyPhase(ts, n, body, k, context, st);
    var before := ParsePrefix(ts, n + k, context);
    assert |ts| - 1 == n + k;
    if Inside(before) {
      assert before.value.pending == [] <==> RunStart(body, k) == k;
    }
  }

  /** Parsing a composed token stream succeeds exactly for well-formed parts, and finds them again. */
  lemma ParseComposed(h: string, hs: Scan, body: string, bs: Scan, gap: string, context: string)
    requires forall t :: t in hs.tokens ==> t.kind.Word?
    requires context in CONTEXTS
    ensures var ts := ComposedTokens(h, hs, body, bs, gap);
            var end := ParsePrefix(ts, |ts|, context);
            && (Accepted(end) <==> WellFormedHeader(hs.tokens, context) && WellFormedBody(bs.tokens))
            && (Accepted(end) ==>
                end.value == ParseState([], 0, |h| + 1, |h| + 2 + |body| + |gap|, JoinRaw(hs.tokens)))
  {
    var ts := ComposedTokens(h, hs, body, bs, gap);
    var m := |hs.tokens|;
    var n := m + 1;
    assert ts[..m] == hs.tokens && ts[m] == Token(Open, |h| + 1, "{", "{");
    HeaderPhase(ts, m, context);
    if !WellFormedHeader(hs.tokens, context) {
      assert ParsePrefix(ts, n, context).Err?;
      ParseFails(ts, n, context);
    } else {
      ComposedHolds(h, hs, body, bs, gap);
      BodyAndClose(ts, n, bs.tokens, context, ParsePrefix(ts, n, context).value);
    }
  }

  lemma ComposedHolds(h: string, hs: Scan, body: string, bs: Scan, gap: string)
    ensures Holds(ComposedTokens(h, hs, body, bs, gap), |hs.tokens| + 1, bs.tokens)
  {
    var ts := ComposedTokens(h, hs, body, bs, gap);
    var n := |hs.tokens| + 1;
    forall j | 0 <= j < |bs.tokens|
      ensures ts[n + j].kind == bs.tokens[j].kind && ts[n + j].value == bs.tokens[j].value
    {
      assert ts[n + j] == Move(bs.tokens, |h| + 2)[j];
    }
  }

  // ----- a body whose last word would swallow the generated brace -----

  lemma {:induction false} WordSwallows(p: string, i: nat, quote: char, quoteAt: int)
    requires i <= |p|
    requires LexWord(p, i, quote, quoteAt).Ok? && LexWord(p, i, quote, quoteAt).value.end == |p|
    ensures LexWord(p + "}", i, quote, quoteAt).Ok? && LexWord(p + "}", i, quote, quoteAt).value.end == |p| + 1
    decreases |p| - i
  {
    var s := p + "}";
    if i == |p| {
      assert WordStep(s, |s|, NO_QUOTE, quoteAt) == Stop;
      assert WordStep(s, i, quote, quoteAt) == Go("}", i + 1, NO_QUOTE, quoteAt);
    } else {
      var m := WordStep(p, i, quote, quoteAt);
      WordSwallows(p, m.next, m.quote, m.quoteAt);
      WordStepBrace(p, i, quote, quoteAt);
    }
  }

  lemma WordStepBrace(p: string, i: nat, quote: char, quoteAt: int)
    requires i < |p| && WordStep(p, i, quote, quoteAt).Go?
    ensures WordStep(p + "}", i, quote, quoteAt) == WordStep(p, i, quote, quoteAt)
  {
    WordStepAppend(p, "}", i, quote, quoteAt);
  }

  lemma LastOf<T>(t: T, ts: seq<T>)
    ensures ([t] + ts)[|ts|] == if ts == [] then t else ts[|ts| - 1]
  {
  }

  lemma StepSwallows(p: string, i: nat)
    requires i <= |p| && ScanStep(p, i).Emit? && ScanStep(p, i).token.kind.Word? && ScanStep(p, i).next == |p|
    ensures var r := ScanFrom(p + "}", i);
            r.Ok? && |r.value.tokens| == 1 && r.value.tokens[0].kind.Word?
  {
    hide LexWord;
    var s := p + "}";
    WordSwallows(p, i, NO_QUOTE, -1);
    assert s[i] == p[i];
    assert ScanFrom(s, |s|) == Ok(Scan([], false));
  }

  lemma {:induction false} ScanSwallows(p: string, i: nat)
    requires i <= |p|
    requires ScanFrom(p, i).Ok? && SwallowsBrace(ScanFrom(p, i).value, p)
    ensures var r := ScanFrom(p + "}", i);
            r.Ok? ==> r.value.tokens != [] && r.value.tokens[|r.value.tokens| - 1].kind.Word?
    decreases |p| - i
  {
    hide ScanStep;
    var m := ScanStep(p, i);
    if m.Emit? && m.token.kind.Word? && m.next == |p| {
      StepSwallows(p, i);
    } else if m.Emit? {
      var rest := ScanFrom(p, m.next).value;
      var all := ScanFrom(p, i).value;
      assert |m.token.raw| == m.next - i;
      LastOf(m.token, rest.tokens);
      ScanStepAppend(p, "}", i);
      ScanSwallows(p, m.next);
    } else {
      ScanStepAppend(p, "}", i);
      ScanSwallows(p, m.next);
    }
  }

  /** The tokens in front of the closing brace are words only where the header's are; a last word is never accepted. */
  lemma LastWordRejected(text: string, context: string)
    requires ScanFrom(text, 0).Ok?
    requires var ts := ScanFrom(text, 0).value.tokens; ts != [] && ts[|ts| - 1].kind.Word?
    ensures ParseSingle(text, context).Err?
  {
    var ts := ScanFrom(text, 0).value.tokens;
    ScanInOrder(text, 0);
    ParsePrefixState(ts, |ts|, context, |text|);
  }

  // ----- the main results -----

  /** Everything the parser does with a composed text. */
  lemma ParseOfComposed(h: string, hs: Scan, body: string, bs: Scan, gap: string, context: string)
    requires ScanFrom(h, 0) == Ok(hs) && ScanFrom(body, 0) == Ok(bs) && Separates(gap, bs, body)
    requires forall t :: t in hs.tokens ==> t.kind.Word?
    ensures ParseSingle(Composed(h, hs, body, gap), context).Ok? <==>
            WellFormedHeader(hs.tokens, context) && WellFormedBody(bs.tokens)
    ensures ParseSingle(Composed(h, hs, body, gap), context).Ok? ==>
            ParseSingle(Composed(h, hs, body, gap), context).value == Draft(JoinRaw(hs.tokens), body + gap)
  {
    ComposedScan(h, hs, body, bs, gap);
    var text := Composed(h, hs, body, gap);
    if context in CONTEXTS {
      ParseComposed(h, hs, body, bs, gap, context);
      var open, close := |h| + 1, |h| + 2 + |body| + |gap|;
      ComposedBody(h, hs, body, gap);
    }
  }

  lemma ComposedBody(h: string, hs: Scan, body: string, gap: string)
    ensures var text := Composed(h, hs, body, gap);
            |text| == |h| + 3 + |body| + |gap| && text[|h| + 2..|h| + 2 + |body| + |gap|] == body + gap
  {
    var text := Composed(h, hs, body, gap);
    var head := h + (HeaderGap(hs) + "{");
    assert text == head + ((body + gap) + "}");
    assert text[|head|..|head| + |body + gap|] == body + gap;
  }

  /** A body ending in a word is rejected: the generated brace would become part of that word. */
  lemma SwallowedRejected(h: string, hs: Scan, body: string, bs: Scan, context: string)
    requires ScanFrom(h, 0) == Ok(hs) && ScanFrom(body, 0) == Ok(bs) && SwallowsBrace(bs, body)
    ensures ParseSingle(Composed(h, hs, body, ""), context).Err?
    ensures !WellFormedBody(bs.tokens)
  {
    hide ScanFrom;
    var rest := body + ("" + "}");
    assert rest == body + "}";
    ScanSwallows(body, 0);
    HeadTokens(h, hs, rest);
    var text := Composed(h, hs, body, "");
    var tail := ScanFrom(rest, 0);
    if tail.Ok? {
      var ts := ScanFrom(text, 0).value.tokens;
      var moved := Move(tail.value.tokens, |h| + 2);
      assert ts[|ts| - 1] == moved[|moved| - 1];
      LastWordRejected(text, context);
    }
  }

  /** The parse that compose runs on its own result. */
  lemma ComposedParse(h: string, hs: Scan, body: string, bs: Scan, context: string)
    requires ScanFrom(h, 0) == Ok(hs) && ScanFrom(body, 0) == Ok(bs)
    requires forall t :: t in hs.tokens ==> t.kind.Word?
    ensures var parsed := ParseSingle(Composed(h, hs, body, BodyGap(bs)), context);
            && (parsed.Ok? <==> WellFormedHeader(hs.tokens, context) && WellFormedBody(bs.tokens))
            && (parsed.Ok? ==> parsed.value == Draft(JoinRaw(hs.tokens), body + BodyGap(bs)))
            && (parsed.Ok? ==> Separates(BodyGap(bs), bs, body))
  {
    if Separates(BodyGap(bs), bs, body) {
      ParseOfComposed(h, hs, body, bs, BodyGap(bs), context);
    } else {
      SwallowedRejected(h, hs, body, bs, context);
    }
  }

  /** compose accepts exactly the well-formed parts; its comparison of bodies never finds a difference. */
  lemma ComposeAcceptsExactly(header: string, body: string, context: string)
    ensures Compose(header, body, context).Ok? <==> Accepts(header, body, context)
  {
    var h := Trim(header);
    var hs, bs := ScanFrom(h, 0), ScanFrom(body, 0);
    if hs.Ok? && bs.Ok? {
      HeaderWritten(hs.value.tokens, context);
      var ts := hs.value.tokens;
      assert FirstNonWord(ts).None? <==> forall t :: t in ts ==> t.kind.Word?;
      if FirstNonWord(ts).None? {
        ComposedParse(h, hs.value, body, bs.value, context);
      }
    }
  }

  /**
   * Parsing a composed block gives back the header's words and the body, with one newline more only after a comment.
   */
  lemma ComposeRoundTrip(header: string, body: string, context: string)
    requires Compose(header, body, context).Ok?
    ensures ParseSingle(Compose(header, body, context).value, context)
         == Ok(Draft(JoinRaw(ScanFrom(Trim(header), 0).value.tokens),
                     body + if ScanFrom(body, 0).value.trailingComment then "\n" else ""))
  {
    var h := Trim(header);
    ComposedParse(h, ScanFrom(h, 0).value, body, ScanFrom(body, 0).value, context);
  }

  /** Words, an opening brace, text that never returns to depth 0, and the closing brace as last character. */
  predicate OneBlock(ts: seq<Token>, words: nat, length: nat) {
    && words + 1 < |ts|
    && (forall k | 0 <= k < words :: ts[k].kind.Word?)
    && (forall k | words < k < |ts| :: Depth(ts, k) > 0)
    && Depth(ts, |ts|) == 0
    && ts[|ts| - 1].kind.Close? && ts[|ts| - 1].start + 1 == length
  }

  /** The block is closed by its last character and by nothing before it, whatever the body's text holds. */
  lemma BlockClosesAtItsEnd(header: string, body: string, context: string)
    requires Compose(header, body, context).Ok?
    ensures var text := Compose(header, body, context).value;
            && ScanFrom(text, 0).Ok? && !ScanFrom(text, 0).value.trailingComment
            && OneBlock(ScanFrom(text, 0).value.tokens, |ScanFrom(Trim(header), 0).value.tokens|, |text|)
  {
    var h := Trim(header);
    var hs, bs := ScanFrom(h, 0).value, ScanFrom(body, 0).value;
    ComposedParse(h, hs, body, bs, context);
    ComposedScan(h, hs, body, bs, BodyGap(bs));
    ComposedBody(h, hs, body, BodyGap(bs));
    ComposedIsOneBlock(h, hs, body, bs, BodyGap(bs));
  }

  lemma ComposedIsOneBlock(h: string, hs: Scan, body: string, bs: Scan, gap: string)
    requires forall t :: t in hs.tokens ==> t.kind.Word?
    requires WellFormedBody(bs.tokens)
    ensures OneBlock(ComposedTokens(h, hs, body, bs, gap), |hs.tokens|, |h| + 3 + |body| + |gap|)
  {
    hide Depth, TokenFits, Holds, WellFormedBody, OneBlock;
    var ts := ComposedTokens(h, hs, body, bs, gap);
    assert forall k :: 0 <= k < |hs.tokens| ==> ts[k] == hs.tokens[k];
    ComposedHolds(h, hs, body, bs, gap);
    ShapeIsOneBlock(ts, |hs.tokens|, bs.tokens, |h| + 3 + |body| + |gap|);
  }

  lemma ShapeIsOneBlock(ts: seq<Token>, n: nat, body: seq<Token>, length: nat)
    requires |ts| == n + 2 + |body| && Holds(ts, n + 1, body) && WellFormedBody(body)
    requires forall k :: 0 <= k < n ==> ts[k].kind.Word?
    requires ts[n].kind.Open? && ts[|ts| - 1].kind.Close? && ts[|ts| - 1].start + 1 == length
    ensures OneBlock(ts, n, length)
  {
    DepthOfWords(ts, n);
    forall k | n < k < |ts| ensures Depth(ts, k) > 0 {
      DepthInside(ts, n + 1, body, k - n - 1);
      DepthNeverNegative(body, k - n - 1);
    }
    DepthInside(ts, n + 1, body, |body|);
  }

  lemma {:induction false} DepthOfWords(ts: seq<Token>, k: nat)
    requires k <= |ts| && forall j :: 0 <= j < k ==> ts[j].kind.Word?
    ensures Depth(ts, k) == 0
  {
    if k > 0 { DepthOfWords(ts, k - 1); }
  }

  lemma {:induction false} DepthInside(ts: seq<Token>, n: nat, body: seq<Token>, k: nat)
    requires Holds(ts, n, body) && k <= |body|
    ensures Depth(ts, n + k) == Depth(ts, n) + Depth(body, k)
  {
    if k > 0 {
      DepthInside(ts, n, body, k - 1);
      assert ts[n + (k - 1)].kind == body[k - 1].kind;
    }
  }

  lemma {:induction false} DepthNeverNegative(ts: seq<Token>, k: nat)
    requires k <= |ts| && forall j | 0 <= j < k :: TokenFits(ts, j)
    ensures Depth(ts, k) >= 0
  {
    if k > 0 {
      DepthNeverNegative(ts, k - 1);
      assert TokenFits(ts, k - 1);
    }
  }

  // ----- RawBlockRenderer -----

  /** The gap in front of the closing brace after rendering. */
  function RenderedGap(body: string, gap: string): string {
    var inner := body + gap;
    if inner != "" && IsLineEnd(inner[|inner| - 1]) then gap else "\n"
  }

  lemma RenderedText(h: string, hs: Scan, body: string, gap: string)
    requires gap == "" || gap == "\n"
    ensures BreakBeforeBrace(Composed(h, hs, body, gap)) == Ok(Composed(h, hs, body, RenderedGap(body, gap)))
  {
    var text := Composed(h, hs, body, gap);
    var close := |text| - 1;
    var head := h + (HeaderGap(hs) + "{");
    var inner := body + gap;
    assert text == head + inner + "}";
    assert text[close - 1] == if inner == "" then '{' else inner[|inner| - 1];
    if text[close - 1] != '\n' && text[close - 1] != '\r' {
      assert gap == "" && inner == body;
      assert text[..close] + "\n" + text[close..] == head + (body + ("\n" + "}"));
    }
  }

  lemma ComposeIs(header: string, body: string, context: string)
    requires Compose(header, body, context).Ok?
    ensures Compose(header, body, context).value ==
            Composed(Trim(header), ScanFrom(Trim(header), 0).value, body, BodyGap(ScanFrom(body, 0).value))
  {
    hide ScanFrom, ParseSingle, Trim, FirstNonWord, Composed, BodyGap;
  }

  lemma RenderedIs(header: string, body: string, context: string)
    requires Compose(header, body, context).Ok?
    ensures RawRender(header, body, context) ==
            Ok(Composed(Trim(header), ScanFrom(Trim(header), 0).value, body,
                        RenderedGap(body, BodyGap(ScanFrom(body, 0).value))))
  {
    hide ScanFrom, Composed, Trim;
    ComposeIs(header, body, context);
    RenderedText(Trim(header), ScanFrom(Trim(header), 0).value, body, BodyGap(ScanFrom(body, 0).value));
  }

  /** Both texts are the same tokens; only the closing brace may have moved. */
  predicate SameTokens(source: string, text: string) {
    ScanFrom(source, 0).Ok? && ScanFrom(text, 0).Ok? &&
    var was, ts := ScanFrom(source, 0).value.tokens, ScanFrom(text, 0).value.tokens;
    |was| == |ts| > 0 && ts == was[|ts| - 1 := Token(Close, |text| - 1, "}", "}")]
  }

  lemma GapKeepsTokens(h: string, hs: Scan, body: string, bs: Scan, gap: string, gap': string)
    requires ScanFrom(h, 0) == Ok(hs) && ScanFrom(body, 0) == Ok(bs)
    requires Separates(gap, bs, body) && Separates(gap', bs, body)
    ensures SameTokens(Composed(h, hs, body, gap), Composed(h, hs, body, gap'))
  {
    hide ScanFrom;
    ComposedScan(h, hs, body, bs, gap);
    ComposedScan(h, hs, body, bs, gap');
    ComposedBody(h, hs, body, gap');
  }

  /** Rendering succeeds whenever compose does, leaves every token as it is and moves only the last brace. */
  lemma RenderKeepsTokens(header: string, body: string, context: string)
    ensures RawRender(header, body, context).Ok? <==> Compose(header, body, context).Ok?
    ensures RawRender(header, body, context).Ok? ==>
              SameTokens(Compose(header, body, context).value, RawRender(header, body, context).value)
  {
    if Compose(header, body, context).Ok? {
      var h := Trim(header);
      var hs, bs := ScanFrom(h, 0).value, ScanFrom(body, 0).value;
      ComposedParse(h, hs, body, bs, context);
      ComposeIs(header, body, context);
      RenderedIs(header, body, context);
      GapKeepsTokens(h, hs, body, bs, BodyGap(bs), RenderedGap(body, BodyGap(bs)));
    }
  }

  /** A rendered block parses back to the header's words and the body, which then ends in a newline. */
  lemma RenderRoundTrip(header: string, body: string, context: string)
    requires RawRender(header, body, context).Ok?
    ensures ParseSingle(RawRender(header, body, context).value, context)
         == Ok(Draft(JoinRaw(ScanFrom(Trim(header), 0).value.tokens),
                     body + if body != "" && IsLineEnd(body[|body| - 1]) then "" else "\n"))
  {
    var h := Trim(header);
    var hs, bs := ScanFrom(h, 0).value, ScanFrom(body, 0).value;
    ComposedParse(h, hs, body, bs, context);
    RenderedIs(header, body, context);
    ParseOfComposed(h, hs, body, bs, RenderedGap(body, BodyGap(bs)), context);
    GapOfBody(body, bs);
  }

  lemma GapOfBody(body: string, bs: Scan)
    requires ScanFrom(body, 0) == Ok(bs)
    ensures RenderedGap(body, BodyGap(bs)) == if body != "" && IsLineEnd(body[|body| - 1]) then "" else "\n"
  {
    if bs.trailingComment { CommentEndsTheText(body, 0); }
  }

  /** A text that ends inside a comment does not end in a line end. */
  lemma {:induction false} CommentEndsTheText(s: string, i: nat)
    requires i <= |s| && ScanFrom(s, i).Ok? && ScanFrom(s, i).value.trailingComment
    ensures s != "" && !IsLineEnd(s[|s| - 1])
    decreases |s| - i
  {
    var m := ScanStep(s, i);
    if m.Skip? || m.Emit? {
      CommentEndsTheText(s, m.next);
    } else {
      assert LineEndFrom(s, i) == |s|;
    }
  }
}
