/** parseSingleBlock and compose of NginxBlockCodec, and RawBlockRenderer. */
module BlockParser {
  import opened Text
  import opened BlockCodec

  const CONTEXTS := {"http-upstream", "stream-upstream", "stream-child"}
  const CONTAINERS := {"http", "stream", "events", "upstream", "location", "if"}

  datatype Complaint = Complaint(code: Code, offset: nat)

  predicate BadNameChar(c: char) {
    IsSpace(c) || c == '/' || c == '\\'
  }

  /** checkContext: what is wrong with a block opened by these words at this depth. */
  function CheckContext(words: seq<Token>, context: string, depth: nat): Option<Complaint>
    requires words != []
  {
    var directive := words[0].value;
    if depth == 0 && context != "stream-child" then
      if directive != "upstream" then Some(Complaint(WrongContext, words[0].start))
      else if |words| != 2 then Some(Complaint(InvalidName, words[0].start))
      else
        var name := words[1].value;
        if name == "" || '\\' in words[1].raw || exists c :: c in name && BadNameChar(c)
        then Some(Complaint(InvalidName, words[1].start))
        else None
    else if directive in CONTAINERS || (depth > 0 && directive == "server") then
      Some(Complaint(WrongContext, words[0].start))
    else None
  }

  /** The raw words joined by one blank. */
  function JoinRaw(words: seq<Token>): string {
    if words == [] then ""
    else if |words| == 1 then words[0].raw
    else JoinRaw(words[..|words| - 1]) + " " + words[|words| - 1].raw
  }

  datatype ParseState = ParseState(pending: seq<Token>, depth: nat, open: int, close: int, header: string)

  const START := ParseState([], 0, -1, -1, "")

  /** The body of parseSingleBlock's loop. */
  function ParseStep(st: ParseState, t: Token, context: string): Result<ParseState> {
    if st.close >= 0 then Err(if t.kind.Close? then UnbalancedBraces else MultipleBlocks, t.start)
    else
      match t.kind
      case Word => Ok(st.(pending := st.pending + [t]))
      case Open =>
        if st.pending == [] then Err(ExpectedBlock, t.start)
        else (
          match CheckContext(st.pending, context, st.depth)
          case Some(c) => Err(c.code, c.offset)
          case None =>
            if st.depth == 0 then Ok(ParseState([], 1, t.start, st.close, JoinRaw(st.pending)))
            else Ok(st.(pending := [], depth := st.depth + 1)))
      case Semi =>
        if st.depth == 0 then Err(ExpectedBlock, t.start) else Ok(st.(pending := []))
      case Close =>
        if st.depth == 0 then Err(UnbalancedBraces, t.start)
        else if st.pending != [] then Err(MissingTerminator, t.start)
        else Ok(st.(depth := st.depth - 1, close := if st.depth == 1 then t.start else st.close))
  }

  /** The state after the first k tokens. */
  function ParsePrefix(ts: seq<Token>, k: nat, context: string): Result<ParseState>
    requires k <= |ts|
  {
    if k == 0 then Ok(START)
    else
      var before := ParsePrefix(ts, k - 1, context);
      if before.Err? then before else ParseStep(before.value, ts[k - 1], context)
  }

  /** What the state says about open and close after k tokens. */
  predicate StateOk(st: ParseState, ts: seq<Token>, k: nat)
    requires k <= |ts|
  {
    && (st.open < 0 ==> st.depth == 0 && st.close < 0)
    && (st.open >= 0 ==> k > 0 && st.open <= ts[k - 1].start)
    && (st.close >= 0 ==>
         st.depth == 0 && st.open < st.close && k > 0 && ts[k - 1].kind.Close? && st.close == ts[k - 1].start)
    && (st.depth == 0 && st.open >= 0 ==> st.close >= 0)
  }

  lemma {:induction false} ParsePrefixState(ts: seq<Token>, k: nat, context: string, hi: nat)
    requires k <= |ts| && InOrder(ts, 0, hi)
    ensures ParsePrefix(ts, k, context).Ok? ==> StateOk(ParsePrefix(ts, k, context).value, ts, k)
  {
    if k > 0 { ParsePrefixState(ts, k - 1, context, hi); }
  }

  function ParseSingle(text: string, context: string): Result<Draft> {
    if context !in CONTEXTS then Err(InvalidContext, 0)
    else
      var scan := ScanFrom(text, 0);
      if scan.Err? then Err(scan.code, scan.offset)
      else
        var ts := scan.value.tokens;
        var end := ParsePrefix(ts, |ts|, context);
        if end.Err? then Err(end.code, end.offset)
        else if end.value.depth != 0 then Err(UnbalancedBraces, |text|)
        else if end.value.open < 0 then Err(ExpectedBlock, 0)
        else
          ScanInOrder(text, 0);
          ParsePrefixState(ts, |ts|, context, |text|);
          Ok(Draft(end.value.header, text[end.value.open + 1..end.value.close]))
  }

  /** A failure stays the result, whatever tokens follow. */
  lemma {:induction false} ParseFails(ts: seq<Token>, k: nat, context: string)
    requires k <= |ts| && ParsePrefix(ts, k, context).Err?
    ensures ParsePrefix(ts, |ts|, context) == ParsePrefix(ts, k, context)
    decreases |ts| - k
  {
    if k < |ts| { ParseFails(ts, k + 1, context); }
  }

  /** parseSingleBlock. */
  method ParseSingleBlock(text: string, context: string) returns (r: Result<Draft>)
    ensures r == ParseSingle(text, context)
  {
    hide ScanFrom, CheckContext, JoinRaw;
    if context !in CONTEXTS { return Err(InvalidContext, 0); }
    var scan := ScanText(text);
    if scan.Err? { return Err(scan.code, scan.offset); }
    var tokens := scan.value.tokens;
    var pending: seq<Token> := [];
    var depth: nat := 0;
    var open: int, close: int := -1, -1;
    var header := "";
    for k := 0 to |tokens|
      invariant depth >= 0
      invariant ParsePrefix(tokens, k, context) == Ok(ParseState(pending, depth, open, close, header))
    {
      var token := tokens[k];
      ghost var after := ParseStep(ParseState(pending, depth, open, close, header), token, context);
      assert ParsePrefix(tokens, k + 1, context) == after;
      if after.Err? { ParseFails(tokens, k + 1, context); }
      if close >= 0 {
        return Err(if token.kind.Close? then UnbalancedBraces else MultipleBlocks, token.start);
      }
      match token.kind
      case Word =>
        pending := pending + [token];
      case Open =>
        if pending == [] { return Err(ExpectedBlock, token.start); }
        var complaint := CheckContext(pending, context, depth);
        if complaint.Some? { return Err(complaint.value.code, complaint.value.offset); }
        if depth == 0 {
          open := token.start;
          header := JoinRaw(pending);
        }
        pending := [];
        depth := depth + 1;
      case Semi =>
        if depth == 0 { return Err(ExpectedBlock, token.start); }
        pending := [];
      case Close =>
        if depth == 0 { return Err(UnbalancedBraces, token.start); }
        if pending != [] { return Err(MissingTerminator, token.start); }
        depth := depth - 1;
        if depth == 0 { close := token.start; }
    }
    if depth != 0 { return Err(UnbalancedBraces, |text|); }
    if open < 0 { return Err(ExpectedBlock, 0); }
    ScanInOrder(text, 0);
    ParsePrefixState(tokens, |tokens|, context, |text|);
    r := Ok(Draft(header, text[open + 1..close]));
  }

  // ----- compose -----

  function HeaderGap(scan: Scan): string {
    if scan.trailingComment then "\n" else " "
  }

  function BodyGap(scan: Scan): string {
    if scan.trailingComment then "\n" else ""
  }

  function FirstNonWord(ts: seq<Token>): (r: Option<Token>)
    ensures r.None? <==> forall t :: t in ts ==> t.kind.Word?
    ensures r.Some? ==> r.value in ts && !r.value.kind.Word?
  {
    if ts == [] then None
    else if !ts[0].kind.Word? then Some(ts[0])
    else
      assert ts == [ts[0]] + ts[1..];
      FirstNonWord(ts[1..])
  }

  /** Header, body and the two braces; gap is what stands between the body and its closing brace. */
  function Composed(header: string, hs: Scan, body: string, gap: string): string {
    header + (HeaderGap(hs) + "{") + (body + (gap + "}"))
  }

  lemma ComposedText(h: string, hs: Scan, body: string, bs: Scan)
    ensures h + (if hs.trailingComment then "\n{" else " {") + body + (if bs.trailingComment then "\n}" else "}")
         == Composed(h, hs, body, BodyGap(bs))
  {
    assert HeaderGap(hs) + "{" == if hs.trailingComment then "\n{" else " {";
    assert BodyGap(bs) + "}" == if bs.trailingComment then "\n}" else "}";
    Regroup(h, HeaderGap(hs) + "{", body, BodyGap(bs) + "}");
  }

  lemma Regroup<T>(a: seq<T>, b: seq<T>, c: seq<T>, d: seq<T>)
    ensures a + b + c + d == (a + b) + (c + d)
  {
  }

  /** compose: render the block, parse it back and compare. */
  function Compose(header: string, body: string, context: string): Result<string> {
    var h := Trim(header);
    var hs := ScanFrom(h, 0);
    if hs.Err? then Err(hs.code, hs.offset)
    else
      var bad := FirstNonWord(hs.value.tokens);
      if bad.Some? then Err(InvalidHeader, bad.value.start)
      else
        var bs := ScanFrom(body, 0);
        if bs.Err? then Err(bs.code, bs.offset)
        else
          var result := Composed(h, hs.value, body, BodyGap(bs.value));
          var parsed := ParseSingle(result, context);
          if parsed.Err? then Err(parsed.code, parsed.offset)
          else if parsed.value.body != body + BodyGap(bs.value) then
            Err(MultipleBlocks, |h| + 2)
          else Ok(result)
  }

  method Render(header: string, body: string, context: string) returns (r: Result<string>)
    ensures r == Compose(header, body, context)
  {
    hide ScanFrom, ParseSingle, Trim, FirstNonWord, Composed;
    var h := Trim(header);
    var hs := ScanText(h);
    if hs.Err? { return Err(hs.code, hs.offset); }
    var bad := FirstNonWord(hs.value.tokens);
    if bad.Some? { return Err(InvalidHeader, bad.value.start); }
    var prefix := h + (if hs.value.trailingComment then "\n{" else " {");
    var bs := ScanText(body);
    if bs.Err? { return Err(bs.code, bs.offset); }
    var result := prefix + body + (if bs.value.trailingComment then "\n}" else "}");
    ComposedText(h, hs.value, body, bs.value);
    var parsed := ParseSingleBlock(result, context);
    if parsed.Err? { return Err(parsed.code, parsed.offset); }
    if parsed.value.body != body + (if bs.value.trailingComment then "\n" else "") {
      return Err(MultipleBlocks, |prefix|);
    }
    r := Ok(result);
  }

  /** The closing brace is put on a line of its own. */
  function BreakBeforeBrace(text: string): Result<string> {
    if text == "" || text[|text| - 1] != '}' then Err(MissingClosingBrace, |text|)
    else
      var close := |text| - 1;
      if close == 0 || (text[close - 1] != '\n' && text[close - 1] != '\r')
      then Ok(text[..close] + "\n" + text[close..])
      else Ok(text)
  }

  /** RawBlockRenderer.render. */
  function RawRender(header: string, body: string, context: string): Result<string> {
    var source := Compose(header, body, context);
    if source.Err? then source else BreakBeforeBrace(source.value)
  }

  // ----- the tokens of a composed block -----

  /** The tokens of header and body with the two generated braces between and behind them. */
  function ComposedTokens(h: string, hs: Scan, body: string, bs: Scan, gap: string): seq<Token> {
    var n := |h| + 2;
    hs.tokens + [Token(Open, |h| + 1, "{", "{")] + Move(bs.tokens, n) +
    [Token(Close, n + |body| + |gap|, "}", "}")]
  }

  /** The body's text ends in a word that would swallow the generated closing brace. */
  predicate SwallowsBrace(bs: Scan, body: string) {
    !bs.trailingComment && EndsInWord(bs, |body|)
  }

  /** Behind this gap the closing brace is a token of its own. */
  predicate Separates(gap: string, bs: Scan, body: string) {
    gap == "\n" || (gap == "" && !bs.trailingComment && !EndsInWord(bs, |body|))
  }

  lemma BraceToken(gap: string)
    requires gap == "" || gap == "\n"
    ensures ScanFrom(gap + "}", 0) == Ok(Scan([Token(Close, |gap|, "}", "}")], false))
  {
    var s := gap + "}";
    var close := Token(Close, |gap|, "}", "}");
    assert ScanFrom(s, |s|) == Ok(Scan([], false));
    assert ScanStep(s, |gap|) == Emit(close, |s|);
    assert [close] + [] == [close];
    assert ScanFrom(s, |gap|) == Ok(Scan([close], false));
    if gap != "" { assert ScanStep(s, 0) == Skip(1); }
  }

  /** The closing gap and brace, scanned on their own behind the body. */
  lemma TailTokens(body: string, bs: Scan, gap: string)
    requires ScanFrom(body, 0) == Ok(bs) && Separates(gap, bs, body)
    ensures ScanFrom(body + (gap + "}"), 0)
         == Ok(Scan(bs.tokens + [Token(Close, |body| + |gap|, "}", "}")], false))
  {
    hide ScanFrom, Move;
    var tail := gap + "}";
    BraceToken(gap);
    ScanAppend(body, tail, 0);
    ScanShift(body, tail, 0);
    MoveOne(Token(Close, |gap|, "}", "}"), |body|);
  }

  lemma MoveOne(t: Token, n: nat)
    ensures Move([t], n) == [t.(start := t.start + n)]
  {
  }

  lemma GapStep(text: string, i: nat)
    requires i + 1 < |text| && (text[i] == ' ' || text[i] == '\n') && text[i + 1] == '{'
    ensures ScanStep(text, i) == Skip(i + 1) && ScanStep(text, i + 1) == Emit(Token(Open, i + 1, "{", "{"), i + 2)
  {
  }

  lemma HeadTokens(h: string, hs: Scan, rest: string)
    requires ScanFrom(h, 0) == Ok(hs)
    ensures ScanFrom(h + (HeaderGap(hs) + "{") + rest, 0)
         == Append(hs.tokens + [Token(Open, |h| + 1, "{", "{")], MoveScan(ScanFrom(rest, 0), |h| + 2))
  {
    hide ScanStep;
    var mid := HeaderGap(hs) + "{";
    var text := h + mid + rest;
    var open := Token(Open, |h| + 1, "{", "{");
    assert text == h + (mid + rest);
    ScanAppend(h, mid + rest, 0);
    assert text[|h|] == mid[0] && text[|h| + 1] == '{';
    GapStep(text, |h|);
    assert |h + mid| == |h| + 2;
    ScanShift(h + mid, rest, 0);
    AppendCons(hs.tokens, open, ScanFrom(text, |h| + 2));
  }

  lemma ComposedScan(h: string, hs: Scan, body: string, bs: Scan, gap: string)
    requires ScanFrom(h, 0) == Ok(hs) && ScanFrom(body, 0) == Ok(bs) && Separates(gap, bs, body)
    ensures ScanFrom(Composed(h, hs, body, gap), 0) == Ok(Scan(ComposedTokens(h, hs, body, bs, gap), false))
  {
    TailTokens(body, bs, gap);
    HeadTokens(h, hs, body + (gap + "}"));
    ComposedTokensGrouped(h, hs, body, bs, gap);
  }

  lemma ComposedTokensGrouped(h: string, hs: Scan, body: string, bs: Scan, gap: string)
    ensures Append(hs.tokens + [Token(Open, |h| + 1, "{", "{")],
                   MoveScan(Ok(Scan(bs.tokens + [Token(Close, |body| + |gap|, "}", "}")], false)), |h| + 2))
         == Ok(Scan(ComposedTokens(h, hs, body, bs, gap), false))
  {
    var first := hs.tokens + [Token(Open, |h| + 1, "{", "{")];
    var close := Token(Close, |body| + |gap|, "}", "}");
    var last := [close.(start := close.start + |h| + 2)];
    MoveConcat(bs.tokens, [close], |h| + 2);
    MoveOne(close, |h| + 2);
    Regroup(first, [], Move(bs.tokens, |h| + 2), last);
    assert first + [] == first;
  }
}
