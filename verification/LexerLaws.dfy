/** NginxBlockCodec.scan on texts written out piece by piece: which tokens they are, and what their words mean. */
module LexerLaws {
  import opened Text
  import opened BlockCodec

  datatype QuotedPiece = In(c: char) | InEscaped(c: char)

  /** What a word is written as: plain characters, escaped ones, quoted text, and variables in braces. */
  datatype WordPiece =
    | Plain(c: char)
    | Escaped(c: char)
    | Quoted(q: char, inner: seq<QuotedPiece>)
    | Variable(name: string)

  function SpellQuoted(ps: seq<QuotedPiece>): string {
    if ps == [] then "" else SpellOne(ps[0]) + SpellQuoted(ps[1..])
  }

  function SpellOne(p: QuotedPiece): string {
    match p case In(c) => [c] case InEscaped(c) => ['\\', c]
  }

  function MeanQuoted(ps: seq<QuotedPiece>): string {
    if ps == [] then "" else [ps[0].c] + MeanQuoted(ps[1..])
  }

  function SpellPiece(p: WordPiece): string {
    match p
    case Plain(c) => [c]
    case Escaped(c) => ['\\', c]
    case Quoted(q, inner) => [q] + (SpellQuoted(inner) + [q])
    case Variable(name) => "${" + (name + "}")
  }

  function MeanPiece(p: WordPiece): string {
    match p
    case Plain(c) => [c]
    case Escaped(c) => [c]
    case Quoted(q, inner) => MeanQuoted(inner)
    case Variable(name) => "${" + (name + "}")
  }

  function Spell(ps: seq<WordPiece>): string {
    if ps == [] then "" else SpellPiece(ps[0]) + Spell(ps[1..])
  }

  function Mean(ps: seq<WordPiece>): string {
    if ps == [] then "" else MeanPiece(ps[0]) + Mean(ps[1..])
  }

  /** Quoted text holds its own quote and backslashes only escaped. */
  predicate QuotedFits(ps: seq<QuotedPiece>, q: char) {
    ps == [] || ((ps[0].In? ==> ps[0].c != q && ps[0].c != '\\') && QuotedFits(ps[1..], q))
  }

  /** The piece can stand in front of this text. */
  predicate PieceFits(p: WordPiece, rest: string) {
    match p
    case Plain(c) =>
      && c != '\\' && c != '\'' && c != '"' && c != '{' && c != ';' && !IsSpace(c)
      && (c == '$' ==> rest == "" || rest[0] != '{')
    case Escaped(_) => true
    case Quoted(q, inner) =>
      (q == '\'' || q == '"') && QuotedFits(inner, q)
    case Variable(name) => '}' !in name
  }

  /** The pieces are one word, which this text does not lengthen. */
  predicate WordFits(ps: seq<WordPiece>, rest: string) {
    if ps == [] then rest == "" || rest[0] == '{' || rest[0] == ';' || IsSpace(rest[0])
    else PieceFits(ps[0], Spell(ps[1..]) + rest) && WordFits(ps[1..], rest)
  }

  // ----- one word -----

  /** The lexeme behind a prefix that contributes this text. */
  function Behind(n: nat, value: string, r: Lexeme): Lexeme {
    Lexeme(n + r.end, value + r.value)
  }

  lemma StepOn(head: string, rest: string, quote: char, quoteAt: int, piece: string, q: char, at: int, r: Lexeme)
    requires head != "" && WordStep(head + rest, 0, quote, quoteAt) == Go(piece, |head|, q, at)
    requires LexWord(rest, 0, q, at - |head|) == Ok(r)
    ensures LexWord(head + rest, 0, quote, quoteAt) == Ok(Behind(|head|, piece, r))
  {
    hide WordStep;
    LexWordShift(head, rest, 0, q, at - |head|);
  }

  lemma {:induction false} QuotedMeans(inner: seq<QuotedPiece>, q: char, rest: string, quoteAt: int, r: Lexeme)
    requires (q == '\'' || q == '"') && QuotedFits(inner, q)
    requires forall at :: LexWord(rest, 0, NO_QUOTE, at) == Ok(r)
    ensures LexWord(SpellQuoted(inner) + ([q] + rest), 0, q, quoteAt)
         == Ok(Behind(|SpellQuoted(inner)| + 1, MeanQuoted(inner), r))
    decreases |inner|
  {
    hide LexWord;
    if inner == [] {
      QuoteEnds(q, rest, quoteAt, r);
    } else {
      var n := |SpellOne(inner[0])|;
      QuotedMeans(inner[1..], q, rest, quoteAt - n, r);
      QuotedOneMore(inner, q, rest, quoteAt, Behind(|SpellQuoted(inner[1..])| + 1, MeanQuoted(inner[1..]), r));
      assert [inner[0].c] + (MeanQuoted(inner[1..]) + r.value) == MeanQuoted(inner) + r.value;
    }
  }

  lemma QuoteEnds(q: char, rest: string, quoteAt: int, r: Lexeme)
    requires q == '\'' || q == '"'
    requires forall at :: LexWord(rest, 0, NO_QUOTE, at) == Ok(r)
    ensures LexWord(SpellQuoted([]) + ([q] + rest), 0, q, quoteAt) == Ok(Behind(1, MeanQuoted([]), r))
  {
    hide LexWord;
    assert "" + ([q] + rest) == [q] + rest && "" + r.value == r.value;
    StepOn([q], rest, q, quoteAt, "", NO_QUOTE, quoteAt, r);
  }

  lemma QuotedOneMore(inner: seq<QuotedPiece>, q: char, rest: string, quoteAt: int, r: Lexeme)
    requires (q == '\'' || q == '"') && inner != []
    requires inner[0].In? ==> inner[0].c != q && inner[0].c != '\\'
    requires LexWord(SpellQuoted(inner[1..]) + ([q] + rest), 0, q, quoteAt - |SpellOne(inner[0])|) == Ok(r)
    ensures LexWord(SpellQuoted(inner) + ([q] + rest), 0, q, quoteAt)
         == Ok(Behind(|SpellOne(inner[0])|, [inner[0].c], r))
  {
    hide LexWord;
    var head, tail := SpellOne(inner[0]), SpellQuoted(inner[1..]) + ([q] + rest);
    assert SpellQuoted(inner) + ([q] + rest) == head + tail;
    StepOn(head, tail, q, quoteAt, [inner[0].c], q, quoteAt, r);
  }

  lemma PieceMeans(p: WordPiece, rest: string, r: Lexeme)
    requires PieceFits(p, rest) && forall at :: LexWord(rest, 0, NO_QUOTE, at) == Ok(r)
    ensures LexWord(SpellPiece(p) + rest, 0, NO_QUOTE, -1) == Ok(Behind(|SpellPiece(p)|, MeanPiece(p), r))
  {
    hide LexWord, IsSpace;
    var head := SpellPiece(p);
    match p
    case Plain(c) => StepOn(head, rest, NO_QUOTE, -1, [c], NO_QUOTE, -1, r);
    case Escaped(c) => StepOn(head, rest, NO_QUOTE, -1, [c], NO_QUOTE, -1, r);
    case Variable(name) =>
      VariableEnds(name, rest);
      StepOn(head, rest, NO_QUOTE, -1, head, NO_QUOTE, -1, r);
    case Quoted(q, inner) =>
      var tail := SpellQuoted(inner) + ([q] + rest);
      QuotedMeans(inner, q, rest, -1, r);
      assert head + rest == [q] + tail;
      StepOn([q], tail, NO_QUOTE, -1, "", q, 0, Behind(|SpellQuoted(inner)| + 1, MeanQuoted(inner), r));
      assert "" + (MeanQuoted(inner) + r.value) == MeanQuoted(inner) + r.value;
  }

  lemma VariableEnds(name: string, rest: string)
    requires '}' !in name
    ensures var head := "${" + (name + "}");
            WordStep(head + rest, 0, NO_QUOTE, -1) == Go(head, |head|, NO_QUOTE, -1)
  {
    var head := "${" + (name + "}");
    var s := head + rest;
    ClosesAt(name, rest);
    assert s[0..|head|] == head && s[0] == '$' && s[1] == '{';
    hide IndexOf;
  }

  lemma ClosesAt(name: string, rest: string)
    requires '}' !in name
    ensures IndexOf("${" + (name + "}") + rest, '}', 2) == Some(|name| + 2)
  {
    hide IndexOf;
    FoundAt(name, '}', rest);
    IndexOfShift("${", name + ['}'] + rest, '}', 0);
    assert "${" + (name + "}") + rest == "${" + (name + ['}'] + rest);
  }

  /** A word is read to its end and means what its pieces mean. */
  lemma {:induction false} WordMeans(ps: seq<WordPiece>, rest: string, at: int)
    requires WordFits(ps, rest)
    ensures LexWord(Spell(ps) + rest, 0, NO_QUOTE, at) == Ok(Lexeme(|Spell(ps)|, Mean(ps)))
    decreases |ps|
  {
    hide LexWord, PieceFits, SpellPiece, MeanPiece;
    if ps == [] {
      assert "" + rest == rest;
      WordEnds(rest, at);
    } else {
      var tail := Spell(ps[1..]) + rest;
      forall a ensures LexWord(tail, 0, NO_QUOTE, a) == Ok(Lexeme(|Spell(ps[1..])|, Mean(ps[1..]))) {
        WordMeans(ps[1..], rest, a);
      }
      PieceMeans(ps[0], tail, Lexeme(|Spell(ps[1..])|, Mean(ps[1..])));
      assert Spell(ps) + rest == SpellPiece(ps[0]) + tail;
      LexWordQuoteAt(Spell(ps) + rest, 0, -1, at);
    }
  }

  lemma WordEnds(rest: string, at: int)
    requires WordFits([], rest)
    ensures LexWord(rest, 0, NO_QUOTE, at) == Ok(Lexeme(0, ""))
  {
  }

  // ----- whole texts -----

  datatype Item = Blank(c: char) | Comment(text: string, end: char) | Punct(c: char) | Words(pieces: seq<WordPiece>)

  function PrintItem(x: Item): string {
    match x
    case Blank(c) => [c]
    case Comment(text, end) => "#" + (text + [end])
    case Punct(c) => [c]
    case Words(ps) => Spell(ps)
  }

  /** last: a comment that ends the text. */
  function Print(xs: seq<Item>, last: Option<string>): string {
    if xs == [] then (match last case None => "" case Some(text) => "#" + text)
    else PrintItem(xs[0]) + Print(xs[1..], last)
  }

  predicate ItemFits(x: Item, rest: string) {
    match x
    case Blank(c) => IsSpace(c)
    case Comment(text, end) => '\n' !in text && '\r' !in text && (end == '\n' || end == '\r')
    case Punct(c) => c == '{' || c == '}' || c == ';'
    case Words(ps) =>
      ps != [] && WordFits(ps, rest) && ps[0] != Plain('#') && ps[0] != Plain('}')
  }

  predicate Fits(xs: seq<Item>, last: Option<string>) {
    if xs == [] then last.Some? ==> '\n' !in last.value && '\r' !in last.value
    else ItemFits(xs[0], Print(xs[1..], last)) && Fits(xs[1..], last)
  }

  /** The tokens meant, the first item at position `at`. */
  function Meant(xs: seq<Item>, at: nat): seq<Token> {
    if xs == [] then [] else MeantItem(xs[0], at) + Meant(xs[1..], at + |PrintItem(xs[0])|)
  }

  function MeantItem(x: Item, at: nat): seq<Token> {
    match x
    case Punct(c) => [Token(if c == '{' then Open else if c == '}' then Close else Semi, at, [c], [c])]
    case Words(ps) => [Token(Word, at, Spell(ps), Mean(ps))]
    case _ => []
  }

  lemma {:induction false} MeantMoved(xs: seq<Item>, at: nat, n: nat)
    ensures Meant(xs, at + n) == Move(Meant(xs, at), n)
  {
    hide MeantItem, PrintItem;
    if xs != [] {
      var next := at + |PrintItem(xs[0])|;
      MeantMoved(xs[1..], next, n);
      ItemMoved(xs[0], at, n);
      MoveConcat(MeantItem(xs[0], at), Meant(xs[1..], next), n);
      assert at + n + |PrintItem(xs[0])| == next + n;
    }
  }

  lemma ItemMoved(x: Item, at: nat, n: nat)
    ensures MeantItem(x, at + n) == Move(MeantItem(x, at), n)
  {
    hide Spell, Mean;
  }

  lemma SkipOn(s: string, i: nat)
    requires i <= |s| && ScanStep(s, i).Skip?
    ensures ScanFrom(s, i) == ScanFrom(s, ScanStep(s, i).next)
  {
    hide ScanStep;
  }

  lemma EmitOn(s: string, i: nat)
    requires i <= |s| && ScanStep(s, i).Emit?
    ensures ScanFrom(s, i) == Cons(ScanStep(s, i).token, ScanFrom(s, ScanStep(s, i).next))
  {
    hide ScanStep;
  }

  lemma CommentIsSkipped(text: string, end: char, rest: string)
    requires '\n' !in text && '\r' !in text && (end == '\n' || end == '\r')
    ensures var head := "#" + (text + [end]); ScanFrom(head + rest, 0) == ScanFrom(head + rest, |head|)
  {
    var head := "#" + (text + [end]);
    var s := head + rest;
    var e := 1 + |text|;
    assert s[0] == '#' && s[e] == end;
    forall k | 0 <= k < e ensures !IsLineEnd(s[k]) { if k > 0 { assert s[k] == text[k - 1]; } }
    LineEndUnique(s, 0, e);
    hide LineEndFrom;
    SkipOn(s, 0);
    SkipOn(s, e);
  }

  lemma LastComment(text: string)
    requires '\n' !in text && '\r' !in text
    ensures ScanFrom("#" + text, 0) == Ok(Scan([], true))
  {
    var s := "#" + text;
    forall k | 0 <= k < |s| ensures !IsLineEnd(s[k]) { if k > 0 { assert s[k] == text[k - 1]; } }
    LineEndUnique(s, 0, |s|);
    hide LineEndFrom;
    assert ScanStep(s, 0) == Finish(true);
  }

  lemma WordStarts(ps: seq<WordPiece>, rest: string)
    requires ps != [] && WordFits(ps, rest) && ps[0] != Plain('#') && ps[0] != Plain('}')
    ensures Spell(ps) != "" && Spell(ps)[0] != '#' && !IsPunct(Spell(ps)[0]) && !IsSpace(Spell(ps)[0])
  {
    assert Spell(ps)[0] == SpellPiece(ps[0])[0];
  }

  lemma WordIsEmitted(ps: seq<WordPiece>, rest: string)
    requires ItemFits(Words(ps), rest)
    ensures ScanStep(Spell(ps) + rest, 0) == Emit(Token(Word, 0, Spell(ps), Mean(ps)), |Spell(ps)|)
    ensures Spell(ps) != ""
  {
    WordStarts(ps, rest);
    WordMeans(ps, rest, -1);
    hide Spell, Mean, LexWord, WordFits;
    assert (Spell(ps) + rest)[0] == Spell(ps)[0] && (Spell(ps) + rest)[0..|Spell(ps)|] == Spell(ps);
  }

  /** One item, whatever follows it. */
  lemma ItemMeans(x: Item, rest: string)
    requires ItemFits(x, rest)
    ensures var s := PrintItem(x) + rest;
            ScanFrom(s, 0) == Append(MeantItem(x, 0), ScanFrom(s, |PrintItem(x)|))
  {
    hide ScanFrom, Spell, Mean, WordFits, LexWord, LineEndFrom;
    var s := PrintItem(x) + rest;
    var r := ScanFrom(s, |PrintItem(x)|);
    AppendCons([], Token(Semi, 0, "", ""), r);
    match x
    case Blank(c) =>
      assert s[0] == c;
      SkipOn(s, 0);
    case Comment(text, end) => CommentIsSkipped(text, end, rest);
    case Punct(c) =>
      assert s[0] == c;
      EmitOn(s, 0);
    case Words(ps) =>
      WordIsEmitted(ps, rest);
      EmitOn(s, 0);
  }

  lemma ItemThenRest(x: Item, rest: string, toks: seq<Token>, trailing: bool)
    requires ItemFits(x, rest) && ScanFrom(rest, 0) == Ok(Scan(toks, trailing))
    ensures ScanFrom(PrintItem(x) + rest, 0) == Ok(Scan(MeantItem(x, 0) + Move(toks, |PrintItem(x)|), trailing))
  {
    hide ScanFrom, ItemFits, PrintItem, MeantItem;
    ItemMeans(x, rest);
    ScanShift(PrintItem(x), rest, 0);
  }

  lemma NothingPrinted(last: Option<string>)
    requires Fits([], last)
    ensures ScanFrom(Print([], last), 0) == Ok(Scan(Meant([], 0), last.Some?))
  {
    if last.Some? { LastComment(last.value); } else { assert ScanStep("", 0) == Finish(false); }
  }

  /**
   * A text written out item by item is scanned into exactly the tokens meant: raw as written, values with quotes and
   * escapes resolved, variables verbatim, comments and blanks left out.
   */
  lemma {:induction false} ScanMeans(xs: seq<Item>, last: Option<string>)
    requires Fits(xs, last)
    ensures ScanFrom(Print(xs, last), 0) == Ok(Scan(Meant(xs, 0), last.Some?))
  {
    hide ScanFrom, ItemFits, PrintItem, MeantItem, Move;
    if xs == [] {
      NothingPrinted(last);
    } else {
      ScanMeans(xs[1..], last);
      ItemThenRest(xs[0], Print(xs[1..], last), Meant(xs[1..], 0), last.Some?);
      MeantMoved(xs[1..], 0, |PrintItem(xs[0])|);
    }
  }
}
