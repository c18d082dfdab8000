/** NginxConfChecker.stripComment: lines written out, and what is kept of them. */
module CommentText {
  import opened ConfChecker

  /** A character between quotes, as it is or behind a backslash. */
  datatype Inner = Char(c: char) | Escaped(c: char)

  datatype Bit = Bare(c: char) | Quoted(quote: char, body: seq<Inner>)

  predicate InnerOk(x: Inner, quote: char) {
    x.Char? ==> x.c != quote && x.c != '\\'
  }

  predicate BitOk(b: Bit) {
    match b
    case Bare(c) => c != '"' && c != '\'' && c != '#'
    case Quoted(q, body) => (q == '"' || q == '\'') && forall x | x in body :: InnerOk(x, q)
  }

  function InnerText(body: seq<Inner>): string {
    if body == [] then "" else (if body[0].Char? then [body[0].c] else ['\\', body[0].c]) + InnerText(body[1..])
  }

  function BitText(b: Bit): string {
    match b
    case Bare(c) => [c]
    case Quoted(q, body) => [q] + (InnerText(body) + [q])
  }

  function Text(bits: seq<Bit>): string {
    if bits == [] then "" else BitText(bits[0]) + Text(bits[1..])
  }

  lemma {:induction false} InnerKept(pre: string, body: seq<Inner>, quote: char, rest: string)
    requires quote != '\0' && forall x | x in body :: InnerOk(x, quote)
    ensures CommentStart(pre + (InnerText(body) + rest), |pre|, quote) ==
            CommentStart(pre + (InnerText(body) + rest), |pre| + |InnerText(body)|, quote)
    decreases body
  {
    if body != [] {
      var x, more := body[0], InnerText(body[1..]) + rest;
      var piece := if x.Char? then [x.c] else ['\\', x.c];
      InnerKept(pre + piece, body[1..], quote, rest);
      assert x in body;
      Reassociate(pre, piece, InnerText(body[1..]), rest);
      Behind(pre, piece, more);
    }
  }

  lemma Reassociate(pre: string, piece: string, a: string, b: string)
    ensures pre + ((piece + a) + b) == (pre + piece) + (a + b)
  {
  }

  lemma Behind(pre: string, piece: string, more: string)
    ensures var all := (pre + piece) + more;
            |all| == |pre| + |piece| + |more| && forall k | 0 <= k < |piece| :: all[|pre| + k] == piece[k]
  {
  }

  lemma BareKept(pre: string, text: string, rest: string)
    requires |text| == 1 && text[0] != '"' && text[0] != '\'' && text[0] != '#'
    ensures CommentStart(pre + (text + rest), |pre|, '\0') == CommentStart(pre + (text + rest), |pre| + |text|, '\0')
  {
    hide CommentStart;
    var all := pre + (text + rest);
    assert all[|pre|] == text[0];
    PassesBare(all, |pre|);
  }

  lemma BitKept(pre: string, b: Bit, text: string, rest: string)
    requires BitOk(b) && text == BitText(b)
    ensures CommentStart(pre + (text + rest), |pre|, '\0') == CommentStart(pre + (text + rest), |pre| + |text|, '\0')
  {
    hide *;
    BitTextIs(b);
    if b.Bare? { BareKept(pre, text, rest); } else { QuotedKept(pre, b.quote, b.body, text, rest); }
  }

  lemma BitTextIs(b: Bit)
    requires BitOk(b)
    ensures b.Bare? ==> var t := BitText(b); |t| == 1 && t[0] != '"' && t[0] != '\'' && t[0] != '#'
    ensures b.Quoted? ==> BitText(b) == [b.quote] + (InnerText(b.body) + [b.quote])
    ensures b.Quoted? ==> (b.quote == '"' || b.quote == '\'') && forall x | x in b.body :: InnerOk(x, b.quote)
  {
    hide InnerText, InnerOk;
  }

  lemma PassesBare(line: string, i: nat)
    requires i < |line| && line[i] != '"' && line[i] != '\'' && line[i] != '#'
    ensures CommentStart(line, i, '\0') == CommentStart(line, i + 1, '\0')
  {
  }

  lemma OpensQuote(line: string, i: nat)
    requires i < |line| && (line[i] == '"' || line[i] == '\'')
    ensures CommentStart(line, i, '\0') == CommentStart(line, i + 1, line[i])
  {
  }

  lemma ClosesQuote(line: string, i: nat)
    requires i < |line| && (line[i] == '"' || line[i] == '\'')
    ensures CommentStart(line, i, line[i]) == CommentStart(line, i + 1, '\0')
  {
  }

  lemma QuotedKept(pre: string, q: char, body: seq<Inner>, text: string, rest: string)
    requires (q == '"' || q == '\'') && (forall x | x in body :: InnerOk(x, q)) &&
             text == [q] + (InnerText(body) + [q])
    ensures CommentStart(pre + (text + rest), |pre|, '\0') == CommentStart(pre + (text + rest), |pre| + |text|, '\0')
  {
    hide CommentStart, InnerText, InnerOk;
    var inner := InnerText(body);
    var all := pre + (([q] + (inner + [q])) + rest);
    SameText(pre, q, inner, rest);
    assert all[|pre|] == q && all[|pre| + 1 + |inner|] == q;
    OpensQuote(all, |pre|);
    InnerKept(pre + [q], body, q, [q] + rest);
    ClosesQuote(all, |pre| + 1 + |inner|);
  }

  lemma SameText(pre: string, q: char, inner: string, rest: string)
    ensures var all := pre + (([q] + (inner + [q])) + rest);
            && all == (pre + [q]) + (inner + ([q] + rest))
            && all == ((pre + [q] + inner) + [q]) + rest
  {
  }

  lemma {:induction false} BitsKept(pre: string, bits: seq<Bit>, rest: string)
    requires forall b | b in bits :: BitOk(b)
    ensures CommentStart(pre + (Text(bits) + rest), |pre|, '\0') ==
            CommentStart(pre + (Text(bits) + rest), |pre| + |Text(bits)|, '\0')
    decreases bits
  {
    hide CommentStart, BitText, BitOk;
    if bits != [] {
      var piece := BitText(bits[0]);
      BitKept(pre, bits[0], piece, Text(bits[1..]) + rest);
      BitsKept(pre + piece, bits[1..], rest);
      Reassociate(pre, piece, Text(bits[1..]), rest);
      assert pre + ((piece + Text(bits[1..])) + rest) == pre + (piece + (Text(bits[1..]) + rest));
    }
  }

  /**
   * Whatever stands before a hash sign is kept, quotes with everything in them included, and nothing behind it; in a
   * line without one, or with a quote that is not closed, everything is.
   */
  lemma CommentIsCut(bits: seq<Bit>, comment: string, quote: char, body: seq<Inner>)
    requires forall b | b in bits :: BitOk(b)
    requires (quote == '"' || quote == '\'') && forall x | x in body :: InnerOk(x, quote)
    ensures CommentStart(Text(bits) + (['#'] + comment), 0, '\0') == |Text(bits)|
    ensures CommentStart(Text(bits), 0, '\0') == |Text(bits)|
    ensures var open := Text(bits) + ([quote] + InnerText(body)); CommentStart(open, 0, '\0') == |open|
  {
    hide Text, InnerText, BitOk, InnerOk;
    Kept(bits, ['#'] + comment);
    Kept(bits, "");
    assert Text(bits) + "" == Text(bits);
    Kept(bits, [quote] + InnerText(body));
    var pre := Text(bits) + [quote];
    InnerKept(pre, body, quote, "");
    assert pre + (InnerText(body) + "") == Text(bits) + ([quote] + InnerText(body));
  }

  lemma Kept(bits: seq<Bit>, rest: string)
    requires forall b | b in bits :: BitOk(b)
    ensures CommentStart(Text(bits) + rest, 0, '\0') == CommentStart(Text(bits) + rest, |Text(bits)|, '\0')
  {
    hide *;
    BitsKept("", bits, rest);
    assert "" + (Text(bits) + rest) == Text(bits) + rest;
  }
}
