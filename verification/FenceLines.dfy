/**
 * fence-code-blocks.js, line by line.
 *
 * Quote prefixes, markdown escapes, code fences and the fingerprint of a document's content. White space is that of
 * JavaScript's regular expressions.
 */
module FenceLines {
  import opened Text

  predicate IsWhite(c: char) {
    || '\U{0009}' <= c <= '\U{000D}'
    || c == ' ' || c == '\U{00A0}' || c == '\U{1680}'
    || '\U{2000}' <= c <= '\U{200A}'
    || c == '\U{2028}' || c == '\U{2029}' || c == '\U{202F}' || c == '\U{205F}' || c == '\U{3000}' || c == '\U{FEFF}'
  }

  predicate IsTerminator(c: char) {
    c == '\n' || c == '\r' || c == '\U{2028}' || c == '\U{2029}'
  }

  predicate AllWhite(s: string) {
    forall c | c in s :: IsWhite(c)
  }

  /** How many white-space characters the text starts with. */
  function Indented(s: string): (n: nat)
    ensures n <= |s|
  {
    if s != "" && IsWhite(s[0]) then 1 + Indented(s[1..]) else 0
  }

  function SkipWhite(s: string): string {
    s[Indented(s)..]
  }

  function NoSpace(s: string): string {
    if s == "" then "" else (if IsWhite(s[0]) then "" else [s[0]]) + NoSpace(s[1..])
  }

  // ----- quotes and escapes -----

  predicate IsQuote(l: string) {
    ">" <= SkipWhite(l)
  }

  /** A note at the head of the file: its source, or that it is a translation. */
  predicate IsMeta(l: string) {
    IsQuote(l) &&
    var rest := SkipWhite(SkipWhite(l)[1..]);
    || "Source:" <= rest
    || ("\U{7FFB}\U{8B6F}" <= rest &&
        var colon := SkipWhite(rest[2..]);
        colon != "" && (colon[0] == ':' || colon[0] == '\U{FF1A}'))
  }

  predicate IsNested(l: string) {
    IsQuote(l) && ">" <= SkipWhite(SkipWhite(l)[1..])
  }

  function StripQuote(l: string): string {
    if !IsQuote(l) then l
    else
      var rest := SkipWhite(l)[1..];
      if rest != "" && IsWhite(rest[0]) then rest[1..] else rest
  }

  /** ASCII punctuation. */
  predicate IsPunct(c: char) {
    '!' <= c <= '/' || ':' <= c <= '@' || '[' <= c <= '`' || '{' <= c <= '~'
  }

  function Unescape(s: string): (r: string)
    ensures forall c | c in r :: c in s
    decreases |s|
  {
    if s == "" then ""
    else if s[0] == '\\' && |s| > 1 && IsPunct(s[1]) then
      assert s == [s[0]] + [s[1]] + s[2..];
      [s[1]] + Unescape(s[2..])
    else
      assert s == [s[0]] + s[1..];
      [s[0]] + Unescape(s[1..])
  }

  lemma {:induction false} NoEscapes(s: string)
    requires '\\' !in s
    ensures Unescape(s) == s
  {
    if s != "" { NoEscapes(s[1..]); }
  }

  function Body(l: string): string {
    Unescape(StripQuote(l))
  }

  lemma BodyChars(l: string, c: char)
    requires c !in l
    ensures c !in Body(l)
  {
  }

  // ----- fences -----

  function Ticks(s: string): (n: nat)
    ensures n <= |s| && forall k | 0 <= k < n :: s[k] == '`'
  {
    if s != "" && s[0] == '`' then 1 + Ticks(s[1..]) else 0
  }

  /** Three or more backticks behind white space; no line terminator behind them. */
  predicate IsFence(l: string) {
    var s := SkipWhite(l);
    Ticks(s) >= 3 && forall c | c in s[Ticks(s)..] :: !IsTerminator(c)
  }

  function FenceLength(l: string): nat {
    Ticks(SkipWhite(l))
  }

  /** The line ends a fence opened with this many backticks. */
  predicate Closes(l: string, open: nat) {
    IsFence(l) && FenceLength(l) >= open && AllWhite(SkipWhite(l)[FenceLength(l)..])
  }

  datatype Mark = Outside | Marker | Inside

  /** open: the number of backticks of the fence the line stands in, 0 for none. */
  function MarkOf(l: string, open: nat): Mark {
    if open == 0 then (if IsFence(l) then Marker else Outside)
    else if Closes(l, open) then Marker
    else Inside
  }

  function Next(l: string, open: nat): nat {
    if open == 0 then (if IsFence(l) then FenceLength(l) else 0)
    else if Closes(l, open) then 0
    else open
  }

  function Marks(lines: seq<string>, open: nat): (r: seq<Mark>)
    ensures |r| == |lines|
  {
    if lines == [] then [] else [MarkOf(lines[0], open)] + Marks(lines[1..], Next(lines[0], open))
  }

  function OpenAfter(lines: seq<string>, open: nat): nat {
    if lines == [] then open else OpenAfter(lines[1..], Next(lines[0], open))
  }

  lemma {:induction false} MarksConcat(a: seq<string>, b: seq<string>, open: nat)
    ensures Marks(a + b, open) == Marks(a, open) + Marks(b, OpenAfter(a, open))
    ensures OpenAfter(a + b, open) == OpenAfter(b, OpenAfter(a, open))
  {
    hide MarkOf, Next;
    if a == [] {
      assert a + b == b;
    } else {
      assert (a + b)[1..] == a[1..] + b;
      MarksConcat(a[1..], b, Next(a[0], open));
    }
  }

  method FenceScan(lines: seq<string>) returns (states: seq<Mark>, unclosed: bool)
    ensures states == Marks(lines, 0)
    ensures unclosed == (OpenAfter(lines, 0) > 0)
  {
    hide IsFence, FenceLength, Closes;
    states := [];
    var open: nat := 0;
    for i := 0 to |lines|
      invariant states == Marks(lines[..i], 0) && open == OpenAfter(lines[..i], 0)
    {
      assert lines[..i + 1] == lines[..i] + [lines[i]];
      MarksConcat(lines[..i], [lines[i]], 0);
      OneLine(lines[i], open);
      if open == 0 {
        if IsFence(lines[i]) {
          states := states + [Marker];
          open := FenceLength(lines[i]);
        } else {
          states := states + [Outside];
        }
        continue;
      }
      if Closes(lines[i], open) {
        states := states + [Marker];
        open := 0;
        continue;
      }
      states := states + [Inside];
    }
    assert lines[..|lines|] == lines;
    unclosed := open > 0;
  }

  lemma OneLine(l: string, open: nat)
    ensures Marks([l], open) == [MarkOf(l, open)] && OpenAfter([l], open) == Next(l, open)
  {
    assert [l][1..] == [];
  }

  // ----- the fingerprint -----

  /**
   * What a line contributes: outside fences without quote prefix and escapes, inside as it stands, white space
   * removed.
   */
  function Piece(l: string, mark: Mark): string {
    match mark
    case Marker => ""
    case Inside => NoSpace(l)
    case Outside => NoSpace(Body(l))
  }

  function Fingerprint(lines: seq<string>, open: nat): string {
    if lines == [] then "" else Piece(lines[0], MarkOf(lines[0], open)) + Fingerprint(lines[1..], Next(lines[0], open))
  }

  lemma {:induction false} FingerprintConcat(a: seq<string>, b: seq<string>, open: nat)
    ensures Fingerprint(a + b, open) == Fingerprint(a, open) + Fingerprint(b, OpenAfter(a, open))
  {
    hide Piece, MarkOf, Next;
    if a == [] {
      assert a + b == b;
    } else {
      assert (a + b)[1..] == a[1..] + b;
      FingerprintConcat(a[1..], b, Next(a[0], open));
      assert Piece(a[0], MarkOf(a[0], open)) +
        (Fingerprint(a[1..], Next(a[0], open)) + Fingerprint(b, OpenAfter(a, open)))
          == Piece(a[0], MarkOf(a[0], open)) + Fingerprint(a[1..], Next(a[0], open)) +
            Fingerprint(b, OpenAfter(a, open));
    }
  }

  lemma {:induction false} NoSpaceConcat(a: string, b: string)
    ensures NoSpace(a + b) == NoSpace(a) + NoSpace(b)
  {
    if a == "" {
      assert a + b == b;
    } else {
      assert (a + b)[1..] == a[1..] + b;
      NoSpaceConcat(a[1..], b);
    }
  }

  lemma {:induction false} NoSpaceOfWhite(s: string)
    requires AllWhite(s)
    ensures NoSpace(s) == ""
  {
    if s != "" {
      assert s[0] in s && forall c :: c in s[1..] ==> c in s;
      NoSpaceOfWhite(s[1..]);
    }
  }

  function Pieces(lines: seq<string>, marks: seq<Mark>): seq<string>
    requires |marks| == |lines|
  {
    if lines == [] then []
    else
      (if marks[0] == Marker then [] else [if marks[0] == Inside then lines[0] else Body(lines[0])])
      + Pieces(lines[1..], marks[1..])
  }

  /** contentFingerprint: the contents joined, white space removed. */
  method ContentFingerprint(text: string) returns (r: string)
    ensures r == Fingerprint(Split(text, '\n'), 0)
  {
    var lines := Split(text, '\n');
    var states, _ := FenceScan(lines);
    r := NoSpace(Join(Pieces(lines, states), '\n'));
    JoinedPieces(lines, 0);
  }

  lemma {:induction false} NoSpaceJoin(xs: seq<string>)
    ensures NoSpace(Join(xs, '\n')) == if xs == [] then "" else NoSpace(xs[0]) + NoSpace(Join(xs[1..], '\n'))
  {
    if |xs| == 1 {
      assert xs[1..] == [];
    } else if |xs| > 1 {
      var rest := Join(xs[1..], '\n');
      NoSpaceConcat(xs[0] + ['\n'], rest);
      NoSpaceConcat(xs[0], ['\n']);
      assert NoSpace(['\n']) == "" by { assert ['\n'][1..] == ""; }
    }
  }

  lemma {:induction false} JoinedPieces(lines: seq<string>, open: nat)
    ensures NoSpace(Join(Pieces(lines, Marks(lines, open)), '\n')) == Fingerprint(lines, open)
  {
    hide MarkOf, Next, Body, NoSpace;
    var marks := Marks(lines, open);
    NoSpaceJoin(Pieces(lines, marks));
    if lines != [] {
      JoinedPieces(lines[1..], Next(lines[0], open));
      assert marks[1..] == Marks(lines[1..], Next(lines[0], open));
      var mark := marks[0];
      if mark != Marker {
        assert Pieces(lines, marks)[1..] == Pieces(lines[1..], marks[1..]);
      } else {
        assert Pieces(lines, marks) == Pieces(lines[1..], marks[1..]);
      }
    }
  }

  // ----- facts about single lines -----

  lemma {:induction false} IndentedConcat(indent: string, l: string)
    requires AllWhite(indent)
    ensures Indented(indent + l) == |indent| + Indented(l)
    ensures SkipWhite(indent + l) == SkipWhite(l)
  {
    if indent == "" {
      assert indent + l == l;
    } else {
      assert indent[0] in indent && forall c :: c in indent[1..] ==> c in indent;
      assert (indent + l)[1..] == indent[1..] + l;
      IndentedConcat(indent[1..], l);
    }
  }

  lemma {:induction false} IndentIsWhite(l: string)
    ensures AllWhite(l[..Indented(l)])
    ensures Indented(l) < |l| ==> !IsWhite(l[Indented(l)])
  {
    if l != "" && IsWhite(l[0]) {
      IndentIsWhite(l[1..]);
      assert l[..Indented(l)] == [l[0]] + l[1..][..Indented(l[1..])];
    }
  }

  lemma QuoteIsNoFence(l: string)
    requires IsQuote(l)
    ensures !IsFence(l)
  {
    assert SkipWhite(l)[0] == '>';
  }

  /** A quote line leaves the state of the scan as it is. */
  lemma QuoteLine(l: string, open: nat)
    requires IsQuote(l)
    ensures Next(l, open) == open && MarkOf(l, open) == if open == 0 then Outside else Inside
  {
    hide IsFence, IsQuote;
    QuoteIsNoFence(l);
  }
}
