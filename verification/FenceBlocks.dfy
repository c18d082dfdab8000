/**
 * fence-code-blocks.js: quote blocks, which of them are code, and the fence a block becomes.
 *
 * A fence is made longer than the runs of backticks that open its lines, so none of them ends it early,
 * except a line that is nothing but backticks once its escapes are gone. FenceKeeps: otherwise the fence
 * contributes to the fingerprint what the quoted lines contributed.
 */
module FenceBlocks {
  import opened Text
  import opened FenceLines

  /** The regular expressions that tell code from prose, and code of one language from another. */
  datatype Judge = Judge(signal: string -> bool, prose: string -> bool, language: seq<string> -> string)

  /** Languages are bare words. */
  ghost predicate Plain(j: Judge) {
    forall bodies :: (forall c | c in j.language(bodies) :: 'a' <= c <= 'z')
  }

  /** Lines start..end (end excluded). */
  datatype Block = Block(start: nat, end: nat, lines: seq<string>)

  /** The length of the run of quote lines at the start. */
  function RunLength(lines: seq<string>): (n: nat)
    ensures n <= |lines| && forall k | 0 <= k < n :: IsQuote(lines[k])
    ensures n < |lines| ==> !IsQuote(lines[n])
    ensures lines != [] && IsQuote(lines[0]) ==> n > 0
  {
    if lines != [] && IsQuote(lines[0]) then 1 + RunLength(lines[1..]) else 0
  }

  predicate HasMeta(lines: seq<string>) {
    exists l | l in lines :: IsMeta(l)
  }

  /** The maximal runs of quote lines without notes; at: the number of the first line. */
  function Blocks(lines: seq<string>, at: nat): seq<Block>
    decreases |lines|
  {
    if lines == [] then []
    else if !IsQuote(lines[0]) then Blocks(lines[1..], at + 1)
    else
      var n := RunLength(lines);
      (if HasMeta(lines[..n]) then [] else [Block(at, at + n, lines[..n])]) + Blocks(lines[n..], at + n)
  }

  function Bodies(lines: seq<string>): (r: seq<string>)
    ensures |r| == |lines| && forall k | 0 <= k < |r| :: r[k] == Body(lines[k])
  {
    if lines == [] then [] else [Body(lines[0])] + Bodies(lines[1..])
  }

  function NotBlank(bodies: seq<string>): (r: seq<string>)
    ensures forall b :: b in r <==> b in bodies && !AllWhite(b)
  {
    if bodies == [] then []
    else
      assert bodies == [bodies[0]] + bodies[1..];
      (if AllWhite(bodies[0]) then [] else [bodies[0]]) + NotBlank(bodies[1..])
  }

  /** isCodeBlock. */
  predicate IsCode(lines: seq<string>, j: Judge) {
    var bodies := NotBlank(Bodies(lines));
    var signals := exists b | b in bodies :: j.signal(b);
    bodies != [] &&
    if exists l | l in lines :: IsNested(l) then signals
    else signals || !exists b | b in bodies :: j.prose(b)
  }

  function Indent(l: string): string {
    l[..Indented(l)]
  }

  /** The indents of the lines with content. */
  function Indents(lines: seq<string>): (r: seq<string>)
    ensures forall i | i in r :: AllWhite(i)
  {
    if lines == [] then []
    else
      IndentIsWhite(lines[0]);
      (if AllWhite(StripQuote(lines[0])) then [] else [Indent(lines[0])]) + Indents(lines[1..])
  }

  /** blockIndent: the one indent of all lines with content, None if they differ. */
  function BlockIndent(lines: seq<string>): (r: Option<string>)
    ensures r.Some? ==> AllWhite(r.value)
  {
    var indents := Indents(lines);
    if indents == [] then Some("")
    else
      assert indents[0] in indents;
      if forall i | i in indents :: i == indents[0] then Some(indents[0]) else None
  }

  const TICKS3 := "```"
  const TICKS4 := "````"

  predicate HasTicks(b: string) {
    b != "" && (TICKS3 <= b || HasTicks(b[1..]))
  }

  function DropBlankTail(bodies: seq<string>): (r: seq<string>)
    ensures |r| <= |bodies| && r == bodies[..|r|]
    ensures forall k | |r| <= k < |bodies| :: AllWhite(bodies[k])
  {
    if bodies != [] && AllWhite(bodies[|bodies| - 1]) then DropBlankTail(bodies[..|bodies| - 1]) else bodies
  }

  function MarkerFor(bodies: seq<string>): string {
    if exists b | b in bodies :: HasTicks(b) then TICKS4 else TICKS3
  }

  function ToFence(lines: seq<string>, lang: string): seq<string> {
    var bodies := DropBlankTail(Bodies(lines));
    var marker := MarkerFor(bodies);
    [marker + lang] + bodies + [marker]
  }

  /** Blank lines get no indent. */
  function IndentLine(l: string, indent: string): string {
    if AllWhite(l) then l else indent + l
  }

  function Reindent(lines: seq<string>, indent: string): (r: seq<string>)
    ensures |r| == |lines| && forall k | 0 <= k < |r| :: r[k] == IndentLine(lines[k], indent)
  {
    if lines == [] then [] else [IndentLine(lines[0], indent)] + Reindent(lines[1..], indent)
  }

  /** What a block is replaced by, if it is: code whose lines share one indent. */
  function Fenced(lines: seq<string>, j: Judge): Option<seq<string>> {
    if !IsCode(lines, j) then None
    else
      var indent := BlockIndent(lines);
      if indent.None? then None else Some(Reindent(ToFence(lines, j.language(Bodies(lines))), indent.value))
  }

  // ----- a fence holds what the block held -----

  /** A run of four or more backticks and nothing else: such a body would end any fence made here. */
  predicate BareRun(b: string) {
    Closes(b, 4)
  }

  predicate Tame(lines: seq<string>) {
    forall l | l in lines :: !BareRun(Body(l))
  }

  lemma {:induction false} TicksInSuffix(b: string, n: nat)
    requires n <= |b| && HasTicks(b[n..])
    ensures HasTicks(b)
  {
    if n > 0 {
      assert b[1..][n - 1..] == b[n..];
      TicksInSuffix(b[1..], n - 1);
    } else {
      assert b[0..] == b;
    }
  }

  lemma FenceHasTicks(b: string)
    requires IsFence(b)
    ensures HasTicks(b)
  {
    var s := SkipWhite(b);
    assert TICKS3 <= s by { assert s[..3] == ['`', '`', '`']; }
    TicksInSuffix(b, Indented(b));
  }

  lemma ClosesIndented(b: string, indent: string, open: nat)
    requires AllWhite(indent)
    ensures Closes(IndentLine(b, indent), open) <==> Closes(b, open)
  {
    if !AllWhite(b) { IndentedConcat(indent, b); }
  }

  lemma NoSpaceIndented(b: string, indent: string)
    requires AllWhite(indent)
    ensures NoSpace(IndentLine(b, indent)) == NoSpace(b)
  {
    NoSpaceConcat(indent, b);
    NoSpaceOfWhite(indent);
  }

  /** All bodies, one after the other, without white space. */
  function Packed(bodies: seq<string>): string {
    if bodies == [] then "" else NoSpace(bodies[0]) + Packed(bodies[1..])
  }

  /** Inside a fence that no line closes, every line counts as it stands. */
  lemma {:induction false} InsideFence(bodies: seq<string>, indent: string, open: nat)
    requires open > 0 && AllWhite(indent) && forall b | b in bodies :: !Closes(b, open)
    ensures OpenAfter(Reindent(bodies, indent), open) == open
    ensures Fingerprint(Reindent(bodies, indent), open) == Packed(bodies)
  {
    hide Closes, IndentLine, NoSpace;
    if bodies != [] {
      var b, rest := bodies[0], bodies[1..];
      assert b in bodies && forall x :: x in rest ==> x in bodies;
      ClosesIndented(b, indent, open);
      NoSpaceIndented(b, indent);
      InsideFence(rest, indent, open);
      assert Reindent(bodies, indent)[1..] == Reindent(rest, indent);
    }
  }

  lemma {:induction false} DroppedTail(bodies: seq<string>)
    ensures Packed(DropBlankTail(bodies)) == Packed(bodies)
  {
    if bodies != [] && AllWhite(bodies[|bodies| - 1]) {
      var init, last := bodies[..|bodies| - 1], bodies[|bodies| - 1];
      DroppedTail(init);
      PackedConcat(init, [last]);
      NoSpaceOfWhite(last);
      assert bodies == init + [last];
      assert Packed([last]) == NoSpace(last) + "" by { assert [last][1..] == []; }
    }
  }

  lemma {:induction false} PackedConcat(a: seq<string>, b: seq<string>)
    ensures Packed(a + b) == Packed(a) + Packed(b)
  {
    hide NoSpace;
    if a == [] {
      assert a + b == b;
    } else {
      assert (a + b)[1..] == a[1..] + b;
      PackedConcat(a[1..], b);
      assert NoSpace(a[0]) + (Packed(a[1..]) + Packed(b)) == NoSpace(a[0]) + Packed(a[1..]) + Packed(b);
    }
  }

  /** Outside fences, a run of quote lines counts by its bodies. */
  lemma {:induction false} QuotedRun(lines: seq<string>)
    requires forall l | l in lines :: IsQuote(l)
    ensures Fingerprint(lines, 0) == Packed(Bodies(lines))
  {
    hide IsQuote, NoSpace, Body, MarkOf, Next;
    if lines != [] {
      assert lines[0] in lines && forall l :: l in lines[1..] ==> l in lines;
      QuoteLine(lines[0], 0);
      QuotedRun(lines[1..]);
      assert Bodies(lines)[1..] == Bodies(lines[1..]);
    }
  }

  lemma {:induction false} QuotedKeeps(lines: seq<string>, open: nat)
    requires forall l | l in lines :: IsQuote(l)
    ensures OpenAfter(lines, open) == open
  {
    hide IsQuote, Next;
    if lines != [] {
      assert lines[0] in lines && forall l :: l in lines[1..] ==> l in lines;
      QuoteLine(lines[0], open);
      QuotedKeeps(lines[1..], open);
    }
  }

  /** The generated marker opens a fence of its own length, and the bare one closes it. */
  lemma MarkerLines(indent: string, lang: string, marker: string)
    requires AllWhite(indent) && (marker == TICKS3 || marker == TICKS4) && forall c | c in lang :: 'a' <= c <= 'z'
    ensures IsFence(IndentLine(marker + lang, indent)) && FenceLength(IndentLine(marker + lang, indent)) == |marker|
    ensures Closes(IndentLine(marker, indent), |marker|)
    ensures !IsQuote(IndentLine(marker + lang, indent)) && !IsQuote(IndentLine(marker, indent))
  {
    MarkerLine(indent, lang, marker);
    MarkerLine(indent, "", marker);
    assert marker + "" == marker;
  }

  lemma MarkerLine(indent: string, lang: string, marker: string)
    requires AllWhite(indent) && (marker == TICKS3 || marker == TICKS4) && forall c | c in lang :: 'a' <= c <= 'z'
    ensures var l := IndentLine(marker + lang, indent);
            SkipWhite(l) == marker + lang && Ticks(SkipWhite(l)) == |marker| && SkipWhite(l)[|marker|..] == lang &&
              !IsQuote(l)
  {
    var s := marker + lang;
    assert s[0] == '`' && s[0] in s;
    IndentedConcat(indent, s);
    assert SkipWhite(s) == s;
    assert lang != "" ==> lang[0] in lang;
    TicksOf(marker, lang);
  }

  lemma {:induction false} TicksOf(ticks: string, rest: string)
    requires (forall c | c in ticks :: c == '`') && (rest != "" ==> rest[0] != '`')
    ensures Ticks(ticks + rest) == |ticks|
  {
    if ticks != "" {
      assert ticks[0] in ticks && forall c :: c in ticks[1..] ==> c in ticks;
      assert (ticks + rest)[1..] == ticks[1..] + rest;
      TicksOf(ticks[1..], rest);
    } else {
      assert ticks + rest == rest;
    }
  }

  /** The fence a tame block becomes: an opening marker, lines that do not close it, a closing marker. */
  lemma FenceParts(lines: seq<string>, j: Judge) returns (first: string, inner: seq<string>, last: string, n: nat)
    requires Plain(j) && Fenced(lines, j).Some? && Tame(lines)
    ensures Fenced(lines, j).value == [first] + (inner + [last])
    ensures n > 0 && IsFence(first) && FenceLength(first) == n && !IsQuote(first) && Closes(last, n) && !IsQuote(last)
    ensures forall l | l in inner :: !Closes(l, n)
    ensures OpenAfter(inner, n) == n && Fingerprint(inner, n) == Packed(Bodies(lines))
  {
    hide IsQuote, IsCode, Closes, IsFence, FenceLength, Body, BlockIndent;
    var lang := j.language(Bodies(lines));
    var indent := BlockIndent(lines).value;
    var bodies := DropBlankTail(Bodies(lines));
    var marker := MarkerFor(bodies);
    MarkerLines(indent, lang, marker);
    BodiesStayInside(lines, bodies);
    InsideFence(bodies, indent, |marker|);
    FenceAssembled(bodies, indent, marker, lang);
    DroppedTail(Bodies(lines));
    first, inner := IndentLine(marker + lang, indent), Reindent(bodies, indent);
    last, n := IndentLine(marker, indent), |marker|;
    forall l | l in inner ensures !Closes(l, n) {
      var k :| 0 <= k < |inner| && inner[k] == l;
      assert bodies[k] in bodies;
      ClosesIndented(bodies[k], indent, n);
    }
  }

  /** It is closed again at its end and has the block's content. */
  lemma FenceKeeps(lines: seq<string>, j: Judge)
    requires Plain(j) && Fenced(lines, j).Some? && Tame(lines) && forall l | l in lines :: IsQuote(l)
    ensures var f := Fenced(lines, j).value;
            OpenAfter(f, 0) == 0 && Fingerprint(f, 0) == Fingerprint(lines, 0)
  {
    hide *;
    var first, inner, last, n := FenceParts(lines, j);
    Wrapped(first, inner, last, n);
    QuotedRun(lines);
  }

  lemma BodiesStayInside(lines: seq<string>, bodies: seq<string>)
    requires Tame(lines) && bodies <= Bodies(lines)
    ensures forall b | b in bodies :: !Closes(b, |MarkerFor(bodies)|)
  {
    hide Body, IsFence;
    forall b | b in bodies ensures !Closes(b, |MarkerFor(bodies)|) {
      var k :| 0 <= k < |bodies| && bodies[k] == b;
      assert Bodies(lines)[k] == b && lines[k] in lines;
      assert !BareRun(b);
      if IsFence(b) { FenceHasTicks(b); }
    }
  }

  /** Lines between a line that opens a fence and one that closes it. */
  lemma Wrapped(first: string, inner: seq<string>, last: string, n: nat)
    requires n > 0 && IsFence(first) && FenceLength(first) == n && Closes(last, n) && OpenAfter(inner, n) == n
    ensures OpenAfter([first] + (inner + [last]), 0) == 0
    ensures Fingerprint([first] + (inner + [last]), 0) == Fingerprint(inner, n)
  {
    hide IsFence, FenceLength, Closes, Body;
    var f := [first] + (inner + [last]);
    MarksConcat(inner, [last], n);
    FingerprintConcat(inner, [last], n);
    OneLine(last, n);
    assert [last][1..] == [] && Fingerprint([last], n) == "";
    assert f[1..] == inner + [last];
    assert Fingerprint(inner, n) + "" == Fingerprint(inner, n);
  }

  lemma FenceAssembled(bodies: seq<string>, indent: string, marker: string, lang: string)
    requires |marker| > 0
    requires IsFence(IndentLine(marker + lang, indent)) && FenceLength(IndentLine(marker + lang, indent)) == |marker|
    requires Closes(IndentLine(marker, indent), |marker|)
    requires OpenAfter(Reindent(bodies, indent), |marker|) == |marker|
    ensures var f := Reindent([marker + lang] + bodies + [marker], indent);
            && f == [IndentLine(marker + lang, indent)] + (Reindent(bodies, indent) + [IndentLine(marker, indent)])
            && OpenAfter(f, 0) == 0 && Fingerprint(f, 0) == Fingerprint(Reindent(bodies, indent), |marker|)
  {
    hide *;
    ReindentParts(marker + lang, bodies, marker, indent);
    Wrapped(IndentLine(marker + lang, indent), Reindent(bodies, indent), IndentLine(marker, indent), |marker|);
  }

  lemma ReindentParts(first: string, bodies: seq<string>, last: string, indent: string)
    ensures Reindent([first] + bodies + [last], indent)
         == [IndentLine(first, indent)] + (Reindent(bodies, indent) + [IndentLine(last, indent)])
  {
    hide Reindent, IndentLine;
  }

  // ----- and exactly then -----

  /** Opened by its first line and closed by its last, and by no line between them. */
  predicate Stands(f: seq<string>) {
    && |f| >= 2 && IsFence(f[0]) && Closes(f[|f| - 1], FenceLength(f[0]))
    && forall k | 0 < k < |f| - 1 :: !Closes(f[k], FenceLength(f[0]))
  }

  /** A bare run is never dropped, it asks for four backticks, and it closes a fence of four. */
  lemma BareRunCloses(lines: seq<string>, j: Judge, i: nat)
    requires Plain(j) && Fenced(lines, j).Some? && i < |lines| && BareRun(Body(lines[i]))
    ensures var f := Fenced(lines, j).value;
            i + 2 < |f| && IsFence(f[0]) && FenceLength(f[0]) == 4 && Closes(f[i + 1], 4)
  {
    hide IsCode, Closes, IsFence, FenceLength, Body, BlockIndent, IsQuote, HasTicks;
    var lang := j.language(Bodies(lines));
    var indent := BlockIndent(lines).value;
    var bodies := DropBlankTail(Bodies(lines));
    var b := Body(lines[i]);
    BareRunTicks(b);
    assert bodies[i] == b && b in bodies;
    assert MarkerFor(bodies) == TICKS4;
    var f := ToFence(lines, lang);
    assert f == [TICKS4 + lang] + bodies + [TICKS4];
    assert f[i + 1] == b && f[0] == TICKS4 + lang;
    assert Fenced(lines, j).value == Reindent(f, indent);
    hide *;
    MarkerLines(indent, lang, TICKS4);
    ClosesIndented(b, indent, 4);
  }

  lemma BareRunTicks(b: string)
    requires BareRun(b)
    ensures !AllWhite(b) && HasTicks(b)
  {
    FenceHasTicks(b);
  }

  /** The fence made for a block stands exactly if no line of the block is a bare run. */
  lemma StandsExactlyIf(lines: seq<string>, j: Judge)
    requires Plain(j) && Fenced(lines, j).Some?
    ensures Stands(Fenced(lines, j).value) <==> Tame(lines)
  {
    hide IsFence, Closes, FenceLength, Fenced, BareRun, Body;
    if Tame(lines) {
      var first, inner, last, n := FenceParts(lines, j);
      var f := Fenced(lines, j).value;
      forall k | 0 < k < |f| - 1 ensures !Closes(f[k], n) {
        assert f[k] == inner[k - 1] && inner[k - 1] in inner;
      }
    } else {
      var l :| l in lines && BareRun(Body(l));
      var i :| 0 <= i < |lines| && lines[i] == l;
      BareRunCloses(lines, j, i);
    }
  }
}
