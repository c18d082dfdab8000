/**
 * fence-code-blocks.js: what happens outside the condition of FenceTool.
 *
 * A document is read after the conversion as it was meant to be exactly if no line of a converted block is a bare
 * run of backticks. The guard sees less than that: it finds the damage in one such document, EARLY, and nothing in
 * another, SILENT, whose later lines make up for what the broken fence took away.
 */
module FenceDamage {
  import opened Text
  import opened FenceLines
  import opened FenceBlocks
  import opened FenceTool

  // ----- what the conversion means to write -----

  /** A marker, lines inside, a marker. */
  function FenceMarks(n: nat): (r: seq<Mark>)
    ensures |r| == n
  {
    if n < 2 then seq(n, k => Marker) else [Marker] + (Insides(n - 2) + [Marker])
  }

  function Insides(n: nat): (r: seq<Mark>)
    ensures |r| == n
  {
    seq(n, k => Inside)
  }

  function RunMeant(run: seq<string>, open: nat, j: Judge): (r: seq<Mark>)
    ensures |r| == |RunOut(run, open, j)|
  {
    if Converts(run, open, j) then FenceMarks(|Fenced(run, j).value|) else Marks(run, open)
  }

  /** How each line of the converted document is meant to be read: converted blocks as fences, the rest as before. */
  function Meant(lines: seq<string>, open: nat, j: Judge): seq<Mark>
    decreases |lines|
  {
    if lines == [] then []
    else if !IsQuote(lines[0]) then [MarkOf(lines[0], open)] + Meant(lines[1..], Next(lines[0], open), j)
    else
      var n := RunLength(lines);
      RunMeant(lines[..n], open, j) + Meant(lines[n..], open, j)
  }

  predicate NoneCloses(inner: seq<string>, n: nat) {
    forall l | l in inner :: !Closes(l, n)
  }

  lemma {:induction false} AllInside(inner: seq<string>, n: nat)
    requires n > 0
    ensures Marks(inner, n) == Insides(|inner|) <==> NoneCloses(inner, n)
    ensures NoneCloses(inner, n) ==> OpenAfter(inner, n) == n
  {
    hide Closes;
    if inner != [] {
      var rest := inner[1..];
      assert inner == [inner[0]] + rest;
      assert Insides(|inner|) == [Inside] + Insides(|rest|);
      if !Closes(inner[0], n) {
        AllInside(rest, n);
        SamePieces([Inside], Marks(rest, n), [Inside], Insides(|rest|));
      } else {
        assert Marks(inner, n)[0] == Marker && inner[0] in inner;
      }
    }
  }

  lemma FenceRead(f: seq<string>)
    requires |f| >= 2 && IsFence(f[0]) && Closes(f[|f| - 1], FenceLength(f[0]))
    ensures Marks(f, 0) == FenceMarks(|f|) <==> Stands(f)
    ensures Stands(f) ==> OpenAfter(f, 0) == 0
  {
    hide *;
    var first, inner, last := f[0], f[1..|f| - 1], f[|f| - 1];
    FenceIs(f);
    FenceRest(first, inner, last);
    InnerLines(f);
    InnerRead(inner, last, FenceLength(first));
    SamePieces([Marker], Marks(inner + [last], FenceLength(first)), [Marker], Insides(|inner|) + [Marker]);
  }

  lemma FenceIs(f: seq<string>)
    requires |f| >= 2 && IsFence(f[0]) && Closes(f[|f| - 1], FenceLength(f[0]))
    ensures f == [f[0]] + (f[1..|f| - 1] + [f[|f| - 1]]) && FenceMarks(|f|) == [Marker] + (Insides(|f| - 2) + [Marker])
    ensures Stands(f) <==> forall k | 0 < k < |f| - 1 :: !Closes(f[k], FenceLength(f[0]))
  {
    hide IsFence, Closes, FenceLength, Insides;
  }

  lemma InnerRead(inner: seq<string>, last: string, n: nat)
    requires n > 0 && Marks(inner + [last], n) == Marks(inner, n) + Marks([last], OpenAfter(inner, n)) &&
              Marks([last], n) == [Marker]
    ensures Marks(inner + [last], n) == Insides(|inner|) + [Marker] <==> NoneCloses(inner, n)
    ensures NoneCloses(inner, n) ==> OpenAfter(inner, n) == n
  {
    hide *;
    AllInside(inner, n);
    SamePieces(Marks(inner, n), Marks([last], OpenAfter(inner, n)), Insides(|inner|), [Marker]);
  }

  lemma FenceRest(first: string, inner: seq<string>, last: string)
    requires IsFence(first) && Closes(last, FenceLength(first))
    ensures FenceLength(first) > 0
    ensures var n := FenceLength(first);
            var f := [first] + (inner + [last]);
            && Marks(f, 0) == [Marker] + Marks(inner + [last], n)
            && Marks(inner + [last], n) == Marks(inner, n) + Marks([last], OpenAfter(inner, n))
            && OpenAfter(f, 0) == OpenAfter([last], OpenAfter(inner, n))
            && Marks([last], n) == [Marker] && OpenAfter([last], n) == 0
  {
    var n := FenceLength(first);
    assert n > 0;
    hide IsFence, Closes, FenceLength;
    assert ([first] + (inner + [last]))[1..] == inner + [last];
    MarksConcat(inner, [last], n);
    OneLine(last, n);
  }

  lemma InnerLines(f: seq<string>)
    requires |f| >= 2
    ensures (forall k | 0 < k < |f| - 1 :: !Closes(f[k], FenceLength(f[0]))) <==>
              NoneCloses(f[1..|f| - 1], FenceLength(f[0]))
  {
    hide Closes, FenceLength;
    var inner := f[1..|f| - 1];
    forall k | 0 < k < |f| - 1 ensures f[k] in inner { assert f[k] == inner[k - 1]; }
    forall l | l in inner ensures exists k :: 0 < k < |f| - 1 && f[k] == l {
      var k :| 0 <= k < |inner| && inner[k] == l;
      assert f[k + 1] == l;
    }
  }

  lemma FenceEnds(lines: seq<string>, j: Judge)
    requires Plain(j) && Fenced(lines, j).Some?
    ensures var f := Fenced(lines, j).value;
            |f| >= 2 && IsFence(f[0]) && Closes(f[|f| - 1], FenceLength(f[0]))
  {
    hide IsCode, Closes, IsFence, FenceLength, Body, BlockIndent, IsQuote, HasTicks;
    var bodies := DropBlankTail(Bodies(lines));
    var lang, marker := j.language(Bodies(lines)), MarkerFor(bodies);
    MarkerLines(BlockIndent(lines).value, lang, marker);
    var f := ToFence(lines, lang);
    assert f == [marker + lang] + bodies + [marker];
    assert f[0] == marker + lang && f[|f| - 1] == marker;
  }

  /** One run of quote lines is read as meant exactly if it is tame or stays as it is. */
  lemma RunRead(run: seq<string>, open: nat, j: Judge)
    requires Plain(j) && forall l | l in run :: IsQuote(l)
    ensures Marks(RunOut(run, open, j), open) == RunMeant(run, open, j) <==> (Converts(run, open, j) ==> Tame(run))
    ensures (Converts(run, open, j) ==> Tame(run)) ==> OpenAfter(RunOut(run, open, j), open) == open
  {
    hide Fenced, IsQuote, Plain, Tame, Stands, Marks, OpenAfter, FenceMarks;
    if Converts(run, open, j) {
      FenceEnds(run, j);
      FenceRead(Fenced(run, j).value);
      StandsExactlyIf(run, j);
    } else {
      QuotedKeeps(run, open);
    }
  }

  lemma SamePieces<T>(a: seq<T>, b: seq<T>, c: seq<T>, d: seq<T>)
    requires |a| == |c|
    ensures a + b == c + d <==> a == c && b == d
  {
    if a + b == c + d {
      assert a == (a + b)[..|a|] && c == (c + d)[..|a|] && b == (a + b)[|a|..] && d == (c + d)[|a|..];
    }
  }

  /** For every document: the result is read as it was meant exactly if the document is tame. */
  lemma {:induction false} ReadAsMeant(lines: seq<string>, open: nat, j: Judge)
    requires Plain(j)
    ensures Marks(Converted(lines, open, j), open) == Meant(lines, open, j) <==> TameText(lines, open, j)
    decreases |lines|
  {
    hide IsQuote, Next, MarkOf, Plain, RunOut, RunMeant, Tame, Converts, Converted;
    if lines == [] {
      NothingConverted(open, j);
    } else if !IsQuote(lines[0]) {
      var rest := Converted(lines[1..], Next(lines[0], open), j);
      PlainStep(lines, 0, open, j);
      ReadAsMeant(lines[1..], Next(lines[0], open), j);
      assert ([lines[0]] + rest)[1..] == rest;
      SamePieces([MarkOf(lines[0], open)], Marks(rest, Next(lines[0], open)),
                 [MarkOf(lines[0], open)], Meant(lines[1..], Next(lines[0], open), j));
    } else {
      var n := RunLength(lines);
      var run := lines[..n];
      var rest := Converted(lines[n..], open, j);
      RunStep(lines, 0, open, j);
      RunRead(run, open, j);
      ReadAsMeant(lines[n..], open, j);
      MarksConcat(RunOut(run, open, j), rest, open);
      SamePieces(Marks(RunOut(run, open, j), open), Marks(rest, OpenAfter(RunOut(run, open, j), open)),
                 RunMeant(run, open, j), Meant(lines[n..], open, j));
    }
  }

  /** The same for texts. */
  lemma ResultReadAsMeant(text: string, j: Judge)
    requires Plain(j)
    ensures Marks(Split(ResultText(text, j), '\n'), 0) == Meant(Split(text, '\n'), 0, j) <==>
              TameText(Split(text, '\n'), 0, j)
  {
    hide *;
    ResultLines(text, j);
    ReadAsMeant(Split(text, '\n'), 0, j);
  }

  // ----- a document whose damage the guard finds -----

  const CODE := "a;"
  const EARLY := ["> " + CODE, "> " + TICKS4]

  lemma {:induction false} NoWhite(s: string)
    requires forall c | c in s :: !IsWhite(c)
    ensures NoSpace(s) == s
  {
    if s != "" {
      assert s[0] in s;
      NoWhite(s[1..]);
    }
  }

  lemma SkipNothing(s: string)
    requires s != "" && !IsWhite(s[0])
    ensures Indented(s) == 0 && SkipWhite(s) == s && SkipWhite(" " + s) == s
  {
    assert (" " + s)[1..] == s;
  }

  /** A plain text behind a quote prefix. */
  lemma QuotedText(s: string)
    requires s != "" && !IsWhite(s[0]) && '\\' !in s && s[0] != '>' && s[0] != 'S' && s[0] != '\U{7FFB}'
    ensures var l := "> " + s;
            IsQuote(l) && !IsMeta(l) && !IsNested(l) && StripQuote(l) == s && Body(l) == s && Indent(l) == ""
  {
    var l := "> " + s;
    assert l == ">" + (" " + s) && l[1..] == " " + s;
    SkipNothing(l);
    SkipNothing(s);
    assert (" " + s)[1..] == s;
    NoEscapes(s);
    assert "Source:"[0] == 'S' && "\U{7FFB}\U{8B6F}"[0] == '\U{7FFB}';
  }

  lemma EarlyBodies()
    ensures (forall l | l in EARLY :: IsQuote(l) && !IsMeta(l) && !IsNested(l) && Indent(l) == "")
    ensures Bodies(EARLY) == [CODE, TICKS4] && Body("> " + TICKS4) == TICKS4
    ensures forall l | l in EARLY :: !AllWhite(StripQuote(l))
  {
    hide IsQuote, IsMeta, IsNested, Body, StripQuote, Indent;
    QuotedText(CODE);
    QuotedText(TICKS4);
    assert CODE[0] in CODE && TICKS4[0] in TICKS4;
  }

  lemma {:induction false} AllQuotes(lines: seq<string>)
    requires forall l | l in lines :: IsQuote(l)
    ensures RunLength(lines) == |lines|
  {
    hide IsQuote;
    RunOf(lines, []);
    assert lines + [] == lines;
  }

  lemma EarlyCode(j: Judge)
    requires j.signal(CODE)
    ensures IsCode(EARLY, j)
  {
    hide IsNested, Body;
    EarlyBodies();
    assert CODE in [CODE, TICKS4] && CODE[0] in CODE;
    assert CODE in NotBlank(Bodies(EARLY));
  }

  lemma {:induction false} NoIndents(lines: seq<string>)
    requires forall l | l in lines :: Indent(l) == ""
    ensures forall i | i in Indents(lines) :: i == ""
  {
    hide Indent, StripQuote;
    if lines != [] {
      assert lines[0] in lines && forall l :: l in lines[1..] ==> l in lines;
      NoIndents(lines[1..]);
    }
  }

  lemma EarlyIndent()
    ensures BlockIndent(EARLY) == Some("")
  {
    hide Indents;
    EarlyBodies();
    NoIndents(EARLY);
    if Indents(EARLY) != [] { assert Indents(EARLY)[0] in Indents(EARLY); }
  }

  lemma NotReindented(lines: seq<string>)
    ensures Reindent(lines, "") == lines
  {
    forall k | 0 <= k < |lines| ensures Reindent(lines, "")[k] == lines[k] { assert "" + lines[k] == lines[k]; }
  }

  function EarlyOut(): seq<string> {
    [TICKS4 + "nginx"] + ([CODE, TICKS4] + [TICKS4])
  }

  lemma EarlyFence(j: Judge)
    requires j.signal(CODE) && j.language([CODE, TICKS4]) == "nginx"
    ensures Fenced(EARLY, j) == Some(EarlyOut())
  {
    hide IsCode, BlockIndent, Body, Bodies;
    EarlyBodies();
    EarlyCode(j);
    EarlyIndent();
    var bodies := [CODE, TICKS4];
    assert TICKS4[0] in TICKS4 && !AllWhite(TICKS4);
    assert DropBlankTail(bodies) == bodies;
    assert TICKS3 <= TICKS4 && HasTicks(TICKS4) && TICKS4 in bodies;
    assert ToFence(EARLY, "nginx") == [TICKS4 + "nginx"] + bodies + [TICKS4];
    NotReindented(EarlyOut());
    assert [TICKS4 + "nginx"] + bodies + [TICKS4] == EarlyOut();
  }

  lemma NotIndented(l: string)
    ensures IndentLine(l, "") == l
  {
    assert "" + l == l;
  }

  lemma CodeIsNoFence()
    ensures !IsFence(CODE) && !Closes(CODE, 4)
  {
    SkipNothing(CODE);
    assert CODE[0] != '`';
  }

  lemma EarlyMarkers()
    ensures IsFence(TICKS4 + "nginx") && FenceLength(TICKS4 + "nginx") == 4
    ensures Closes(TICKS4, 4) && IsFence(TICKS4) && FenceLength(TICKS4) == 4
    ensures !IsFence(CODE) && !Closes(CODE, 4)
  {
    hide IsFence, FenceLength, Closes, IndentLine, IsQuote;
    MarkerLines("", "nginx", TICKS4);
    MarkerLines("", "", TICKS4);
    assert TICKS4 + "" == TICKS4;
    NotIndented(TICKS4 + "nginx");
    NotIndented(TICKS4);
    CodeIsNoFence();
  }

  lemma EarlyScan()
    ensures OpenAfter(EarlyOut(), 0) == 4 && Fingerprint(EarlyOut(), 0) == CODE
  {
    hide IsFence, Closes, FenceLength, Body, NoSpace;
    EarlyMarkers();
    NoWhite(CODE);
    Wrapped(TICKS4 + "nginx", [CODE], TICKS4, 4) by { OneLine(CODE, 4); }
    var f := [TICKS4 + "nginx"] + ([CODE] + [TICKS4]);
    assert EarlyOut() == f + [TICKS4];
    MarksConcat(f, [TICKS4], 0);
    FingerprintConcat(f, [TICKS4], 0);
    OneLine(TICKS4, 0);
    assert [TICKS4][1..] == [] && [CODE][1..] == [];
    assert Fingerprint([TICKS4], 0) == "" && Fingerprint([CODE], 4) == CODE + "";
    assert CODE + "" == CODE;
  }

  lemma EarlyContent()
    ensures OpenAfter(EARLY, 0) == 0 && Fingerprint(EARLY, 0) == CODE + TICKS4 && |Fingerprint(EARLY, 0)| > |CODE|
  {
    hide IsQuote, Body, NoSpace, Bodies, OpenAfter, Fingerprint;
    EarlyBodies();
    QuotedKeeps(EARLY, 0);
    QuotedRun(EARLY);
    NoWhite(CODE);
    NoWhite(TICKS4);
    assert [CODE, TICKS4][1..] == [TICKS4] && [TICKS4][1..] == [];
    assert TICKS4 + "" == TICKS4;
    assert Packed([TICKS4]) == TICKS4;
    assert Packed([CODE, TICKS4]) == CODE + TICKS4;
  }

  /** The two lines that become a broken fence. */
  lemma EarlyRun(j: Judge)
    requires j.signal(CODE) && j.language([CODE, TICKS4]) == "nginx"
    ensures (forall l | l in EARLY :: IsQuote(l)) && Converts(EARLY, 0, j) && RunOut(EARLY, 0, j) == EarlyOut() &&
              !Tame(EARLY)
  {
    hide IsQuote, IsMeta, Fenced, EarlyOut, IsFence, FenceLength, Closes, Body;
    EarlyBodies();
    EarlyFence(j);
    EarlyMarkers();
    assert EARLY[1] in EARLY && BareRun(Body(EARLY[1]));
  }

  lemma EarlyConverts(j: Judge)
    requires j.signal(CODE) && j.language([CODE, TICKS4]) == "nginx"
    ensures Converted(EARLY, 0, j) == EarlyOut() && !TameText(EARLY, 0, j)
  {
    EarlyRun(j);
    hide IsQuote, Converts, RunOut, EarlyOut, Tame, Converted;
    AllQuotes(EARLY);
    RunStep(EARLY, 0, 0, j);
    assert EARLY[..2] == EARLY && EARLY[2..] == [] && EARLY[0] in EARLY;
    NothingConverted(0, j);
    assert EarlyOut() + [] == EarlyOut();
  }

  /** A bare run in a code block: the fence made for it ends there, and the guard finds both kinds of damage. */
  lemma EarlyClose(j: Judge)
    requires j.signal(CODE) && j.language([CODE, TICKS4]) == "nginx"
    ensures !TameText(EARLY, 0, j)
    ensures OpenAfter(EARLY, 0) == 0 && OpenAfter(Converted(EARLY, 0, j), 0) == 4
    ensures Fingerprint(EARLY, 0) != Fingerprint(Converted(EARLY, 0, j), 0)
  {
    hide *;
    EarlyConverts(j);
    EarlyScan();
    EarlyContent();
  }

  // ----- a document whose damage it does not find -----

  const SHORT := "``` `"
  const LATER := ["", SHORT, TICKS4]
  const SILENT := EARLY + LATER

  lemma ShortFence()
    ensures IsFence(SHORT) && FenceLength(SHORT) == 3 && !Closes(SHORT, 4)
  {
    SkipNothing(SHORT);
    TicksOf(TICKS3, " `");
    assert TICKS3 + " `" == SHORT && SHORT[3..] == " `";
  }

  lemma ShortContent()
    ensures NoSpace(SHORT) == TICKS4
  {
    assert NoSpace(" `") == "`" by { assert " `"[1..] == "`" && "`"[1..] == ""; }
    NoSpaceConcat(TICKS3, " `");
    NoWhite(TICKS3);
    hide NoSpace;
    assert TICKS3 + " `" == SHORT && TICKS3 + "`" == TICKS4;
  }

  lemma EmptyLine(open: nat)
    ensures !IsQuote("") && !IsFence("") && Next("", open) == open
    ensures Piece("", MarkOf("", open)) == ""
  {
  }

  lemma ThreeLines(a: string, b: string, c: string, open: nat)
    ensures var o1 := Next(a, open);
            var o2 := Next(b, o1);
            && OpenAfter([a, b, c], open) == Next(c, o2)
            && Fingerprint([a, b, c], open) ==
                 Piece(a, MarkOf(a, open)) + (Piece(b, MarkOf(b, o1)) + Piece(c, MarkOf(c, o2)))
  {
    hide Next, MarkOf, Piece;
    assert [a, b, c][1..] == [b, c] && [b, c][1..] == [c] && [c][1..] == [];
    var o1 := Next(a, open);
    var o2 := Next(b, o1);
    OneLine(c, o2);
    assert OpenAfter([b, c], o1) == OpenAfter([c], o2) && OpenAfter([a, b, c], open) == OpenAfter([b, c], o1);
    assert Fingerprint([c], o2) == Piece(c, MarkOf(c, o2)) + "";
    assert Fingerprint([b, c], o1) == Piece(b, MarkOf(b, o1)) + Fingerprint([c], o2);
    assert Piece(c, MarkOf(c, o2)) + "" == Piece(c, MarkOf(c, o2));
  }

  /** The later lines, read from outside as they stand, and from within a fence of four. */
  lemma LaterScan()
    ensures OpenAfter(LATER, 0) == 0 && Fingerprint(LATER, 0) == ""
    ensures OpenAfter(LATER, 4) == 0 && Fingerprint(LATER, 4) == TICKS4
  {
    hide IsFence, Closes, FenceLength, Body, NoSpace, IsQuote, OpenAfter, Fingerprint;
    EmptyLine(0);
    EmptyLine(4);
    ShortFence();
    ShortContent();
    EarlyMarkers();
    ClosesThree();
    ThreeLines("", SHORT, TICKS4, 0);
    ThreeLines("", SHORT, TICKS4, 4);
    assert "" + ("" + "") == "" && "" + (TICKS4 + "") == TICKS4;
  }

  lemma QuoteFree()
    ensures forall l | l in LATER :: !IsQuote(l)
  {
    EmptyLine(0);
    SkipNothing(SHORT);
    SkipNothing(TICKS4);
  }

  lemma ClosesThree()
    ensures Closes(TICKS4, 3)
  {
    EarlyMarkers();
  }

  lemma SilentConverts(j: Judge)
    requires j.signal(CODE) && j.language([CODE, TICKS4]) == "nginx"
    ensures Converted(SILENT, 0, j) == EarlyOut() + LATER && !TameText(SILENT, 0, j)
  {
    EarlyRun(j);
    QuoteFree();
    hide IsQuote, Converts, RunOut, EarlyOut, Tame, Converted;
    RunOf(EARLY, LATER);
    RunStep(SILENT, 0, 0, j);
    assert SILENT[..2] == EARLY && SILENT[2..] == LATER && SILENT[0] == EARLY[0];
    NothingToConvert(LATER, 0, j);
  }

  lemma {:induction false} NothingToConvert(lines: seq<string>, open: nat, j: Judge)
    requires forall l | l in lines :: !IsQuote(l)
    ensures Converted(lines, open, j) == lines
  {
    hide IsQuote, Next;
    if lines != [] {
      assert lines[0] in lines && forall l :: l in lines[1..] ==> l in lines;
      NothingToConvert(lines[1..], Next(lines[0], open), j);
    }
  }

  /** The fence ends early and a later line is read as code, but content and balance come out the same. */
  lemma SilentDamage(j: Judge)
    requires Plain(j) && j.signal(CODE) && j.language([CODE, TICKS4]) == "nginx"
    ensures Marks(Converted(SILENT, 0, j), 0) != Meant(SILENT, 0, j)
    ensures OpenAfter(Converted(SILENT, 0, j), 0) == OpenAfter(SILENT, 0) == 0
    ensures Fingerprint(Converted(SILENT, 0, j), 0) == Fingerprint(SILENT, 0)
  {
    hide Plain, Converted, Marks, Meant, TameText, OpenAfter, Fingerprint, EarlyOut;
    SilentConverts(j);
    ReadAsMeant(SILENT, 0, j);
    EarlyScan();
    EarlyContent();
    LaterScan();
    MarksConcat(EARLY, LATER, 0);
    FingerprintConcat(EARLY, LATER, 0);
    MarksConcat(EarlyOut(), LATER, 0);
    FingerprintConcat(EarlyOut(), LATER, 0);
    assert CODE + TICKS4 + "" == CODE + TICKS4;
  }
}
