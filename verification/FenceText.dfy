/** fence-code-blocks.js: a converted block, line by line and character by character. */
module FenceText {
  import opened Text
  import opened FenceLines
  import opened FenceBlocks

  /** What markdown lets escape. */
  predicate Escapable(c: char) {
    c in {'!', '"', '#', '$', '%', '&', '\'', '(', ')', '*', '+', ',', '-', '.', '/', ':', ';', '<', '=', '>', '?', '@',
      '[', '\\', ']', '^', '_', '`', '{', '|', '}', '~'}
  }

  /** Read from the left, a backslash before a punctuation character is dropped and everything else stays. */
  predicate Says(text: string, meaning: string)
    decreases |text|
  {
    if text == "" then meaning == ""
    else if |text| > 1 && text[0] == '\\' && Escapable(text[1]) then
      meaning != "" && meaning[0] == text[1] && Says(text[2..], meaning[1..])
    else meaning != "" && meaning[0] == text[0] && Says(text[1..], meaning[1..])
  }

  /** A quote line, taken apart: white space, the quote sign, at most one white-space character, and its text. */
  datatype Quoted = Quoted(indent: string, gap: string, text: string, meaning: string)

  predicate Wrote(l: string, q: Quoted) {
    && l == q.indent + (">" + (q.gap + q.text)) && AllWhite(q.indent) && Says(q.text, q.meaning)
    && (if q.gap == "" then q.text == "" || !IsWhite(q.text[0]) else |q.gap| == 1 && IsWhite(q.gap[0]))
  }

  predicate AllWrote(lines: seq<string>, qs: seq<Quoted>) {
    |qs| == |lines| && forall k | 0 <= k < |lines| :: Wrote(lines[k], qs[k])
  }

  function Meanings(qs: seq<Quoted>): (r: seq<string>)
    ensures |r| == |qs| && forall k | 0 <= k < |r| :: r[k] == qs[k].meaning
  {
    seq(|qs|, k requires 0 <= k < |qs| => qs[k].meaning)
  }

  // ----- one line -----

  lemma EscapableIs(c: char)
    ensures Escapable(c) <==> IsPunct(c)
  {
  }

  lemma {:induction false} SaysIs(text: string, meaning: string)
    ensures Says(text, meaning) <==> meaning == Unescape(text)
    decreases |text|
  {
    if text != "" {
      EscapableIs(text[if |text| > 1 then 1 else 0]);
      if meaning != "" {
        assert meaning == [meaning[0]] + meaning[1..];
        if |text| > 1 { SaysIs(text[2..], meaning[1..]); }
        SaysIs(text[1..], meaning[1..]);
      }
    }
  }

  lemma {:induction false} PlainSaysItself(text: string)
    requires '\\' !in text
    ensures Says(text, text)
  {
    hide Escapable;
    if text != "" { PlainSaysItself(text[1..]); }
  }

  lemma WroteIs(l: string, q: Quoted)
    requires Wrote(l, q)
    ensures IsQuote(l) && StripQuote(l) == q.text && Indent(l) == q.indent && Body(l) == q.meaning
    ensures SkipWhite(l)[1..] == q.gap + q.text && AllWhite(q.gap)
  {
    hide Says, Unescape;
    var rest := ">" + (q.gap + q.text);
    IndentedConcat(q.indent, rest);
    assert Indented(rest) == 0 && SkipWhite(rest) == rest && rest[1..] == q.gap + q.text;
    assert q.gap != "" ==> (q.gap + q.text)[1..] == q.text && forall c :: c in q.gap ==> c == q.gap[0];
    assert q.gap == "" ==> q.gap + q.text == q.text;
    SaysIs(q.text, q.meaning);
  }

  /** Every quote line can be taken apart, in one way. */
  lemma ReadLine(l: string) returns (q: Quoted)
    requires IsQuote(l)
    ensures Wrote(l, q)
    ensures forall x | Wrote(l, x) :: x == q
  {
    hide Unescape, Says, AllWhite, Indented;
    var n := Indented(l);
    IndentIsWhite(l);
    assert SkipWhite(l) == l[n..] && l[n] == '>';
    var rest := l[n + 1..];
    var gap := if rest != "" && IsWhite(rest[0]) then 1 else 0;
    q := Quoted(l[..n], rest[..gap], rest[gap..], Unescape(rest[gap..]));
    SaysIs(q.text, q.meaning);
    assert l == l[..n] + (">" + (rest[..gap] + rest[gap..]));
    forall x | Wrote(l, x) ensures x == q {
      WroteIs(l, x);
      WroteIs(l, q);
    }
  }

  // ----- blank lines -----

  lemma {:induction false} SaysBlank(text: string, meaning: string)
    requires Says(text, meaning)
    ensures AllWhite(text) <==> AllWhite(meaning)
    decreases |text|
  {
    hide IsWhite;
    if text != "" {
      var n := if |text| > 1 && text[0] == '\\' && Escapable(text[1]) then 2 else 1;
      SaysBlank(text[n..], meaning[1..]);
      assert text == text[..n] + text[n..] && meaning == [meaning[0]] + meaning[1..];
      assert AllWhite(text) <==> AllWhite(text[..n]) && AllWhite(text[n..]);
      assert AllWhite(meaning) <==> AllWhite([meaning[0]]) && AllWhite(meaning[1..]);
      if n == 2 { EscapeIsBlack(text[1]); assert text[..2] == ['\\', text[1]] && meaning[0] == text[1]; }
      else { assert text[..1] == [meaning[0]]; }
    }
  }

  lemma EscapeIsBlack(c: char)
    requires Escapable(c)
    ensures !AllWhite(['\\', c]) && !AllWhite([c])
  {
    var two, one := ['\\', c], [c];
    assert two[0] == '\\' && two[0] in two && !IsWhite('\\') && one[0] == c && one[0] in one;
  }

  lemma {:induction false} IndentsAre(lines: seq<string>, qs: seq<Quoted>)
    requires AllWrote(lines, qs)
    ensures forall i :: i in Indents(lines) <==>
              exists k :: 0 <= k < |qs| && !AllWhite(qs[k].meaning) && qs[k].indent == i
  {
    hide Wrote, Says, AllWhite, Indent, StripQuote;
    if lines != [] {
      assert Wrote(lines[0], qs[0]);
      WroteIs(lines[0], qs[0]);
      WroteBlank(lines[0], qs[0]);
      assert AllWrote(lines[1..], qs[1..]);
      IndentsAre(lines[1..], qs[1..]);
      assert qs == [qs[0]] + qs[1..];
      assert forall k :: 0 <= k < |qs[1..]| ==> qs[1..][k] == qs[k + 1];
      assert forall k :: 0 < k < |qs| ==> qs[1..][k - 1] == qs[k];
    }
  }

  lemma WroteBlank(l: string, q: Quoted)
    requires Wrote(l, q)
    ensures AllWhite(q.text) <==> AllWhite(q.meaning)
  {
    SaysBlank(q.text, q.meaning);
  }

  lemma BodiesAre(lines: seq<string>, qs: seq<Quoted>)
    requires AllWrote(lines, qs)
    ensures Bodies(lines) == Meanings(qs)
  {
    hide Wrote;
    forall k | 0 <= k < |lines| ensures Bodies(lines)[k] == qs[k].meaning {
      assert Wrote(lines[k], qs[k]);
      WroteIs(lines[k], qs[k]);
    }
  }

  // ----- the fence -----

  /** The lines up to the last one with content. */
  predicate Trimmed(qs: seq<Quoted>, n: nat) {
    && n <= |qs| && (forall k | n <= k < |qs| :: AllWhite(qs[k].meaning))
    && (n > 0 ==> !AllWhite(qs[n - 1].meaning))
  }

  /** Four backticks if some line up to n holds three, three otherwise. */
  function Marker(qs: seq<Quoted>, n: nat): (r: string)
    requires n <= |qs|
    ensures r == "```" || r == "````"
  {
    if exists k | 0 <= k < n :: Contains(qs[k].meaning, "```") then "````" else "```"
  }

  /** The fence, written out. */
  predicate IsFenceOf(f: seq<string>, qs: seq<Quoted>, n: nat, indent: string, lang: string)
    requires n <= |qs|
  {
    && |f| == n + 2
    && f[0] == indent + (Marker(qs, n) + lang) && f[n + 1] == indent + Marker(qs, n)
    && forall k | 0 <= k < n :: f[k + 1] == if AllWhite(qs[k].meaning) then qs[k].meaning else indent + qs[k].meaning
  }

  /** The lines with content all stand behind this indent. */
  predicate OneIndent(qs: seq<Quoted>, indent: string) {
    forall k | 0 <= k < |qs| && !AllWhite(qs[k].meaning) :: qs[k].indent == indent
  }

  lemma {:induction false} TicksAre(b: string)
    ensures HasTicks(b) <==> Contains(b, "```")
  {
    hide IsWhite;
    if b == "" {
      assert !Contains(b, "```");
    } else {
      TicksAre(b[1..]);
      if Contains(b, "```") {
        var i :| 0 <= i <= |b| && Occurs(b, "```", i);
        if i > 0 {
          assert b[1..][i - 1..i - 1 + 3] == b[i..i + 3];
          assert Occurs(b[1..], "```", i - 1);
        }
      }
      if Contains(b[1..], "```") {
        var i :| 0 <= i <= |b[1..]| && Occurs(b[1..], "```", i);
        assert b[1..][i..i + 3] == b[i + 1..i + 1 + 3];
        assert Occurs(b, "```", i + 1);
      }
      if TICKS3 <= b { assert Occurs(b, "```", 0); }
    }
  }

  lemma MarkerIs(qs: seq<Quoted>, n: nat)
    requires n <= |qs|
    ensures MarkerFor(Meanings(qs)[..n]) == Marker(qs, n)
  {
    var bodies := Meanings(qs)[..n];
    forall b ensures HasTicks(b) <==> Contains(b, "```") { TicksAre(b); }
    hide HasTicks, Contains;
    assert forall k :: 0 <= k < n ==> bodies[k] == qs[k].meaning && bodies[k] in bodies;
    if b :| b in bodies && HasTicks(b) {
      var k :| 0 <= k < |bodies| && bodies[k] == b;
      assert Contains(qs[k].meaning, "```");
    }
  }

  lemma {:induction false} TailIs(bodies: seq<string>)
    ensures DropBlankTail(bodies) != [] ==> !AllWhite(DropBlankTail(bodies)[|DropBlankTail(bodies)| - 1])
  {
    if bodies != [] && AllWhite(bodies[|bodies| - 1]) { TailIs(bodies[..|bodies| - 1]); }
  }

  /** Another quote sign behind white space. */
  predicate Nests(q: Quoted) {
    exists n | 0 <= n < |q.text| :: q.text[n] == '>' && AllWhite(q.text[..n])
  }

  /** The meanings of the lines with content. */
  function Said(qs: seq<Quoted>): set<string> {
    set q | q in qs && !AllWhite(q.meaning) :: q.meaning
  }

  /** Something is quoted, and no line ends as prose does unless some line shows a sign of code. */
  predicate LooksLikeCode(qs: seq<Quoted>, j: Judge) {
    var said := Said(qs);
    && said != {}
    && ((exists m | m in said :: j.signal(m))
        || ((!exists q | q in qs :: Nests(q)) && forall m | m in said :: !j.prose(m)))
  }

  lemma {:induction false} Behind(s: string)
    ensures ">" <= SkipWhite(s) <==> exists n | 0 <= n < |s| :: s[n] == '>' && AllWhite(s[..n])
  {
    if n :| 0 <= n < |s| && s[n] == '>' && AllWhite(s[..n]) {
      assert s == s[..n] + s[n..];
      IndentedConcat(s[..n], s[n..]);
    }
    if ">" <= SkipWhite(s) {
      IndentIsWhite(s);
      assert s[Indented(s)] == '>';
    }
  }

  lemma NestsIs(l: string, q: Quoted)
    requires Wrote(l, q)
    ensures IsNested(l) <==> Nests(q)
  {
    hide Wrote, AllWhite, Indented;
    WroteIs(l, q);
    IndentedConcat(q.gap, q.text);
    Behind(q.text);
  }

  lemma NestingIs(lines: seq<string>, qs: seq<Quoted>)
    requires AllWrote(lines, qs)
    ensures (exists l | l in lines :: IsNested(l)) <==> exists q | q in qs :: Nests(q)
  {
    hide Wrote, IsNested, Nests;
    forall k | 0 <= k < |lines| ensures IsNested(lines[k]) <==> Nests(qs[k]) {
      assert Wrote(lines[k], qs[k]);
      NestsIs(lines[k], qs[k]);
    }
    if l :| l in lines && IsNested(l) {
      var k :| 0 <= k < |lines| && lines[k] == l;
      assert Nests(qs[k]) && qs[k] in qs;
    }
    if q :| q in qs && Nests(q) {
      var k :| 0 <= k < |qs| && qs[k] == q;
      assert IsNested(lines[k]) && lines[k] in lines;
    }
  }

  lemma SaidIs(qs: seq<Quoted>, m: string)
    ensures m in NotBlank(Meanings(qs)) <==> m in Said(qs)
  {
    hide AllWhite;
    var ms := Meanings(qs);
    if m in ms {
      var k :| 0 <= k < |ms| && ms[k] == m;
      assert qs[k] in qs;
    }
    if q :| q in qs && q.meaning == m {
      var k :| 0 <= k < |qs| && qs[k] == q;
      assert ms[k] == m;
    }
  }

  lemma CodeIs(lines: seq<string>, qs: seq<Quoted>, j: Judge)
    requires AllWrote(lines, qs)
    ensures IsCode(lines, j) <==> LooksLikeCode(qs, j)
  {
    hide AllWrote, AllWhite, IsNested, Nests, Bodies, NotBlank, Meanings, Said;
    BodiesAre(lines, qs);
    NestingIs(lines, qs);
    var bodies := NotBlank(Meanings(qs));
    forall m ensures m in bodies <==> m in Said(qs) { SaidIs(qs, m); }
    if bodies != [] { assert bodies[0] in bodies; }
    if m :| m in Said(qs) { assert m in bodies; }
  }

  /** A block becomes a fence exactly if it looks like code and its lines with content stand behind one indent. */
  lemma ConvertsExactlyIf(lines: seq<string>, qs: seq<Quoted>, j: Judge)
    requires AllWrote(lines, qs)
    ensures Fenced(lines, j).Some? <==> LooksLikeCode(qs, j) && exists i :: OneIndent(qs, i)
  {
    hide Wrote, IsCode, BlockIndent, LooksLikeCode, ToFence, Reindent;
    CodeIs(lines, qs, j);
    IndentIsOne(lines, qs);
  }

  /**
   * Every line of a converted block stands in the fence as it was meant: behind the one indent of the lines with
   * content, with its own indentation behind the quote sign, blank lines as they are, blank lines at the end dropped.
   */
  lemma ConvertedLines(lines: seq<string>, qs: seq<Quoted>, j: Judge) returns (n: nat, indent: string)
    requires AllWrote(lines, qs) && Fenced(lines, j).Some?
    ensures Trimmed(qs, n) && OneIndent(qs, indent)
    ensures IsFenceOf(Fenced(lines, j).value, qs, n, indent, j.language(Meanings(qs)))
  {
    hide AllWrote, OneIndent, Marker, AllWhite, Bodies, Trimmed, BlockIndent, Fenced, IsFenceOf, DropBlankTail;
    BodiesAre(lines, qs);
    IndentIsOne(lines, qs);
    n := |DropBlankTail(Meanings(qs))|;
    TrimmedIs(qs, n);
    MarkerIs(qs, n);
    FencedIs(lines, Meanings(qs), n, Marker(qs, n), j);
    indent := BlockIndent(lines).value;
    FenceWritten(qs, n, indent, j.language(Meanings(qs)));
  }

  lemma FenceWritten(qs: seq<Quoted>, n: nat, indent: string, lang: string)
    requires n <= |qs|
    ensures IsFenceOf(Reindent([Marker(qs, n) + lang] + Meanings(qs)[..n] + [Marker(qs, n)], indent), qs, n,
              indent, lang)
  {
    hide Marker, AllWhite, Reindent;
    FenceIs(Meanings(qs), n, Marker(qs, n), lang, indent);
  }

  lemma TrimmedIs(qs: seq<Quoted>, n: nat)
    requires n == |DropBlankTail(Meanings(qs))|
    ensures Trimmed(qs, n)
  {
    hide AllWhite;
    TailIs(Meanings(qs));
  }

  lemma FencedIs(lines: seq<string>, bodies: seq<string>, n: nat, marker: string, j: Judge)
    requires Bodies(lines) == bodies && n == |DropBlankTail(bodies)| && MarkerFor(bodies[..n]) == marker
    requires Fenced(lines, j).Some?
    ensures BlockIndent(lines).Some?
    ensures Fenced(lines, j).value ==
              Reindent([marker + j.language(bodies)] + bodies[..n] + [marker], BlockIndent(lines).value)
  {
    hide IsCode, Bodies, MarkerFor, BlockIndent, Reindent, AllWhite;
  }

  lemma IndentIsOne(lines: seq<string>, qs: seq<Quoted>)
    requires AllWrote(lines, qs)
    ensures BlockIndent(lines).Some? <==> exists i :: OneIndent(qs, i)
    ensures BlockIndent(lines).Some? ==> OneIndent(qs, BlockIndent(lines).value)
  {
    hide AllWrote, Indents, AllWhite, OneIndent;
    IndentsAre(lines, qs);
    var indents := Indents(lines);
    forall i ensures OneIndent(qs, i) <==> forall x | x in indents :: x == i {
      OneIndentIs(indents, qs, i);
    }
    if indents == [] {
      assert OneIndent(qs, "");
    } else {
      assert indents[0] in indents;
      assert OneIndent(qs, indents[0]) <==> BlockIndent(lines).Some?;
      forall i | OneIndent(qs, i) ensures i == indents[0] { assert indents[0] in indents; }
    }
  }

  lemma OneIndentIs(indents: seq<string>, qs: seq<Quoted>, i: string)
    requires forall x :: x in indents <==> exists k :: 0 <= k < |qs| && !AllWhite(qs[k].meaning) && qs[k].indent == x
    ensures OneIndent(qs, i) <==> forall x | x in indents :: x == i
  {
    hide AllWhite;
    if forall x | x in indents :: x == i {
      forall k | 0 <= k < |qs| && !AllWhite(qs[k].meaning) ensures qs[k].indent == i {
        assert qs[k].indent in indents;
      }
    }
  }

  lemma FenceIs(bodies: seq<string>, n: nat, marker: string, lang: string, indent: string)
    requires n <= |bodies| && (marker == "```" || marker == "````")
    ensures var f := Reindent([marker + lang] + bodies[..n] + [marker], indent);
            && |f| == n + 2 && f[0] == indent + (marker + lang) && f[n + 1] == indent + marker
            && forall k | 0 <= k < n :: f[k + 1] == if AllWhite(bodies[k]) then bodies[k] else indent + bodies[k]
  {
    hide AllWhite, Reindent;
    var lines := [marker + lang] + bodies[..n] + [marker];
    assert lines[0] == marker + lang && lines[n + 1] == marker;
    assert forall k :: 0 <= k < n ==> lines[k + 1] == bodies[k];
    TickIsBlack(marker);
    TickIsBlack(marker + lang);
  }

  lemma TickIsBlack(s: string)
    requires s != "" && s[0] == '`'
    ensures !AllWhite(s)
  {
    assert s[0] in s && !IsWhite('`');
  }
}
