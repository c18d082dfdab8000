/** fence-code-blocks.js: what becomes of each run of quote lines in a document, and of each line outside the runs. */
module FenceDocument {
  import opened FenceLines
  import opened FenceBlocks
  import opened FenceTool
  import opened FenceText

  /** The source of the page, or that it is a translation. */
  predicate Noted(q: Quoted) {
    exists n | 0 <= n < |q.text| ::
      AllWhite(q.text[..n]) && ("Source:" <= q.text[n..] || Translated(q.text[n..]))
  }

  predicate Translated(s: string) {
    "\U{7FFB}\U{8B6F}" <= s &&
    exists m | 2 <= m < |s| :: AllWhite(s[2..m]) && s[m] in {':', '\U{FF1A}'}
  }

  lemma BehindWhite(s: string, n: nat)
    requires n < |s| && AllWhite(s[..n]) && !IsWhite(s[n])
    ensures SkipWhite(s) == s[n..] && Indented(s) == n
  {
    assert s == s[..n] + s[n..];
    IndentedConcat(s[..n], s[n..]);
  }

  lemma TranslatedIs(s: string)
    requires "\U{7FFB}\U{8B6F}" <= s
    ensures Translated(s) <==>
              var colon := SkipWhite(s[2..]);
              colon != "" && (colon[0] == ':' || colon[0] == '\U{FF1A}')
  {
    var rest := s[2..];
    if Translated(s) {
      var m :| 2 <= m < |s| && AllWhite(s[2..m]) && s[m] in {':', '\U{FF1A}'};
      assert rest[..m - 2] == s[2..m] && rest[m - 2] == s[m];
      BehindWhite(rest, m - 2);
    }
    var m := Indented(rest);
    IndentIsWhite(rest);
    assert s[2..2 + m] == rest[..m];
    if m < |rest| { assert SkipWhite(rest)[0] == s[2 + m]; }
  }

  lemma NotedIs(l: string, q: Quoted)
    requires Wrote(l, q)
    ensures IsMeta(l) <==> Noted(q)
  {
    hide Wrote, Says, AllWhite, Translated;
    WroteIs(l, q);
    IndentedConcat(q.gap, q.text);
    MetaIs(l, q.text);
  }

  lemma MetaIs(l: string, text: string)
    requires IsQuote(l) && SkipWhite(SkipWhite(l)[1..]) == SkipWhite(text)
    ensures IsMeta(l) <==> exists n | 0 <= n < |text| ::
                AllWhite(text[..n]) && ("Source:" <= text[n..] || Translated(text[n..]))
  {
    hide IsQuote, AllWhite, Translated, Indented;
    var rest := SkipWhite(text);
    if "\U{7FFB}\U{8B6F}" <= rest { TranslatedIs(rest); }
    if n :| 0 <= n < |text| && AllWhite(text[..n]) && ("Source:" <= text[n..] || Translated(text[n..])) {
      StartsVisibly(text[n..]);
      BehindWhite(text, n);
    }
    IndentIsWhite(text);
    assert AllWhite(text[..Indented(text)]) && text[Indented(text)..] == rest;
  }

  lemma StartsVisibly(s: string)
    requires "Source:" <= s || Translated(s)
    ensures s != "" && !IsWhite(s[0]) && ("Source:" <= s || "\U{7FFB}\U{8B6F}" <= s)
  {
    if "Source:" <= s { assert s[0] == 'S'; } else { assert s[0] == '\U{7FFB}'; }
  }

  lemma NotesAre(run: seq<string>, qs: seq<Quoted>)
    requires AllWrote(run, qs)
    ensures HasMeta(run) <==> exists q | q in qs :: Noted(q)
  {
    hide Wrote, IsMeta, Noted;
    forall k | 0 <= k < |run| ensures IsMeta(run[k]) <==> Noted(qs[k]) {
      assert Wrote(run[k], qs[k]);
      NotedIs(run[k], qs[k]);
    }
    if l :| l in run && IsMeta(l) {
      var k :| 0 <= k < |run| && run[k] == l;
      assert Noted(qs[k]) && qs[k] in qs;
    }
    if q :| q in qs && Noted(q) {
      var k :| 0 <= k < |qs| && qs[k] == q;
      assert IsMeta(run[k]) && run[k] in run;
    }
  }

  // ----- fences -----

  predicate OneLine(s: string) {
    forall c | c in s :: c !in {'\n', '\r', '\U{2028}', '\U{2029}'}
  }

  /** A fence line: three backticks behind white space. */
  predicate StartsFence(l: string) {
    exists n | 0 <= n < |l| :: AllWhite(l[..n]) && "```" <= l[n..] && OneLine(l[n..])
  }

  /** At least k backticks from n to m, and nothing else but white space. */
  predicate BareTicks(l: string, n: nat, m: nat, k: nat) {
    && n + k <= m <= |l| && AllWhite(l[..n]) && (forall i | n <= i < m :: l[i] == '`')
    && AllWhite(l[m..]) && OneLine(l[m..])
  }

  predicate EndsFence(l: string, k: nat) {
    exists n, m | 0 <= n <= |l| && 0 <= m <= |l| :: BareTicks(l, n, m, k)
  }

  lemma {:induction false} TicksBetween(s: string)
    ensures Ticks(s) < |s| ==> s[Ticks(s)] != '`'
  {
    if s != "" && s[0] == '`' { TicksBetween(s[1..]); }
  }

  /** A fence opens at a line of three or more backticks. */
  lemma FenceLineIs(l: string)
    ensures IsFence(l) <==> StartsFence(l)
  {
    hide IsFence, StartsFence;
    if StartsFence(l) { FenceFrom(l); }
    if IsFence(l) { FenceTo(l); }
  }

  lemma FenceFrom(l: string)
    requires StartsFence(l)
    ensures IsFence(l)
  {
    hide AllWhite, Indented, Ticks;
    var n :| 0 <= n < |l| && AllWhite(l[..n]) && "```" <= l[n..] && OneLine(l[n..]);
    assert l[n..][0] == '`';
    BehindWhite(l, n);
    var s := l[n..];
    TicksFirst(s);
    assert SkipWhite(l) == s;
    forall c | c in s[Ticks(s)..] ensures !IsTerminator(c) {
      InRest(s, Ticks(s), c);
    }
  }

  lemma TicksFirst(s: string)
    requires "```" <= s
    ensures Ticks(s) >= 3
  {
    AtLeast(s, 3);
  }

  lemma InRest(s: string, n: nat, c: char)
    requires n <= |s| && c in s[n..]
    ensures c in s
  {
    assert s == s[..n] + s[n..];
  }

  lemma FenceTo(l: string)
    requires IsFence(l)
    ensures StartsFence(l)
  {
    hide AllWhite, Indented, OneLine;
    var n := Indented(l);
    IndentIsWhite(l);
    assert SkipWhite(l) == l[n..] && l[n..][..3] == "```";
    TicksAreOneLine(l[n..]);
  }

  lemma TicksAreOneLine(s: string)
    requires forall c | c in s[Ticks(s)..] :: !IsTerminator(c)
    ensures OneLine(s)
  {
    assert s == s[..Ticks(s)] + s[Ticks(s)..];
  }

  lemma {:induction false} AtLeast(s: string, n: nat)
    requires n <= |s| && forall i | 0 <= i < n :: s[i] == '`'
    ensures Ticks(s) >= n
  {
    if n > 0 { AtLeast(s[1..], n - 1); }
  }

  lemma {:induction false} Exactly(s: string, n: nat)
    requires n <= |s| && (forall i | 0 <= i < n :: s[i] == '`') && (n < |s| ==> s[n] != '`')
    ensures Ticks(s) == n
  {
    if n > 0 { Exactly(s[1..], n - 1); }
  }

  /** A fence ends at a bare run at least as long as the one that opened it. */
  lemma FenceEndIs(l: string, k: nat)
    requires k >= 3
    ensures Closes(l, k) <==> EndsFence(l, k)
  {
    hide Closes, EndsFence;
    if Closes(l, k) { EndTo(l, k); }
    if EndsFence(l, k) { EndFrom(l, k); }
  }

  lemma EndTo(l: string, k: nat)
    requires Closes(l, k)
    ensures EndsFence(l, k)
  {
    hide AllWhite, Indented;
    var n := Indented(l);
    IndentIsWhite(l);
    var m := n + Ticks(l[n..]);
    assert l[n..][Ticks(l[n..])..] == l[m..];
    assert forall i :: n <= i < m ==> l[i] == l[n..][i - n];
    assert BareTicks(l, n, m, k);
  }

  lemma EndFrom(l: string, k: nat)
    requires k >= 3 && EndsFence(l, k)
    ensures Closes(l, k)
  {
    hide AllWhite, Indented, Ticks;
    var n, m :| 0 <= n <= |l| && 0 <= m <= |l| && BareTicks(l, n, m, k);
    var s := l[n..];
    assert s[m - n..] == l[m..] && forall i :: 0 <= i < m - n ==> s[i] == l[n + i];
    assert !IsWhite(l[n]) by { assert l[n] == '`'; }
    BehindWhite(l, n);
    if m < |l| { NoTickIn(l[m..]); }
    Exactly(s, m - n);
  }

  lemma NoTickIn(s: string)
    requires s != "" && AllWhite(s)
    ensures s[0] != '`'
  {
    assert s[0] in s;
  }

  // ----- the document, cut -----

  /** No run of quote lines goes on from the first part into the second. */
  predicate CutBetween(a: seq<string>, b: seq<string>) {
    a == [] || b == [] || !IsQuote(a[|a| - 1]) || !IsQuote(b[0])
  }

  lemma {:induction false} ConvertedConcat(a: seq<string>, b: seq<string>, open: nat, j: Judge)
    requires CutBetween(a, b)
    ensures Converted(a + b, open, j) == Converted(a, open, j) + Converted(b, OpenAfter(a, open), j)
    decreases |a|
  {
    hide IsQuote, Next, Converted, OpenAfter, RunLength, RunOut;
    if a == [] {
      assert a + b == b;
      NothingConverted(open, j);
      assert OpenAfter(a, open) == open by { NothingOpens(open); }
    } else if !IsQuote(a[0]) {
      PlainStep(a, 0, open, j);
      PlainStep(a + b, 0, open, j);
      assert (a + b)[0] == a[0] && (a + b)[1..] == a[1..] + b;
      ConvertedConcat(a[1..], b, Next(a[0], open), j);
      OpenAfterFirst(a, open);
    } else {
      var n := RunLength(a);
      RunSplits(a, b);
      ConvertedConcat(a[n..], b, open, j);
      QuotesKeepOpen(a, n, open);
      RunFirst(a, b, open, j);
    }
  }

  lemma RunFirst(a: seq<string>, b: seq<string>, open: nat, j: Judge)
    requires a != [] && IsQuote(a[0]) && CutBetween(a, b)
    ensures var n := RunLength(a);
            && Converted(a, open, j) == RunOut(a[..n], open, j) + Converted(a[n..], open, j)
            && Converted(a + b, open, j) == RunOut(a[..n], open, j) + Converted(a[n..] + b, open, j)
  {
    hide *;
    RunSplits(a, b);
    RunStep(a, 0, open, j);
    RunStep(a + b, 0, open, j);
  }

  lemma NothingOpens(open: nat)
    ensures OpenAfter([], open) == open
  {
  }

  lemma OpenAfterFirst(a: seq<string>, open: nat)
    requires a != []
    ensures OpenAfter(a, open) == OpenAfter(a[1..], Next(a[0], open))
  {
    hide Next;
  }

  lemma QuotesKeepOpen(a: seq<string>, n: nat, open: nat)
    requires n <= |a| && forall k | 0 <= k < n :: IsQuote(a[k])
    ensures OpenAfter(a, open) == OpenAfter(a[n..], open)
  {
    hide IsQuote, OpenAfter;
    QuotedKeeps(a[..n], open);
    MarksConcat(a[..n], a[n..], open);
    assert a == a[..n] + a[n..];
  }

  lemma RunSplits(a: seq<string>, b: seq<string>)
    requires a != [] && IsQuote(a[0]) && CutBetween(a, b)
    ensures var n := RunLength(a);
            && RunLength(a + b) == n && (a + b)[..n] == a[..n] && (a + b)[n..] == a[n..] + b
            && (a + b)[0] == a[0] && CutBetween(a[n..], b)
  {
    hide IsQuote, RunLength;
    var n := RunLength(a);
    var rest := a[n..] + b;
    assert a + b == a[..n] + rest;
    assert rest != [] ==> !IsQuote(rest[0]) by {
      if n < |a| { assert rest[0] == a[n]; } else if b != [] { assert rest[0] == b[0] && a[|a| - 1] == a[n - 1]; }
    }
    RunOf(a[..n], rest);
  }

  /** Lines before and behind a run of quote lines that no run continues. */
  predicate Stands(before: seq<string>, run: seq<string>, after: seq<string>) {
    && run != [] && (forall l | l in run :: IsQuote(l))
    && (before == [] || !IsQuote(before[|before| - 1])) && (after == [] || !IsQuote(after[0]))
  }

  /** The run becomes a fence: it stands in none, has no note, looks like code and has one indent. */
  ghost predicate BecomesFence(qs: seq<Quoted>, open: nat, j: Judge) {
    open == 0 && (!exists q | q in qs :: Noted(q)) && LooksLikeCode(qs, j) && exists i :: OneIndent(qs, i)
  }

  /**
   * Each run of quote lines becomes its fence or stays as it is, and the lines before and behind it are converted as
   * if each stood alone.
   */
  lemma RunInDocument(before: seq<string>, run: seq<string>, after: seq<string>, qs: seq<Quoted>, j: Judge)
    returns (out: seq<string>, n: nat, indent: string)
    requires Stands(before, run, after) && AllWrote(run, qs)
    ensures var open := OpenAfter(before, 0);
            && Converted(before + run + after, 0, j) == Converted(before, 0, j) + out + Converted(after, open, j)
            && if BecomesFence(qs, open, j)
               then Trimmed(qs, n) && OneIndent(qs, indent) && IsFenceOf(out, qs, n, indent, j.language(Meanings(qs)))
               else out == run
  {
    hide *;
    var open := OpenAfter(before, 0);
    Around(before, run, after, j);
    out := RunOut(run, open, j);
    WhenConverted(run, qs, open, j);
    n, indent := 0, "";
    if BecomesFence(qs, open, j) {
      OutIs(run, open, j);
      n, indent := ConvertedLines(run, qs, j);
    } else {
      OutIs(run, open, j);
    }
  }

  lemma OutIs(run: seq<string>, open: nat, j: Judge)
    ensures Converts(run, open, j) ==> Fenced(run, j).Some? && RunOut(run, open, j) == Fenced(run, j).value
    ensures !Converts(run, open, j) ==> RunOut(run, open, j) == run
  {
    hide Fenced, HasMeta;
  }

  lemma WhenConverted(run: seq<string>, qs: seq<Quoted>, open: nat, j: Judge)
    requires AllWrote(run, qs)
    ensures Converts(run, open, j) <==> BecomesFence(qs, open, j)
  {
    hide AllWrote, Fenced, HasMeta, Noted, LooksLikeCode, OneIndent;
    NotesAre(run, qs);
    ConvertsExactlyIf(run, qs, j);
  }

  lemma Around(before: seq<string>, run: seq<string>, after: seq<string>, j: Judge)
    requires Stands(before, run, after)
    ensures var open := OpenAfter(before, 0);
            Converted(before + run + after, 0, j) ==
            Converted(before, 0, j) + RunOut(run, open, j) + Converted(after, open, j)
  {
    hide Converted, OpenAfter, RunOut, IsQuote;
    var open := OpenAfter(before, 0);
    var rest := run + after;
    assert before + run + after == before + rest && run[0] in run && rest[0] == run[0];
    ConvertedConcat(before, rest, 0, j);
    RunOf(run, after);
    Halves(run, after);
    RunStep(rest, 0, open, j);
  }

  /** A line that is no quote stays as it is. */
  lemma PlainInDocument(before: seq<string>, l: string, after: seq<string>, j: Judge)
    requires !IsQuote(l)
    ensures Converted(before + [l] + after, 0, j) ==
            Converted(before, 0, j) + [l] + Converted(after, OpenAfter(before + [l], 0), j)
  {
    hide Converted, OpenAfter, IsQuote, Next;
    var rest := [l] + after;
    assert before + [l] + after == before + rest && rest[0] == l && rest[1..] == after;
    ConvertedConcat(before, rest, 0, j);
    PlainStep(rest, 0, OpenAfter(before, 0), j);
    OpenOfOne(before, l);
  }

  lemma OpenOfOne(before: seq<string>, l: string)
    ensures OpenAfter(before + [l], 0) == Next(l, OpenAfter(before, 0))
  {
    hide Next, OpenAfter;
    MarksConcat(before, [l], 0);
    OpenAfterFirst([l], OpenAfter(before, 0));
    NothingOpens(Next(l, OpenAfter(before, 0)));
    assert [l][1..] == [];
  }
}
