/**
 * fence-code-blocks.js: convertFile.
 *
 * Splicing from the back is replacing segment by segment; content and fence balance are kept, so that the
 * guard at the end of convertFile stays silent; a second pass finds nothing to convert. Both hold where no
 * line of a converted block is a bare run of backticks.
 */
module FenceTool {
  import opened Text
  import opened FenceLines
  import opened FenceBlocks

  datatype Rep = Rep(start: nat, end: nat, out: seq<string>)

  // ----- one pass over the document -----

  /** The run at the start of the document becomes a fence. */
  predicate Converts(run: seq<string>, open: nat, j: Judge) {
    open == 0 && !HasMeta(run) && Fenced(run, j).Some?
  }

  /** The replacements, in order; at: the number of the first line. */
  function Plan(lines: seq<string>, at: nat, open: nat, j: Judge): seq<Rep>
    decreases |lines|
  {
    if lines == [] then []
    else if !IsQuote(lines[0]) then Plan(lines[1..], at + 1, Next(lines[0], open), j)
    else
      var n := RunLength(lines);
      (if Converts(lines[..n], open, j) then [Rep(at, at + n, Fenced(lines[..n], j).value)] else [])
      + Plan(lines[n..], at + n, open, j)
  }

  /** The document, segment by segment. */
  function Converted(lines: seq<string>, open: nat, j: Judge): seq<string>
    decreases |lines|
  {
    if lines == [] then []
    else if !IsQuote(lines[0]) then [lines[0]] + Converted(lines[1..], Next(lines[0], open), j)
    else
      var n := RunLength(lines);
      (if Converts(lines[..n], open, j) then Fenced(lines[..n], j).value else lines[..n]) +
        Converted(lines[n..], open, j)
  }

  /** No line of a converted block has a bare run of four or more backticks as its content. */
  predicate TameText(lines: seq<string>, open: nat, j: Judge)
    decreases |lines|
  {
    if lines == [] then true
    else if !IsQuote(lines[0]) then TameText(lines[1..], Next(lines[0], open), j)
    else
      var n := RunLength(lines);
      (Converts(lines[..n], open, j) ==> Tame(lines[..n])) && TameText(lines[n..], open, j)
  }

  // ----- the first step of each pass -----

  lemma PlainStep(lines: seq<string>, at: nat, open: nat, j: Judge)
    requires lines != [] && !IsQuote(lines[0])
    ensures Plan(lines, at, open, j) == Plan(lines[1..], at + 1, Next(lines[0], open), j)
    ensures Converted(lines, open, j) == [lines[0]] + Converted(lines[1..], Next(lines[0], open), j)
    ensures Blocks(lines, at) == Blocks(lines[1..], at + 1)
  {
    hide IsQuote, Next, Converts;
  }

  /** The replacement of the run at the start, if it has one. */
  function RunReps(run: seq<string>, at: nat, open: nat, j: Judge): seq<Rep> {
    if Converts(run, open, j) then [Rep(at, at + |run|, Fenced(run, j).value)] else []
  }

  function RunOut(run: seq<string>, open: nat, j: Judge): seq<string> {
    if Converts(run, open, j) then Fenced(run, j).value else run
  }

  function RunBlocks(run: seq<string>, at: nat): seq<Block> {
    if HasMeta(run) then [] else [Block(at, at + |run|, run)]
  }

  lemma RunStep(lines: seq<string>, at: nat, open: nat, j: Judge)
    requires lines != [] && IsQuote(lines[0])
    ensures var n := RunLength(lines);
            var run, rest := lines[..n], lines[n..];
            && n > 0 && lines == run + rest && (forall l | l in run :: IsQuote(l))
            && Plan(lines, at, open, j) == RunReps(run, at, open, j) + Plan(rest, at + n, open, j)
            && Converted(lines, open, j) == RunOut(run, open, j) + Converted(rest, open, j)
            && Blocks(lines, at) == RunBlocks(run, at) + Blocks(rest, at + n)
  {
    hide IsQuote, Next, Fenced, HasMeta;
  }

  // ----- content and balance -----

  lemma {:induction false} ConvertedKeeps(lines: seq<string>, open: nat, j: Judge)
    requires Plain(j) && TameText(lines, open, j)
    ensures OpenAfter(Converted(lines, open, j), open) == OpenAfter(lines, open)
    ensures Fingerprint(Converted(lines, open, j), open) == Fingerprint(lines, open)
    decreases |lines|
  {
    hide Fenced, HasMeta, IsQuote, Next, MarkOf, Piece, Plain, Converts, Tame, Converted;
    if lines == [] {
      assert Converted([], open, j) == [] by { NothingConverted(open, j); }
    } else if !IsQuote(lines[0]) {
      var rest := Converted(lines[1..], Next(lines[0], open), j);
      ConvertedKeeps(lines[1..], Next(lines[0], open), j);
      PlainStep(lines, 0, open, j);
      assert ([lines[0]] + rest)[1..] == rest;
    } else {
      var n := RunLength(lines);
      ConvertedKeeps(lines[n..], open, j);
      RunStep(lines, 0, open, j);
      RunOutKeeps(lines[..n], open, j);
      SegmentKeeps(lines[..n], RunOut(lines[..n], open, j), lines[n..], Converted(lines[n..], open, j), open);
    }
  }

  lemma NothingConverted(open: nat, j: Judge)
    ensures Converted([], open, j) == []
  {
  }

  lemma RunOutKeeps(run: seq<string>, open: nat, j: Judge)
    requires Plain(j) && (forall l | l in run :: IsQuote(l)) && (Converts(run, open, j) ==> Tame(run))
    ensures OpenAfter(run, open) == open && OpenAfter(RunOut(run, open, j), open) == open
    ensures Fingerprint(RunOut(run, open, j), open) == Fingerprint(run, open)
  {
    hide Fenced, IsQuote, Plain, Tame, OpenAfter, Fingerprint;
    QuotedKeeps(run, open);
    if Converts(run, open, j) { FenceKeeps(run, j); }
  }

  lemma SegmentKeeps(a: seq<string>, a': seq<string>, b: seq<string>, b': seq<string>, open: nat)
    requires OpenAfter(a, open) == OpenAfter(a', open) == open && Fingerprint(a, open) == Fingerprint(a', open)
    requires OpenAfter(b, open) == OpenAfter(b', open) && Fingerprint(b, open) == Fingerprint(b', open)
    ensures OpenAfter(a' + b', open) == OpenAfter(a + b, open) && Fingerprint(a' + b', open) == Fingerprint(a + b, open)
  {
    hide *;
    MarksConcat(a, b, open);
    MarksConcat(a', b', open);
    FingerprintConcat(a, b, open);
    FingerprintConcat(a', b', open);
  }

  // ----- a second pass -----

  lemma {:induction false} RunOf(run: seq<string>, rest: seq<string>)
    requires (forall l | l in run :: IsQuote(l)) && (rest != [] ==> !IsQuote(rest[0]))
    ensures RunLength(run + rest) == |run|
  {
    hide IsQuote;
    if run == [] {
      assert run + rest == rest;
    } else {
      assert run[0] in run && forall l :: l in run[1..] ==> l in run;
      assert (run + rest)[1..] == run[1..] + rest;
      RunOf(run[1..], rest);
    }
  }

  lemma ConvertedStart(lines: seq<string>, open: nat, j: Judge)
    requires lines != [] ==> !IsQuote(lines[0])
    ensures Converted(lines, open, j) != [] ==> !IsQuote(Converted(lines, open, j)[0])
  {
  }

  /** Within a fence nothing is converted; behind its end the plan goes on as outside. */
  lemma {:induction false} PlanInside(inner: seq<string>, tail: seq<string>, at: nat, n: nat, j: Judge)
    requires n > 0 && StaysOpen(inner, n) && tail != [] && Closes(tail[0], n) && !IsQuote(tail[0])
    ensures Plan(inner + tail, at, n, j) == Plan(tail[1..], at + |inner| + 1, 0, j)
    decreases |inner|
  {
    hide Closes, IsQuote, IsFence, Plan, RunLength, StaysOpen, Next, Converts;
    if inner == [] {
      assert inner + tail == tail;
      EndsAt(tail, at, n, j);
    } else {
      DropOf(inner, tail, 1, n);
      if !IsQuote(inner[0]) {
        OpenNext(inner, tail, at, n, j);
        PlanInside(inner[1..], tail, at + 1, n, j);
      } else {
        var m := RunInside(inner, tail, at, n, j);
        PlanInside(inner[m..], tail, at + m, n, j);
      }
    }
  }

  lemma EndsAt(tail: seq<string>, at: nat, n: nat, j: Judge)
    requires n > 0 && tail != [] && Closes(tail[0], n) && !IsQuote(tail[0])
    ensures Plan(tail, at, n, j) == Plan(tail[1..], at + 1, 0, j)
  {
    hide Closes, IsQuote, Plan;
    PlainStep(tail, at, n, j);
  }

  lemma OpenNext(inner: seq<string>, tail: seq<string>, at: nat, n: nat, j: Judge)
    requires n > 0 && StaysOpen(inner, n) && inner != [] && !IsQuote(inner[0])
    ensures Plan(inner + tail, at, n, j) == Plan(inner[1..] + tail, at + 1, n, j)
  {
    hide Closes, IsQuote, Plan, StaysOpen, IsFence;
    DropOf(inner, tail, 1, n);
    PlainStep(inner + tail, at, n, j);
  }

  lemma RunInside(inner: seq<string>, tail: seq<string>, at: nat, n: nat, j: Judge) returns (m: nat)
    requires n > 0 && StaysOpen(inner, n) && inner != [] && IsQuote(inner[0]) && tail != [] && !IsQuote(tail[0])
    ensures 0 < m <= |inner| && StaysOpen(inner[m..], n)
    ensures Plan(inner + tail, at, n, j) == Plan(inner[m..] + tail, at + m, n, j)
  {
    hide Closes, IsQuote, Plan, StaysOpen, Fenced, HasMeta, RunLength;
    var all := inner + tail;
    m := RunLength(all);
    RunStaysInside(inner, tail);
    DropOf(inner, tail, m, n);
    PlanOfRun(all, at, n, j);
  }

  predicate StaysOpen(inner: seq<string>, n: nat) {
    forall l | l in inner :: !Closes(l, n)
  }

  lemma DropOf(inner: seq<string>, tail: seq<string>, m: nat, n: nat)
    requires m <= |inner| && StaysOpen(inner, n) && inner != []
    ensures (inner + tail)[m..] == inner[m..] + tail && (inner + tail)[0] == inner[0]
    ensures StaysOpen(inner[m..], n) && !Closes(inner[0], n)
  {
    hide Closes;
    assert inner[0] in inner && forall l :: l in inner[m..] ==> l in inner;
  }

  lemma RunStaysInside(inner: seq<string>, tail: seq<string>)
    requires tail != [] && !IsQuote(tail[0])
    ensures RunLength(inner + tail) <= |inner|
  {
    hide IsQuote;
    assert (inner + tail)[|inner|] == tail[0];
  }

  lemma {:induction false} SecondPlan(lines: seq<string>, at: nat, open: nat, j: Judge)
    requires Plain(j) && TameText(lines, open, j)
    ensures Plan(Converted(lines, open, j), at, open, j) == []
    decreases |lines|
  {
    hide Fenced, IsQuote, Next, Plain, Converted, Plan, Tame, HasMeta;
    if lines == [] {
      NothingPlanned(at, open, j);
    } else if !IsQuote(lines[0]) {
      SecondPlan(lines[1..], at + 1, Next(lines[0], open), j);
      PlainStep(lines, at, open, j);
      PlanOfPlain(lines[0], Converted(lines[1..], Next(lines[0], open), j), at, open, j);
    } else {
      var n := RunLength(lines);
      var run, rest := lines[..n], Converted(lines[n..], open, j);
      RunStep(lines, at, open, j);
      if Converts(run, open, j) {
        FencePlan(run, rest, at, j);
        SecondPlan(lines[n..], at + |Fenced(run, j).value|, open, j);
      } else {
        ConvertedStart(lines[n..], open, j);
        PlanOfKept(run, rest, at, open, j);
        SecondPlan(lines[n..], at + n, open, j);
      }
    }
  }

  lemma PlanOfPlain(l: string, rest: seq<string>, at: nat, open: nat, j: Judge)
    requires !IsQuote(l)
    ensures Plan([l] + rest, at, open, j) == Plan(rest, at + 1, Next(l, open), j)
  {
    hide IsQuote, Next, Plan;
    PlainStep([l] + rest, at, open, j);
    assert ([l] + rest)[1..] == rest;
  }

  lemma PlanOfKept(run: seq<string>, rest: seq<string>, at: nat, open: nat, j: Judge)
    requires run != [] && (forall l | l in run :: IsQuote(l)) && (rest != [] ==> !IsQuote(rest[0])) &&
              !Converts(run, open, j)
    ensures Plan(run + rest, at, open, j) == Plan(rest, at + |run|, open, j)
  {
    hide *;
    RunOf(run, rest);
    Halves(run, rest);
    assert run[0] in run;
    PlanOfRun(run + rest, at, open, j);
  }

  lemma Halves(a: seq<string>, b: seq<string>)
    ensures (a + b)[..|a|] == a && (a + b)[|a|..] == b
    ensures a != [] ==> (a + b)[0] == a[0]
  {
  }

  lemma PlanOfRun(lines: seq<string>, at: nat, open: nat, j: Judge)
    requires lines != [] && IsQuote(lines[0]) && !Converts(lines[..RunLength(lines)], open, j)
    ensures var n := RunLength(lines); Plan(lines, at, open, j) == Plan(lines[n..], at + n, open, j)
  {
    hide IsQuote, Converts, RunLength;
    var n := RunLength(lines);
    assert [] + Plan(lines[n..], at + n, open, j) == Plan(lines[n..], at + n, open, j);
  }

  lemma NothingPlanned(at: nat, open: nat, j: Judge)
    ensures Converted([], open, j) == [] && Plan([], at, open, j) == []
  {
  }

  lemma FencePlan(run: seq<string>, rest: seq<string>, at: nat, j: Judge)
    requires Plain(j) && Tame(run) && Fenced(run, j).Some?
    ensures var f := Fenced(run, j).value;
            Plan(f + rest, at, 0, j) == Plan(rest, at + |f|, 0, j)
  {
    hide *;
    var first, inner, last, n := FenceParts(run, j);
    var all := Fenced(run, j).value + rest;
    assert all[0] == first && all[1..] == inner + ([last] + rest);
    PlainStep(all, at, 0, j);
    OpensFence(first);
    StaysOpenIf(inner, n);
    assert ([last] + rest)[1..] == rest;
    PlanInside(inner, [last] + rest, at + 1, n, j);
  }

  lemma StaysOpenIf(inner: seq<string>, n: nat)
    requires forall l | l in inner :: !Closes(l, n)
    ensures StaysOpen(inner, n)
  {
  }

  lemma OpensFence(l: string)
    requires IsFence(l)
    ensures Next(l, 0) == FenceLength(l)
  {
  }

  // ----- splicing from the back -----

  function SpliceOne(lines: seq<string>, r: Rep): seq<string> {
    if r.start <= r.end <= |lines| then lines[..r.start] + r.out + lines[r.end..] else lines
  }

  /** The last replacement first. */
  function SpliceBack(lines: seq<string>, reps: seq<Rep>): seq<string>
    decreases |reps|
  {
    if reps == [] then lines else SpliceBack(SpliceOne(lines, reps[|reps| - 1]), reps[..|reps| - 1])
  }

  lemma {:induction false} FirstIsLast(lines: seq<string>, r: Rep, more: seq<Rep>)
    ensures SpliceBack(lines, [r] + more) == SpliceOne(SpliceBack(lines, more), r)
    decreases |more|
  {
    hide SpliceOne;
    var all := [r] + more;
    if more == [] {
      assert all[..0] == [];
    } else {
      assert all[..|all| - 1] == [r] + more[..|more| - 1];
      FirstIsLast(SpliceOne(lines, more[|more| - 1]), r, more[..|more| - 1]);
    }
  }

  /** Line numbers stay valid because replacing starts at the end. */
  lemma {:induction false} SplicedIsConverted(pre: seq<string>, lines: seq<string>, open: nat, j: Judge)
    ensures SpliceBack(pre + lines, Plan(lines, |pre|, open, j)) == pre + Converted(lines, open, j)
    decreases |lines|
  {
    hide Fenced, IsQuote, Next, SpliceOne, Converted, Plan, Converts;
    if lines == [] {
      NothingPlanned(|pre|, open, j);
      assert pre + lines == pre == pre + [];
    } else if !IsQuote(lines[0]) {
      SplicedIsConverted(pre + [lines[0]], lines[1..], Next(lines[0], open), j);
      PlainStep(lines, |pre|, open, j);
      assert pre + [lines[0]] + lines[1..] == pre + lines;
      assert pre + [lines[0]] + Converted(lines[1..], Next(lines[0], open), j)
          == pre + ([lines[0]] + Converted(lines[1..], Next(lines[0], open), j));
    } else {
      var n := RunLength(lines);
      RunStep(lines, |pre|, open, j);
      SplicedIsConverted(pre + lines[..n], lines[n..], open, j);
      var rest := lines[n..];
      SplicedRun(pre, lines[..n], rest, Plan(rest, |pre| + n, open, j), Converted(rest, open, j), open, j);
    }
  }

  lemma SplicedRun(pre: seq<string>, run: seq<string>, rest: seq<string>, more: seq<Rep>, out: seq<string>, open: nat,
    j: Judge)
    requires SpliceBack(pre + run + rest, more) == pre + run + out
    ensures SpliceBack(pre + (run + rest), RunReps(run, |pre|, open, j) + more) == pre + (RunOut(run, open, j) + out)
  {
    hide Fenced, SpliceOne, HasMeta;
    assert pre + run + rest == pre + (run + rest);
    if Converts(run, open, j) {
      var r := Rep(|pre|, |pre| + |run|, Fenced(run, j).value);
      FirstIsLast(pre + (run + rest), r, more);
      SpliceRun(pre, run, out, r);
    } else {
      assert [] + more == more;
      assert pre + run + out == pre + (run + out);
    }
  }

  lemma SpliceRun(pre: seq<string>, run: seq<string>, rest: seq<string>, r: Rep)
    requires r.start == |pre| && r.end == |pre| + |run|
    ensures SpliceOne(pre + run + rest, r) == pre + (r.out + rest)
  {
    var all := pre + run + rest;
    assert all[..|pre|] == pre && all[|pre| + |run|..] == rest;
  }

  // ----- convertFile -----

  /** The replacements for the blocks that start outside every fence. */
  function RepsOf(blocks: seq<Block>, states: seq<Mark>, j: Judge): seq<Rep> {
    if blocks == [] then []
    else
      var b := blocks[0];
      (if b.start < |states| && states[b.start] == Outside && Fenced(b.lines, j).Some?
       then [Rep(b.start, b.end, Fenced(b.lines, j).value)] else [])
      + RepsOf(blocks[1..], states, j)
  }

  lemma {:induction false} RepsAreThePlan(pre: seq<string>, lines: seq<string>, j: Judge)
    ensures RepsOf(Blocks(lines, |pre|), Marks(pre + lines, 0), j) == Plan(lines, |pre|, OpenAfter(pre, 0), j)
    decreases |lines|
  {
    hide Fenced, IsQuote, Next, MarkOf, Blocks, Plan, Marks, OpenAfter, RepsOf, HasMeta, Converts, RunReps, RunBlocks,
      Converted, RunOut;
    var open := OpenAfter(pre, 0);
    if lines == [] {
      NoReps(|pre|, Marks(pre + lines, 0), open, j);
    } else if !IsQuote(lines[0]) {
      RepsAreThePlan(pre + [lines[0]], lines[1..], j);
      PlainStep(lines, |pre|, open, j);
      assert pre + [lines[0]] + lines[1..] == pre + lines;
      MarksConcat(pre, [lines[0]], 0);
      OneLine(lines[0], open);
    } else {
      var n := RunLength(lines);
      var run, rest := lines[..n], lines[n..];
      RunStep(lines, |pre|, open, j);
      QuotedKeeps(run, open);
      MarksConcat(pre, run, 0);
      RepsAreThePlan(pre + run, rest, j);
      assert pre + run + rest == pre + lines;
      StateOfRun(pre, lines);
      RepsOfRun(run, |pre|, Blocks(rest, |pre| + n), Marks(pre + lines, 0), open, j);
    }
  }

  lemma NoReps(at: nat, states: seq<Mark>, open: nat, j: Judge)
    ensures RepsOf(Blocks([], at), states, j) == Plan([], at, open, j) == []
  {
  }

  lemma RepsOfRun(run: seq<string>, at: nat, more: seq<Block>, states: seq<Mark>, open: nat, j: Judge)
    requires at < |states| && states[at] == if open == 0 then Outside else Inside
    ensures RepsOf(RunBlocks(run, at) + more, states, j) == RunReps(run, at, open, j) + RepsOf(more, states, j)
  {
    hide Fenced, HasMeta;
    if HasMeta(run) {
      assert [] + more == more;
    } else {
      assert ([Block(at, at + |run|, run)] + more)[1..] == more;
    }
  }

  lemma StateOfRun(pre: seq<string>, lines: seq<string>)
    requires lines != [] && IsQuote(lines[0])
    ensures Marks(pre + lines, 0)[|pre|] == if OpenAfter(pre, 0) == 0 then Outside else Inside
  {
    hide IsQuote, MarkOf, Next;
    MarksConcat(pre, lines, 0);
    QuoteLine(lines[0], OpenAfter(pre, 0));
  }

  datatype Problem = MixedIndent(line: nat) | FingerprintDiffers | LeftOpen | WasOpen

  datatype Report = Report(text: string, converted: nat, skipped: nat, excluded: nat, problems: seq<Problem>)

  /** splitBlocks. */
  method SplitBlocks(lines: seq<string>) returns (blocks: seq<Block>)
    ensures blocks == Blocks(lines, 0)
  {
    hide IsQuote, IsMeta, Blocks, HasMeta;
    blocks := [];
    var start, excluded := 0, false;
    MetaMore([], "");
    assert lines[0..] == lines;
    for i := 0 to |lines|
      invariant start <= i && (forall k | start <= k < i :: IsQuote(lines[k]))
      invariant excluded == HasMeta(lines[start..i])
      invariant blocks + Blocks(lines[start..], start) == Blocks(lines, 0)
    {
      if IsQuote(lines[i]) {
        assert lines[start..i + 1] == lines[start..i] + [lines[i]];
        MetaMore(lines[start..i], lines[i]);
        excluded := excluded || IsMeta(lines[i]);
      } else {
        BlockEnds(lines, start, i);
        if start < i && !excluded { blocks := blocks + [Block(start, i, lines[start..i])]; }
        start, excluded := i + 1, false;
        assert lines[i + 1..i + 1] == [];
      }
    }
    BlockEnds(lines, start, |lines|);
    assert lines[start..|lines|] == lines[start..];
    if start < |lines| && !excluded { blocks := blocks + [Block(start, |lines|, lines[start..])]; }
  }

  lemma MetaMore(lines: seq<string>, l: string)
    ensures HasMeta(lines + [l]) <==> HasMeta(lines) || IsMeta(l)
    ensures !HasMeta([])
  {
    hide IsMeta;
    assert l in lines + [l] && forall x :: x in lines ==> x in lines + [l];
  }

  /** A run that ends at line i is a block unless it is empty or holds a note. */
  lemma BlockEnds(lines: seq<string>, start: nat, i: nat)
    requires start <= i <= |lines| && (forall k | start <= k < i :: IsQuote(lines[k])) &&
              (i < |lines| ==> !IsQuote(lines[i]))
    ensures Blocks(lines[start..], start) ==
            (if start < i && !HasMeta(lines[start..i]) then [Block(start, i, lines[start..i])] else [])
            + (if i < |lines| then Blocks(lines[i + 1..], i + 1) else [])
  {
    hide IsQuote, HasMeta, Blocks;
    var run, rest := lines[start..i], lines[i..];
    assert lines[start..] == run + rest;
    BlocksOfRun(run, rest, start);
    if i < |lines| {
      assert rest[0] == lines[i] && rest[1..] == lines[i + 1..];
      BlocksBehind(rest, i);
    } else {
      NoBlocksIn(rest, i);
    }
  }

  lemma NoBlocksIn(lines: seq<string>, at: nat)
    requires lines == []
    ensures Blocks(lines, at) == []
  {
  }

  lemma BlocksBehind(lines: seq<string>, at: nat)
    requires lines != [] && !IsQuote(lines[0])
    ensures Blocks(lines, at) == Blocks(lines[1..], at + 1)
  {
    hide IsQuote, RunLength, HasMeta;
  }

  lemma BlocksOfRun(run: seq<string>, rest: seq<string>, at: nat)
    requires (forall l | l in run :: IsQuote(l)) && (rest != [] ==> !IsQuote(rest[0]))
    ensures Blocks(run + rest, at) ==
            (if run != [] && !HasMeta(run) then [Block(at, at + |run|, run)] else []) + Blocks(rest, at + |run|)
  {
    hide IsQuote, HasMeta, RunLength;
    RunOf(run, rest);
    Halves(run, rest);
    if run == [] { assert run + rest == rest; } else { assert run[0] in run; }
  }

  /** The block starts outside every fence. */
  predicate Free(b: Block, states: seq<Mark>) {
    b.start < |states| && states[b.start] == Outside
  }

  /** The blocks that stand in a fence already. */
  function Within(blocks: seq<Block>, states: seq<Mark>): set<nat> {
    set k: nat | k < |blocks| && !Free(blocks[k], states)
  }

  /** The blocks taken for prose. */
  function Skipped(blocks: seq<Block>, states: seq<Mark>, j: Judge): set<nat> {
    set k: nat | k < |blocks| && Free(blocks[k], states) && !IsCode(blocks[k].lines, j)
  }

  /** The blocks of code whose lines with content have different indents. */
  function Mixed(blocks: seq<Block>, states: seq<Mark>, j: Judge): set<nat> {
    set k: nat | k < |blocks| && Free(blocks[k], states) && IsCode(blocks[k].lines, j) &&
      BlockIndent(blocks[k].lines).None?
  }

  /** The blocks of mixed indent, by the number of their first line, counted from 1. */
  function Warnings(blocks: seq<Block>, states: seq<Mark>, j: Judge): (r: set<Problem>)
    ensures forall p | p in r :: p.MixedIndent?
  {
    set b | b in blocks && Free(b, states) && IsCode(b.lines, j) &&
      BlockIndent(b.lines).None? :: MixedIndent(b.start + 1)
  }

  function Listed(problems: seq<Problem>): set<Problem> {
    set p | p in problems
  }

  /** Every block that is not replaced is counted or warned of. */
  predicate Counted(blocks: seq<Block>, states: seq<Mark>, j: Judge, skipped: nat, excluded: nat,
    problems: seq<Problem>) {
    && excluded == |Within(blocks, states)| && skipped == |Skipped(blocks, states, j)|
    && |problems| == |Mixed(blocks, states, j)| && Listed(problems) == Warnings(blocks, states, j)
  }

  lemma WarningsMore(blocks: seq<Block>, k: nat, states: seq<Mark>, j: Judge)
    requires k < |blocks|
    ensures var b := blocks[k];
            Warnings(blocks[..k + 1], states, j) ==
            Warnings(blocks[..k], states, j) +
            if Free(b, states) && IsCode(b.lines, j) &&
              BlockIndent(b.lines).None? then {MixedIndent(b.start + 1)} else {}
  {
    hide Free, IsCode, BlockIndent;
    assert blocks[..k + 1] == blocks[..k] + [blocks[k]];
  }

  lemma NoneCounted(blocks: seq<Block>, states: seq<Mark>, j: Judge)
    requires blocks == []
    ensures Counted(blocks, states, j, 0, 0, [])
  {
    assert Within(blocks, states) == Skipped(blocks, states, j) == Mixed(blocks, states, j) == {};
  }

  /** The next block falls in at most one of the three classes. */
  lemma OneBlockMore(blocks: seq<Block>, k: nat, states: seq<Mark>, j: Judge)
    requires k < |blocks|
    ensures var b, before, now := blocks[k], blocks[..k], blocks[..k + 1];
            && Within(now, states) == Within(before, states) + (if Free(b, states) then {} else {k})
            && Skipped(now, states, j) ==
               Skipped(before, states, j) + (if Free(b, states) && !IsCode(b.lines, j) then {k} else {})
            && Mixed(now, states, j) ==
               Mixed(before, states, j) +
               (if Free(b, states) && IsCode(b.lines, j) && BlockIndent(b.lines).None? then {k} else {})
            && k !in Within(before, states) && k !in Skipped(before, states, j) && k !in Mixed(before, states, j)
  {
    hide Free, IsCode, BlockIndent;
    var before, now := blocks[..k], blocks[..k + 1];
    assert |before| == k && |now| == k + 1;
    assert forall i :: 0 <= i < k ==> now[i] == before[i];
    assert now[k] == blocks[k];
  }

  lemma CountedNext(blocks: seq<Block>, k: nat, states: seq<Mark>, j: Judge, skipped: nat, excluded: nat,
                    problems: seq<Problem>)
    requires k < |blocks| && Counted(blocks[..k], states, j, skipped, excluded, problems)
    ensures var b, now := blocks[k], blocks[..k + 1];
            if !Free(b, states) then Counted(now, states, j, skipped, excluded + 1, problems)
            else if !IsCode(b.lines, j) then Counted(now, states, j, skipped + 1, excluded, problems)
            else if BlockIndent(b.lines).None?
            then Counted(now, states, j, skipped, excluded, problems + [MixedIndent(b.start + 1)])
            else Counted(now, states, j, skipped, excluded, problems)
  {
    hide Free, IsCode, BlockIndent, Counted, Within, Skipped, Mixed, Warnings;
    var b, free := blocks[k], Free(blocks[k], states);
    CountsMore(blocks, k, states, j);
    CountsOf(blocks[..k], states, j, skipped, excluded, problems);
    if free && IsCode(b.lines, j) && BlockIndent(b.lines).None? {
      CountedWith(blocks, k, states, j, skipped, excluded, problems, true, MixedIndent(b.start + 1));
    } else {
      CountedWith(blocks, k, states, j, skipped, excluded, problems, false, MixedIndent(b.start + 1));
    }
  }

  lemma CountedWith(blocks: seq<Block>, k: nat, states: seq<Mark>, j: Judge, skipped: nat, excluded: nat,
                    problems: seq<Problem>, mixed: bool, p: Problem)
    requires k < |blocks| && Counted(blocks[..k], states, j, skipped, excluded, problems)
    requires |Mixed(blocks[..k + 1], states, j)| == |Mixed(blocks[..k], states, j)| + if mixed then 1 else 0
    requires Warnings(blocks[..k + 1], states, j) == Warnings(blocks[..k], states, j) + if mixed then {p} else {}
    ensures Counted(blocks[..k + 1], states, j, |Skipped(blocks[..k + 1], states, j)|,
                    |Within(blocks[..k + 1], states)|, if mixed then problems + [p] else problems)
  {
    hide Within, Skipped, Mixed, Warnings, Listed;
    Appended(problems, p);
  }

  lemma CountsOf(blocks: seq<Block>, states: seq<Mark>, j: Judge, skipped: nat, excluded: nat, problems: seq<Problem>)
    requires Counted(blocks, states, j, skipped, excluded, problems)
    ensures excluded == |Within(blocks, states)| && skipped == |Skipped(blocks, states, j)|
  {
  }

  lemma CountsMore(blocks: seq<Block>, k: nat, states: seq<Mark>, j: Judge)
    requires k < |blocks|
    ensures var b, before, now := blocks[k], blocks[..k], blocks[..k + 1];
            var mixed := Free(b, states) && IsCode(b.lines, j) && BlockIndent(b.lines).None?;
            && |Within(now, states)| == |Within(before, states)| + (if Free(b, states) then 0 else 1)
            && |Skipped(now, states, j)| ==
               |Skipped(before, states, j)| + (if Free(b, states) && !IsCode(b.lines, j) then 1 else 0)
            && |Mixed(now, states, j)| == |Mixed(before, states, j)| + (if mixed then 1 else 0)
            && Warnings(now, states, j) == Warnings(before, states, j) + if mixed
                 then {MixedIndent(b.start + 1)} else {}
  {
    hide Free, IsCode, BlockIndent, Within, Skipped, Mixed, Warnings;
    var b, before, now := blocks[k], blocks[..k], blocks[..k + 1];
    OneBlockMore(blocks, k, states, j);
    WarningsMore(blocks, k, states, j);
    Grown(Within(before, states), Within(now, states), k, !Free(b, states));
    Grown(Skipped(before, states, j), Skipped(now, states, j), k, Free(b, states) && !IsCode(b.lines, j));
    Grown(Mixed(before, states, j), Mixed(now, states, j), k,
          Free(b, states) && IsCode(b.lines, j) && BlockIndent(b.lines).None?);
  }

  lemma Grown(a: set<nat>, b: set<nat>, k: nat, yes: bool)
    requires k !in a && b == a + if yes then {k} else {}
    ensures |b| == |a| + if yes then 1 else 0
  {
    if !yes { assert b == a; }
  }

  lemma Appended(problems: seq<Problem>, p: Problem)
    ensures Listed(problems + [p]) == Listed(problems) + {p} && |problems + [p]| == |problems| + 1
  {
  }

  /** What becomes of the blocks that start outside every fence. */
  method PlanBlocks(blocks: seq<Block>, states: seq<Mark>, j: Judge)
    returns (reps: seq<Rep>, skipped: nat, excluded: nat, problems: seq<Problem>)
    ensures reps == RepsOf(blocks, states, j)
    ensures Counted(blocks, states, j, skipped, excluded, problems)
    ensures |reps| + skipped + excluded + |problems| == |blocks|
  {
    hide IsCode, BlockIndent, ToFence, Reindent, RepsOf, Counted;
    reps, skipped, excluded, problems := [], 0, 0, [];
    assert blocks[0..] == blocks && [] + RepsOf(blocks, states, j) == RepsOf(blocks, states, j);
    NoneCounted(blocks[..0], states, j);
    for k := 0 to |blocks|
      invariant reps + RepsOf(blocks[k..], states, j) == RepsOf(blocks, states, j)
      invariant Counted(blocks[..k], states, j, skipped, excluded, problems)
      invariant |reps| + skipped + excluded + |problems| == k
    {
      var b := blocks[k];
      RepsNext(blocks, k, states, j);
      CountedNext(blocks, k, states, j, skipped, excluded, problems);
      if b.start >= |states| || states[b.start] != Outside { excluded := excluded + 1; continue; }
      if !IsCode(b.lines, j) { skipped := skipped + 1; continue; }
      var indent := BlockIndent(b.lines);
      if indent.None? {
        problems := problems + [MixedIndent(b.start + 1)];
        continue;
      }
      reps := reps + [Rep(b.start, b.end, Reindent(ToFence(b.lines, j.language(Bodies(b.lines))), indent.value))];
    }
    RepsOfNone(blocks[|blocks|..], states, j);
    assert blocks[..|blocks|] == blocks;
  }

  lemma RepsNext(blocks: seq<Block>, k: nat, states: seq<Mark>, j: Judge)
    requires k < |blocks|
    ensures var b := blocks[k];
            RepsOf(blocks[k..], states, j) ==
            if b.start < |states| && states[b.start] == Outside && Fenced(b.lines, j).Some?
            then [Rep(b.start, b.end, Fenced(b.lines, j).value)] + RepsOf(blocks[k + 1..], states, j)
            else RepsOf(blocks[k + 1..], states, j)
  {
    hide Fenced;
    assert blocks[k..][1..] == blocks[k + 1..];
    assert [] + RepsOf(blocks[k + 1..], states, j) == RepsOf(blocks[k + 1..], states, j);
  }

  lemma RepsOfNone(blocks: seq<Block>, states: seq<Mark>, j: Judge)
    requires blocks == []
    ensures RepsOf(blocks, states, j) == []
  {
  }

  method SpliceFromBack(lines: seq<string>, reps: seq<Rep>) returns (out: seq<string>)
    ensures out == SpliceBack(lines, reps)
  {
    hide SpliceOne;
    out := lines;
    var k := |reps|;
    assert reps[..k] == reps;
    while k > 0
      invariant k <= |reps| && SpliceBack(out, reps[..k]) == SpliceBack(lines, reps)
    {
      k := k - 1;
      assert reps[..k + 1][..k] == reps[..k];
      out := SpliceOne(out, reps[k]);
    }
    assert reps[..0] == [];
  }

  /** The text convertFile returns. */
  function ResultText(text: string, j: Judge): string {
    Join(Converted(Split(text, '\n'), 0, j), '\n')
  }

  method ConvertFile(text: string, j: Judge) returns (r: Report)
    ensures r.text == ResultText(text, j)
    ensures r.converted == |Plan(Split(text, '\n'), 0, 0, j)|
    ensures r.excluded == |Within(Blocks(Split(text, '\n'), 0), Marks(Split(text, '\n'), 0))|
    ensures r.skipped == |Skipped(Blocks(Split(text, '\n'), 0), Marks(Split(text, '\n'), 0), j)|
    ensures forall line: nat :: MixedIndent(line) in r.problems <==>
              MixedIndent(line) in Warnings(Blocks(Split(text, '\n'), 0), Marks(Split(text, '\n'), 0), j)
    ensures FingerprintDiffers in r.problems <==>
              Fingerprint(Split(r.text, '\n'), 0) != Fingerprint(Split(text, '\n'), 0)
    ensures LeftOpen in r.problems <==> OpenAfter(Split(r.text, '\n'), 0) > 0 && OpenAfter(Split(text, '\n'), 0) == 0
    ensures WasOpen in r.problems <==> OpenAfter(Split(r.text, '\n'), 0) > 0 && OpenAfter(Split(text, '\n'), 0) > 0
  {
    hide *;
    var lines := Split(text, '\n');
    var states, wasOpen := FenceScan(lines);
    var seen := SplitBlocks(lines);
    var reps, skipped, excluded, problems := PlanBlocks(seen, states, j);
    CountsAre(seen, states, j, skipped, excluded, problems);
    PlanOfText(lines, j);
    var out := SpliceFromBack(lines, reps);
    var result := Join(out, '\n');
    var before := ContentFingerprint(text);
    var after := ContentFingerprint(result);
    if after != before { problems := problems + [FingerprintDiffers]; }
    var _, open := FenceScan(Split(result, '\n'));
    if open { problems := problems + [if wasOpen then WasOpen else LeftOpen]; }
    r := Report(result, |reps|, skipped, excluded, problems);
    ResultIs(text, j);
  }

  lemma CountsAre(blocks: seq<Block>, states: seq<Mark>, j: Judge, skipped: nat, excluded: nat, problems: seq<Problem>)
    requires Counted(blocks, states, j, skipped, excluded, problems)
    ensures excluded == |Within(blocks, states)| && skipped == |Skipped(blocks, states, j)|
    ensures forall p :: p in problems <==> p in Warnings(blocks, states, j)
    ensures forall p | p in problems :: p.MixedIndent?
  {
    hide Warnings, Within, Skipped, Mixed;
    forall p ensures p in problems <==> p in Warnings(blocks, states, j) {
      assert p in problems <==> p in Listed(problems);
    }
  }

  lemma PlanOfText(lines: seq<string>, j: Judge)
    ensures RepsOf(Blocks(lines, 0), Marks(lines, 0), j) == Plan(lines, 0, 0, j)
    ensures SpliceBack(lines, Plan(lines, 0, 0, j)) == Converted(lines, 0, j)
  {
    assert [] + lines == lines && [] + Converted(lines, 0, j) == Converted(lines, 0, j);
    assert OpenAfter([], 0) == 0;
    RepsAreThePlan([], lines, j);
    SplicedIsConverted([], lines, 0, j);
  }

  lemma ResultIs(text: string, j: Judge)
    ensures ResultText(text, j) == Join(Converted(Split(text, '\n'), 0, j), '\n')
  {
  }

  // ----- the text is the lines -----

  lemma {:induction false} NoNewlines(lines: seq<string>, open: nat, j: Judge)
    requires Plain(j) && forall l | l in lines :: '\n' !in l
    ensures forall l | l in Converted(lines, open, j) :: '\n' !in l
    ensures lines != [] ==> Converted(lines, open, j) != []
    decreases |lines|
  {
    hide Fenced, HasMeta, IsQuote, Next, Plain;
    if lines != [] {
      assert lines[0] in lines && forall l :: l in lines[1..] ==> l in lines;
      if !IsQuote(lines[0]) {
        NoNewlines(lines[1..], Next(lines[0], open), j);
      } else {
        var n := RunLength(lines);
        assert (forall l :: l in lines[n..] ==> l in lines) && (forall l :: l in lines[..n] ==> l in lines);
        assert lines[..n][0] == lines[0];
        NoNewlines(lines[n..], open, j);
        if Converts(lines[..n], open, j) { FencedNoNewlines(lines[..n], j); }
      }
    }
  }

  lemma FencedNoNewlines(lines: seq<string>, j: Judge)
    requires Plain(j) && Fenced(lines, j).Some? && forall l | l in lines :: '\n' !in l
    ensures Fenced(lines, j).value != [] && forall l | l in Fenced(lines, j).value :: '\n' !in l
  {
    hide IsCode, BlockIndent, MarkerFor, IndentLine, Body;
    var lang := j.language(Bodies(lines));
    var indent := BlockIndent(lines).value;
    var bodies := DropBlankTail(Bodies(lines));
    var f := ToFence(lines, lang);
    IndentHasNoNewline(lines);
    forall b | b in bodies ensures '\n' !in b {
      var k :| 0 <= k < |bodies| && bodies[k] == b;
      assert Bodies(lines)[k] == b && lines[k] in lines;
      BodyChars(lines[k], '\n');
    }
    MarkerChars(bodies);
    forall l | l in f ensures '\n' !in l {
    }
    forall l | l in Reindent(f, indent) ensures '\n' !in l {
      var k :| 0 <= k < |f| && Reindent(f, indent)[k] == l;
      assert f[k] in f;
      IndentLineChars(f[k], indent, '\n');
    }
  }

  lemma MarkerChars(bodies: seq<string>)
    ensures forall c | c in MarkerFor(bodies) :: c == '`'
  {
  }

  lemma IndentLineChars(l: string, indent: string, c: char)
    requires c !in l && c !in indent
    ensures c !in IndentLine(l, indent)
  {
  }

  lemma IndentHasNoNewline(lines: seq<string>)
    requires BlockIndent(lines).Some? && forall l | l in lines :: '\n' !in l
    ensures '\n' !in BlockIndent(lines).value
  {
    hide StripQuote, AllWhite;
    IndentsHaveNoNewline(lines);
    if Indents(lines) != [] { assert Indents(lines)[0] in Indents(lines); }
  }

  lemma {:induction false} IndentsHaveNoNewline(lines: seq<string>)
    requires forall l | l in lines :: '\n' !in l
    ensures forall i | i in Indents(lines) :: '\n' !in i
  {
    hide StripQuote, AllWhite, IsWhite;
    if lines != [] {
      assert lines[0] in lines && forall l :: l in lines[1..] ==> l in lines;
      IndentsHaveNoNewline(lines[1..]);
    }
  }

  lemma ResultLines(text: string, j: Judge)
    requires Plain(j)
    ensures Split(ResultText(text, j), '\n') == Converted(Split(text, '\n'), 0, j)
  {
    hide Converted, Split, Join, Plain;
    var lines := Split(text, '\n');
    SplitPieces(text, '\n');
    NoNewlines(lines, 0, j);
    SplitJoin(Converted(lines, 0, j), '\n');
  }

  // ----- the main results -----

  /** The guard stays silent: same content, and fences open at the end exactly if they were. */
  lemma GuardIsSilent(text: string, j: Judge)
    requires Plain(j) && TameText(Split(text, '\n'), 0, j)
    ensures var before, after := Split(text, '\n'), Split(ResultText(text, j), '\n');
            Fingerprint(after, 0) == Fingerprint(before, 0) && OpenAfter(after, 0) == OpenAfter(before, 0)
  {
    hide *;
    ResultLines(text, j);
    ConvertedKeeps(Split(text, '\n'), 0, j);
  }

  /** A second pass converts nothing and leaves the text as it is. */
  lemma SecondPassIsIdle(text: string, j: Judge)
    requires Plain(j) && TameText(Split(text, '\n'), 0, j)
    ensures Plan(Split(ResultText(text, j), '\n'), 0, 0, j) == []
    ensures ResultText(ResultText(text, j), j) == ResultText(text, j)
  {
    hide Converted, Split, Join, Plain, TameText, Fenced, HasMeta;
    ResultLines(text, j);
    SecondPlan(Split(text, '\n'), 0, 0, j);
    IdlePlan(Converted(Split(text, '\n'), 0, j), 0, 0, j);
  }

  lemma {:induction false} IdlePlan(lines: seq<string>, at: nat, open: nat, j: Judge)
    requires Plan(lines, at, open, j) == []
    ensures Converted(lines, open, j) == lines
    decreases |lines|
  {
    hide Fenced, HasMeta, IsQuote, Next;
    if lines != [] {
      if !IsQuote(lines[0]) {
        IdlePlan(lines[1..], at + 1, Next(lines[0], open), j);
        assert lines == [lines[0]] + lines[1..];
      } else {
        var n := RunLength(lines);
        IdlePlan(lines[n..], at + n, open, j);
        assert lines == lines[..n] + lines[n..];
      }
    }
  }
}
