/** ConfService.restoreRawBlocks: the restored text, written out. */
module RawBlockText {
  import opened Text
  import opened RawBlocks
  import opened RawBlockTurn
  import opened RawBlockRestore

  /** Whole lines of the skeleton, and the marker line behind them: its indent and its entry. */
  datatype Part = Part(lines: string, indent: string, entry: Entry)

  /** The skeleton, put together: lines, indent, marker and semicolon, again and again, and what follows the last. */
  function Skeleton(parts: seq<Part>, tail: string): string {
    if parts == [] then tail
    else parts[0].lines + parts[0].indent + parts[0].entry.marker + ";" + Skeleton(parts[1..], tail)
  }

  /** The same with each marker line replaced by its block, the indent once more in front of its last brace. */
  function WrittenOut(parts: seq<Part>, tail: string): string
    requires forall p | p in parts :: p.entry.block != ""
  {
    if parts == [] then tail
    else
      var block := parts[0].entry.block;
      parts[0].lines + parts[0].indent + block[..|block| - 1] + parts[0].indent + "}" + WrittenOut(parts[1..], tail)
  }

  /** Marker lines stand on lines of their own, behind blanks and tabs; the blocks end in a brace. */
  predicate WellCut(parts: seq<Part>, first: bool) {
    parts == [] ||
    (&& (if parts[0].lines == "" then first else parts[0].lines[|parts[0].lines| - 1] == '\n')
     && (forall c | c in parts[0].indent :: c == ' ' || c == '\t')
     && parts[0].entry.block != "" && parts[0].entry.block[|parts[0].entry.block| - 1] == '}'
     && WellCut(parts[1..], false))
  }

  /** The parts are the entries, in whatever order. */
  predicate Uses(parts: seq<Part>, es: seq<Entry>) {
    (forall p | p in parts :: p.entry in es) && forall e | e in es :: exists p :: p in parts && p.entry == e
  }

  // ----- where the marker lines stand -----

  function PartLength(p: Part): nat {
    |p.lines| + |p.indent| + |p.entry.marker| + 1
  }

  /** Where part k begins; the end of the parts for k = |parts|. */
  function PartAt(parts: seq<Part>, k: nat): nat
    requires k <= |parts|
  {
    if k == 0 then 0 else PartAt(parts, k - 1) + PartLength(parts[k - 1])
  }

  function LineAt(parts: seq<Part>, k: nat): nat
    requires k < |parts|
  {
    PartAt(parts, k) + |parts[k].lines| + |parts[k].indent|
  }

  lemma {:induction false} PartsInOrder(parts: seq<Part>, j: nat, k: nat)
    requires j <= k <= |parts|
    ensures PartAt(parts, j) <= PartAt(parts, k)
    ensures j < k ==> LineAt(parts, j) < PartAt(parts, k)
    decreases k - j
  {
    if j < k { PartsInOrder(parts, j, k - 1); }
  }

  lemma {:induction false} PartAtRest(parts: seq<Part>, k: nat)
    requires 0 < k <= |parts|
    ensures PartAt(parts, k) == PartLength(parts[0]) + PartAt(parts[1..], k - 1)
  {
    if k > 1 {
      PartAtRest(parts, k - 1);
      assert parts[1..][k - 2] == parts[k - 1];
    }
  }

  /** From part k on, the skeleton is that of the remaining parts. */
  lemma {:induction false} SkeletonFrom(parts: seq<Part>, tail: string, k: nat)
    requires k <= |parts|
    ensures PartAt(parts, k) <= |Skeleton(parts, tail)|
    ensures Skeleton(parts, tail)[PartAt(parts, k)..] == Skeleton(parts[k..], tail)
    decreases |parts|
  {
    if k == 0 {
      assert parts[0..] == parts;
    } else {
      SkeletonFrom(parts[1..], tail, k - 1);
      PartAtRest(parts, k);
      var p := parts[0];
      var head := p.lines + p.indent + p.entry.marker + ";";
      assert |head| == PartLength(p) && Skeleton(parts, tail) == head + Skeleton(parts[1..], tail);
      assert parts[1..][k - 1..] == parts[k..];
    }
  }

  /** Part k of the skeleton: its lines and indent, its marker line, and the rest. */
  lemma PartOfSkeleton(parts: seq<Part>, tail: string, k: nat)
    requires k < |parts|
    ensures var s, from, at := Skeleton(parts, tail), PartAt(parts, k), LineAt(parts, k);
            && at + |Line(parts[k].entry)| == PartAt(parts, k + 1) <= |s|
            && s[from..at] == parts[k].lines + parts[k].indent
            && Occurs(s, Line(parts[k].entry), at)
  {
    var s, from, at := Skeleton(parts, tail), PartAt(parts, k), LineAt(parts, k);
    SkeletonFrom(parts, tail, k);
    SkeletonFrom(parts, tail, k + 1);
    var p := parts[k];
    var rest := Skeleton(parts[k + 1..], tail);
    assert parts[k..][0] == p && parts[k..][1..] == parts[k + 1..];
    var front := p.lines + p.indent;
    assert s[from..] == front + (p.entry.marker + ";") + rest;
    assert s[from..at] == s[from..][..|front|] == front;
    assert s[at..at + |Line(p.entry)|] == s[from..][|front|..|front| + |Line(p.entry)|] == p.entry.marker + ";";
  }

  lemma OnlyThere(parts: seq<Part>, tail: string, es: seq<Entry>, m: nat, j: int)
    requires m < |parts| && parts[m].entry in es && Ready(Skeleton(parts, tail), es)
    requires Occurs(Skeleton(parts, tail), Line(parts[m].entry), j)
    ensures j == LineAt(parts, m)
  {
    hide Skeleton, PartAt;
    PartOfSkeleton(parts, tail, m);
    assert OwnLine(Skeleton(parts, tail), parts[m].entry);
  }

  /** No marker line stands in the lines and the indent of part k, nor in the tail. */
  lemma NoneBetween(parts: seq<Part>, tail: string, es: seq<Entry>, k: nat, e: Entry, j: nat)
    requires k <= |parts| && e in es && Uses(parts, es) && Ready(Skeleton(parts, tail), es)
    requires PartAt(parts, k) <= j && (k < |parts| ==> j < LineAt(parts, k))
    ensures !Occurs(Skeleton(parts, tail), Line(e), j)
  {
    hide Skeleton, PartAt, Ready;
    if Occurs(Skeleton(parts, tail), Line(e), j) {
      var p :| p in parts && p.entry == e;
      var m :| 0 <= m < |parts| && parts[m] == p;
      OnlyThere(parts, tail, es, m, j);
      if m < k {
        PartsInOrder(parts, m, k);
      } else if m > k {
        PartsInOrder(parts, k, m);
      }
    }
  }

  lemma {:induction false} WellCutAt(parts: seq<Part>, first: bool, k: nat)
    requires WellCut(parts, first) && k < |parts|
    ensures var p := parts[k];
            && (if p.lines == "" then first && k == 0 else p.lines[|p.lines| - 1] == '\n')
            && IsIndent(p.indent) && EndsInBrace(p.entry.block)
  {
    if k > 0 { WellCutAt(parts[1..], false, k - 1); }
  }

  lemma IndentIs(parts: seq<Part>, tail: string, k: nat)
    requires k < |parts| && WellCut(parts, true)
    ensures LineAt(parts, k) <= |Skeleton(parts, tail)| &&
              Indent(Skeleton(parts, tail), LineAt(parts, k)) == parts[k].indent
  {
    hide Skeleton, WellCut, Occurs, Indent;
    WellCutAt(parts, true, k);
    PartOfSkeleton(parts, tail, k);
    assert parts[k].lines == "" ==> PartAt(parts, k) == 0;
    hide PartAt;
    IndentBehindLines(Skeleton(parts, tail), PartAt(parts, k), parts[k].lines, parts[k].indent);
  }

  lemma IndentBehindLines(s: string, from: nat, lines: string, indent: string)
    requires from + |lines| + |indent| <= |s| && s[from..from + |lines| + |indent|] == lines + indent
    requires IsIndent(indent) && (if lines == "" then from == 0 else lines[|lines| - 1] == '\n')
    ensures Indent(s, from + |lines| + |indent|) == indent
  {
    var start, at := from + |lines|, from + |lines| + |indent|;
    assert s[start..at] == s[from..at][|lines|..] == indent;
    forall i | start <= i < at ensures s[i] != '\n' { assert s[i] == s[start..at][i - start] && s[i] in indent; }
    if lines != "" { assert s[start - 1] == s[from..at][|lines| - 1]; }
    LineStartIs(s, at, start);
  }

  lemma RenderedIs(block: string, indent: string)
    requires EndsInBrace(block)
    ensures Rendered(block, indent) == block[..|block| - 1] + indent + "}"
  {
    assert block[|block| - 1..] == "}";
  }

  lemma SlotWritten(s: string, es: seq<Entry>, at: nat, e: Entry)
    requires at + |Line(e)| <= |s| && e in es && EndsInBrace(e.block) && Occurs(s, Line(e), at)
    requires forall f | f in es && f != e :: !Occurs(s, Line(f), at)
    ensures Substituted(s, es, at) == Rendered(e.block, Indent(s, at)) + Substituted(s, es, at + |Line(e)|)
  {
    assert es[0..] == es;
    SlotIs(s, es, at, 0, e);
    assert StepLength(s, es, at) == |Line(e)| && Piece(s, es, at) == Rendered(e.block, Indent(s, at));
    hide Slot, Occurs, Rendered, StepLength, Piece, Indent;
  }

  /** At a marker line no other one begins. */
  lemma OthersElsewhere(parts: seq<Part>, tail: string, es: seq<Entry>, k: nat, f: Entry)
    requires k < |parts| && f in es && f != parts[k].entry && Uses(parts, es) && Ready(Skeleton(parts, tail), es)
    ensures !Occurs(Skeleton(parts, tail), Line(f), LineAt(parts, k))
  {
    hide Skeleton, PartAt, Ready;
    if Occurs(Skeleton(parts, tail), Line(f), LineAt(parts, k)) {
      var q :| q in parts && q.entry == f;
      var m :| 0 <= m < |parts| && parts[m] == q;
      OnlyThere(parts, tail, es, m, LineAt(parts, k));
      PartsInOrder(parts, if m < k then m else k, if m < k then k else m);
    }
  }

  lemma LineSubstituted(parts: seq<Part>, tail: string, es: seq<Entry>, k: nat)
    requires k < |parts| && WellCut(parts, true) && Uses(parts, es) && Ready(Skeleton(parts, tail), es)
    ensures LineAt(parts, k) <= PartAt(parts, k + 1) <= |Skeleton(parts, tail)| && parts[k].entry.block != ""
    ensures var p, s := parts[k], Skeleton(parts, tail);
            var block := p.entry.block;
            Substituted(s, es, LineAt(parts, k)) ==
            block[..|block| - 1] + p.indent + "}" + Substituted(s, es, PartAt(parts, k + 1))
  {
    hide Skeleton, WellCut, PartAt, Ready, Occurs, Substituted, Rendered, Indent;
    var s, p, at := Skeleton(parts, tail), parts[k], LineAt(parts, k);
    assert p in parts && p.entry in es;
    PartOfSkeleton(parts, tail, k);
    WellCutAt(parts, true, k);
    IndentIs(parts, tail, k);
    forall f | f in es && f != p.entry ensures !Occurs(s, Line(f), at) { OthersElsewhere(parts, tail, es, k, f); }
    SlotWritten(s, es, at, p.entry);
    RenderedIs(p.entry.block, p.indent);
  }

  /** What the pass writes for part k. */
  lemma PartSubstituted(parts: seq<Part>, tail: string, es: seq<Entry>, k: nat)
    requires k < |parts| && WellCut(parts, true) && Uses(parts, es) && Ready(Skeleton(parts, tail), es)
    ensures PartAt(parts, k + 1) <= |Skeleton(parts, tail)| && parts[k].entry.block != ""
    ensures var p, s := parts[k], Skeleton(parts, tail);
            var block := p.entry.block;
            Substituted(s, es, PartAt(parts, k)) ==
            p.lines + p.indent + (block[..|block| - 1] + p.indent + "}" + Substituted(s, es, PartAt(parts, k + 1)))
  {
    hide Skeleton, WellCut, Uses, Ready, Occurs, Substituted;
    var s, from, at := Skeleton(parts, tail), PartAt(parts, k), LineAt(parts, k);
    PartOfSkeleton(parts, tail, k);
    forall e, j: nat | e in es && from <= j < at ensures !Occurs(s, Line(e), j) {
      NoneBetween(parts, tail, es, k, e, j);
    }
    hide PartAt;
    PlainCopied(s, es, from, at - from);
    LineSubstituted(parts, tail, es, k);
  }

  lemma {:induction false} SubstitutedFrom(parts: seq<Part>, tail: string, es: seq<Entry>, k: nat)
    requires k <= |parts| && WellCut(parts, true) && Uses(parts, es) && Ready(Skeleton(parts, tail), es)
    requires forall p | p in parts :: p.entry.block != ""
    ensures PartAt(parts, k) <= |Skeleton(parts, tail)|
    ensures forall p | p in parts[k..] :: p.entry.block != ""
    ensures Substituted(Skeleton(parts, tail), es, PartAt(parts, k)) == WrittenOut(parts[k..], tail)
    decreases |parts| - k
  {
    hide Ready, WellCut, Uses, Skeleton, PartAt, Substituted;
    var s := Skeleton(parts, tail);
    SkeletonFrom(parts, tail, k);
    if k == |parts| {
      TailSubstituted(parts, tail, es);
      assert parts[k..] == [];
    } else {
      PartSubstituted(parts, tail, es, k);
      SubstitutedFrom(parts, tail, es, k + 1);
      var p, rest := parts[k], WrittenOut(parts[k + 1..], tail);
      var block := p.entry.block;
      assert p.lines + p.indent + (block[..|block| - 1] + p.indent + "}" + rest)
          == p.lines + p.indent + block[..|block| - 1] + p.indent + "}" + rest;
      assert parts[k..][0] == parts[k] && parts[k..][1..] == parts[k + 1..];
    }
  }

  lemma TailSubstituted(parts: seq<Part>, tail: string, es: seq<Entry>)
    requires Uses(parts, es) && Ready(Skeleton(parts, tail), es)
    ensures PartAt(parts, |parts|) <= |Skeleton(parts, tail)|
    ensures Substituted(Skeleton(parts, tail), es, PartAt(parts, |parts|)) == tail
  {
    var s, from := Skeleton(parts, tail), PartAt(parts, |parts|);
    SkeletonFrom(parts, tail, |parts|);
    assert parts[|parts|..] == [];
    forall e, j: nat | e in es && from <= j < |s| ensures !Occurs(s, Line(e), j) {
      NoneBetween(parts, tail, es, |parts|, e, j);
    }
    hide Ready, Uses, PartAt;
    PlainCopied(s, es, from, |s| - from);
    assert Substituted(s, es, |s|) == "";
    assert s[from..|s|] == s[from..] == tail && tail + "" == tail;
  }

  lemma {:induction false} BlocksNotEmpty(parts: seq<Part>, first: bool)
    requires WellCut(parts, first)
    ensures forall p | p in parts :: p.entry.block != ""
  {
    if parts != [] {
      assert parts == [parts[0]] + parts[1..];
      BlocksNotEmpty(parts[1..], false);
    }
  }

  /** For a skeleton cut at its marker lines: the lines stay, and each block is there to the last character. */
  lemma RestoredText(parts: seq<Part>, tail: string, es: seq<Entry>)
    requires Clean(es) && WellCut(parts, true) && Uses(parts, es) && Ready(Skeleton(parts, tail), es)
    ensures forall p | p in parts :: p.entry.block != ""
    ensures Restore(Skeleton(parts, tail), es) == Some(WrittenOut(parts, tail))
  {
    hide Ready, WellCut, Uses, Clean, Restore, Substituted;
    BlocksNotEmpty(parts, true);
    RestoreExact(Skeleton(parts, tail), es);
    SubstitutedFrom(parts, tail, es, 0);
    assert parts[0..] == parts;
  }

  lemma UsesOne(p: Part)
    ensures Uses([p], [p.entry])
  {
    var parts, es := [p], [p.entry];
    assert parts[0] == p && es[0] == p.entry && parts[0] in parts && es[0] in es;
    forall e | e in es ensures exists q :: q in parts && q.entry == e { assert parts[0].entry == e; }
  }

  /** One block behind whole lines. */
  lemma OneBlockRestored(lines: string, indent: string, marker: string, rest: string, block: string)
    requires MarkerText(marker) && !Contains(block, marker) && block != "" && block[|block| - 1] == '}'
    requires (lines == "" || lines[|lines| - 1] == '\n') && forall c | c in indent :: c == ' ' || c == '\t'
    requires Ready(lines + indent + marker + ";" + rest, [Entry(marker, block)])
    ensures Restore(lines + indent + marker + ";" + rest, [Entry(marker, block)])
         == Some(lines + indent + block[..|block| - 1] + indent + "}" + rest)
  {
    var p := Part(lines, indent, Entry(marker, block));
    assert [p][1..] == [];
    UsesOne(p);
    assert Clean([p.entry]) && WellCut([p], true);
    assert Skeleton([p], rest) == lines + indent + marker + ";" + rest;
    hide Restore, Ready, Clean;
    RestoredText([p], rest, [p.entry]);
  }

  // ----- every skeleton that can be restored is cut like this -----

  /** Two marker lines do not overlap. */
  lemma LinesApart(s: string, es: seq<Entry>, e: Entry, i: nat, f: Entry, j: nat)
    requires Clean(es) && e in es && f in es && Occurs(s, Line(e), i) && Occurs(s, Line(f), j) && i < j
    ensures i + |Line(e)| <= j
  {
    var last := i + |e.marker|;
    assert s[last] == s[i..i + |Line(e)|][|e.marker|] == ';';
    assert |f.marker| == |e.marker| && MarkerText(f.marker);
    forall k | j <= k < j + |f.marker| ensures s[k] != ';' {
      assert s[k] == s[j..j + |Line(f)|][k - j] == f.marker[k - j] && f.marker[k - j] in f.marker;
    }
  }

  /** What stands in front of a marker line, back to the last one. */
  lemma LineBegins(s: string, es: seq<Entry>, start: nat, i: nat, e: Entry)
    requires Ready(s, es) && e in es && start <= i && Occurs(s, Line(e), i) && (start == 0 || s[start - 1] == ';')
    ensures var ls := LineStart(s, i);
            && start <= ls <= i && (start == 0 || start < ls) && (start < ls ==> s[ls - 1] == '\n')
            && IsIndent(s[ls..i]) && EndsInBrace(e.block)
  {
    assert OwnLine(s, e);
    var ls := LineStart(s, i);
    assert IsIndent(Indent(s, i));
    forall k | ls <= k < i ensures s[k] != ';' { assert s[k] == s[ls..i][k - ls] && s[k] in s[ls..i]; }
  }

  lemma NothingCut(tail: string, first: bool)
    ensures Skeleton([], tail) == tail && WellCut([], first)
  {
  }

  lemma CutFrom(s: string, es: seq<Entry>, start: nat, i: nat) returns (parts: seq<Part>, tail: string)
    requires Clean(es) && Ready(s, es) && start <= i <= |s| && (start == 0 || s[start - 1] == ';')
    requires forall e, j | e in es && start <= j < i :: !Occurs(s, Line(e), j)
    ensures Skeleton(parts, tail) == s[start..] && WellCut(parts, start == 0) && forall p | p in parts :: p.entry in es
    ensures forall e, j: nat | e in es && start <= j && Occurs(s, Line(e), j) :: exists p :: p in parts && p.entry == e
    decreases |s| - i
  {
    hide Clean, Ready, LineStart, WellCut, Skeleton;
    if i == |s| {
      NothingCut(s[start..], start == 0);
      parts, tail := [], s[start..];
    } else if e :| e in es && Occurs(s, Line(e), i) {
      var next, ls := i + |Line(e)|, LineStart(s, i);
      LineBegins(s, es, start, i, e);
      assert s[next - 1] == s[i..next][|e.marker|] == ';';
      var rest;
      rest, tail := CutFrom(s, es, next, next);
      parts := CutHere(s, es, start, ls, i, e, rest, tail);
      forall f, j: nat | f in es && start <= j && Occurs(s, Line(f), j) ensures exists p :: p in parts && p.entry == f {
        if j == i {
          OneLineAt(s, i, es, e, f);
          assert parts[0] in parts;
        } else {
          LinesApart(s, es, e, i, f, j);
          assert forall p :: p in rest ==> p in parts;
        }
      }
    } else {
      parts, tail := CutFrom(s, es, start, i + 1);
    }
  }

  lemma CutHere(s: string, es: seq<Entry>, start: nat, ls: nat, i: nat, e: Entry, rest: seq<Part>, tail: string)
    returns (parts: seq<Part>)
    requires start <= ls <= i && Occurs(s, Line(e), i) && e in es
    requires (start == 0 || start < ls) && (start < ls ==> s[ls - 1] == '\n') && IsIndent(s[ls..i]) &&
              EndsInBrace(e.block)
    requires Skeleton(rest, tail) == s[i + |Line(e)|..] && WellCut(rest, false) && forall p | p in rest :: p.entry in es
    ensures |parts| == |rest| + 1 && parts[1..] == rest && parts[0].entry == e
    ensures Skeleton(parts, tail) == s[start..] && WellCut(parts, start == 0) && forall p | p in parts :: p.entry in es
  {
    var p := Part(s[start..ls], s[ls..i], e);
    parts := [p] + rest;
    assert parts[1..] == rest;
    assert p.lines != "" ==> p.lines[|p.lines| - 1] == s[ls - 1];
    CutIs(s, start, ls, i, e, Skeleton(rest, tail));
    assert Skeleton(parts, tail) == p.lines + p.indent + e.marker + ";" + Skeleton(rest, tail);
    hide Skeleton, Occurs;
  }

  lemma CutIs(s: string, start: nat, ls: nat, i: nat, e: Entry, rest: string)
    requires start <= ls <= i && Occurs(s, Line(e), i) && rest == s[i + |Line(e)|..]
    ensures s[start..ls] + s[ls..i] + e.marker + ";" + rest == s[start..]
  {
    var line := s[i..i + |Line(e)|];
    assert line == e.marker + ";";
    assert s[start..] == s[start..ls] + s[ls..i] + line + rest;
    assert s[start..ls] + s[ls..i] + (e.marker + ";") + rest == s[start..ls] + s[ls..i] + e.marker + ";" + rest;
  }

  /**
   * Whatever is restored: the text is cut at its marker lines, and every block stands written out where its line
   * stood.
   */
  lemma RestoreWritesOut(s: string, es: seq<Entry>) returns (parts: seq<Part>, tail: string)
    requires Clean(es) && Restore(s, es).Some?
    ensures Skeleton(parts, tail) == s && WellCut(parts, true) && Uses(parts, es)
    ensures forall p | p in parts :: p.entry.block != ""
    ensures Restore(s, es) == Some(WrittenOut(parts, tail))
  {
    hide Clean, Restore, WellCut, Skeleton;
    RestoreExact(s, es);
    parts, tail := CutFrom(s, es, 0, 0);
    assert s[0..] == s;
    forall e | e in es ensures exists p :: p in parts && p.entry == e {
      assert OwnLine(s, e);
      var at :| 0 <= at <= |s| && Occurs(s, Line(e), at);
    }
    RestoredText(parts, tail, es);
  }
}
