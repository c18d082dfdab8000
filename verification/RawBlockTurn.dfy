/**
 * One turn of the loop of ConfService.restoreRawBlocks.
 *
 * Putting a block back removes its own marker line and moves the lines of the other markers; the block that
 * comes in holds none of them, since a marker stands apart from what surrounds it. So the substitution in one
 * pass has the same result before the turn and after it.
 */
module RawBlockTurn {
  import opened Text
  import opened RawBlocks

  // ----- one turn of the loop: what happens to the other markers -----

  /** A text no marker line or marker can run into: its last character is none of theirs. */
  predicate Fence(c: char) {
    c == ' ' || c == '\t' || c == '\n' || c == '}'
  }

  predicate MarkerLike(u: string) {
    u != "" && u[|u| - 1] != '}' && forall i | 0 <= i < |u| :: !Fence(u[i])
  }

  /** Every occurrence of u in a + b + c lies in a or in c. */
  ghost predicate Apart(a: string, b: string, c: string, u: string) {
    forall i | Occurs(a + b + c, u, i) :: i + |u| <= |a| || i >= |a| + |b|
  }

  lemma ApartOccurs(a: string, b: string, c: string, u: string, i: int)
    requires Apart(a, b, c, u)
    ensures Occurs(a + b + c, u, i) <==> Occurs(a, u, i) || Occurs(c, u, i - |a| - |b|)
  {
    var s := a + b + c;
    if Occurs(a, u, i) { assert s[i..i + |u|] == a[i..i + |u|]; }
    var j := i - |a| - |b|;
    if Occurs(c, u, j) { assert s[i..i + |u|] == c[j..j + |u|]; }
    if Occurs(s, u, i) {
      if i + |u| <= |a| {
        assert s[i..i + |u|] == a[i..i + |u|];
      } else {
        assert s[i..i + |u|] == c[j..j + |u|];
      }
    }
  }

  lemma OccursBounds(s: string, u: string, i: int)
    requires Occurs(s, u, i)
    ensures 0 <= i && i + |u| <= |s|
    ensures s == s[..i] + u + s[i + |u|..]
  {
  }

  lemma OutOfRange(s: string, u: string, i: int)
    requires i < 0 || i + |u| > |s|
    ensures !Occurs(s, u, i)
  {
  }

  lemma OccursChar(s: string, u: string, i: int, k: nat)
    requires Occurs(s, u, i) && k < |u|
    ensures s[i + k] == u[k]
  {
    assert s[i..i + |u|][k] == u[k];
  }

  /** Text that ends in a fence, and an inserted text that ends in one and does not hold u, keep u apart. */
  lemma RenderedApart(a: string, block: string, indent: string, c: string, u: string)
    requires a != "" ==> Fence(a[|a| - 1])
    requires EndsInBrace(block) && IsIndent(indent) && MarkerLike(u) && !Contains(block, u)
    ensures Apart(a, Rendered(block, indent), c, u)
  {
    var r := Rendered(block, indent);
    var s := a + r + c;
    forall i | Occurs(s, u, i) && i < |a| + |r| && i + |u| > |a| ensures false {
      if i < |a| {
        OccursChar(s, u, i, |a| - 1 - i);
      } else if i + |u| >= |a| + |r| {
        OccursChar(s, u, i, |a| + |r| - 1 - i);
      } else {
        InsideRendered(a, block, indent, c, u, i);
      }
    }
  }

  lemma InsideRendered(a: string, block: string, indent: string, c: string, u: string, i: int)
    requires EndsInBrace(block) && IsIndent(indent) && MarkerLike(u)
    requires Occurs(a + Rendered(block, indent) + c, u, i) && |a| <= i && i + |u| < |a| + |Rendered(block, indent)|
    ensures Contains(block, u)
  {
    var r := Rendered(block, indent);
    var s := a + r + c;
    var n := |block| - 1;
    var o := i - |a|;
    if o + |u| > n {
      var k := if o >= n then 0 else n - o;
      assert s[i + k] == r[o + k] == indent[o + k - n];
      assert indent[o + k - n] in indent;
      OccursChar(s, u, i, k);
    } else {
      assert s[i..i + |u|] == r[o..o + |u|] == block[o..o + |u|];
      assert Occurs(block, u, o);
    }
  }

  lemma OccursPrefix(s: string, u: string, i: int, n: nat)
    requires Occurs(s, u, i) && n <= |u|
    ensures s[i..i + n] == u[..n]
  {
    assert s[i..i + |u|][..n] == s[i..i + n];
  }

  /** The characters of a marker or a marker line. */
  lemma MarkerChars(e: Entry, u: string)
    requires MarkerText(e.marker) && (u == Line(e) || u == e.marker)
    ensures u[..|e.marker|] == e.marker && MarkerLike(u)
    ensures forall k | 0 <= k < |e.marker| :: u[k] != ';'
  {
    assert forall k :: 0 <= k < |e.marker| ==> u[k] == e.marker[k] && e.marker[k] in e.marker;
  }

  /** Another marker line never overlaps a marker line. */
  lemma LineApart(a: string, e: Entry, c: string, u: string, f: Entry)
    requires a != "" ==> Fence(a[|a| - 1])
    requires MarkerText(e.marker) && MarkerText(f.marker) && |e.marker| == |f.marker| && e.marker != f.marker
    requires u == Line(f) || u == f.marker
    ensures Apart(a, Line(e), c, u)
  {
    var w := Line(e);
    var s := a + w + c;
    MarkerChars(f, u);
    assert s[|a|..|a| + |e.marker|] == e.marker;
    forall i | Occurs(s, u, i) && i < |a| + |w| && i + |u| > |a| ensures false {
      if i < |a| {
        OccursChar(s, u, i, |a| - 1 - i);
      } else if i == |a| {
        OccursPrefix(s, u, i, |f.marker|);
      } else {
        OccursChar(s, u, i, |a| + |w| - 1 - i);
      }
    }
  }

  /** A marker line lies apart from any other copy of its own marker, too. */
  lemma OwnMarkerApart(a: string, e: Entry, c: string, i: int)
    requires a != "" ==> Fence(a[|a| - 1])
    requires MarkerText(e.marker)
    requires Occurs(a + Line(e) + c, e.marker, i)
    ensures i == |a| || i + |e.marker| <= |a| || i >= |a| + |Line(e)|
  {
    MarkerChars(e, e.marker);
    if i < |a| && i + |e.marker| > |a| {
      OccursChar(a + Line(e) + c, e.marker, i, |a| - 1 - i);
    } else if |a| < i < |a| + |Line(e)| {
      OccursChar(a + Line(e) + c, e.marker, i, |a| + |e.marker| - i);
    }
  }

  // ----- indentation -----

  lemma {:induction false} LineStartIs(s: string, i: nat, r: nat)
    requires r <= i <= |s| && (r > 0 ==> s[r - 1] == '\n') && forall k | r <= k < i :: s[k] != '\n'
    ensures LineStart(s, i) == r
  {
    if r < i { LineStartIs(s, i - 1, r); }
  }

  lemma IndentOfPrefix(s: string, t: string, i: nat)
    requires i <= |s| && i <= |t| && s[..i] == t[..i]
    ensures Indent(s, i) == Indent(t, i)
  {
    var r := LineStart(s, i);
    assert forall k :: 0 <= k < i ==> t[k] == t[..i][k] == s[k];
    LineStartIs(t, i, r);
    assert s[r..i] == s[..i][r..] == t[r..i];
  }

  predicate Blank(c: char) {
    c == ' ' || c == '\t' || c == '\n'
  }

  lemma IndentInside(a: string, b: string, c: string, j: nat)
    requires j <= |c| && LineStart(c, j) > 0
    ensures Indent(a + b + c, |a| + |b| + j) == Indent(c, j)
  {
    var s := a + b + c;
    var n, r := |a| + |b|, LineStart(c, j);
    assert s[n..] == c;
    assert forall k :: n + r <= k < n + j ==> s[k] == c[k - n];
    assert s[n + r - 1] == c[r - 1];
    LineStartIs(s, n + j, n + r);
    assert s[n + r..n + j] == c[r..j];
  }

  lemma InkInIndent(a: string, b: string, c: string, j: nat)
    requires b != "" && !Blank(b[|b| - 1]) && j <= |c| && LineStart(c, j) == 0
    ensures !IsIndent(Indent(a + b + c, |a| + |b| + j))
  {
    var s := a + b + c;
    var n := |a| + |b|;
    var q := LineStart(s, n + j);
    assert s[n - 1] == b[|b| - 1];
    assert forall k :: n <= k < n + j ==> s[k] == c[k - n];
    assert s[q..n + j][n - 1 - q] == s[n - 1] && s[n - 1] in s[q..n + j];
  }

  /** Behind a text that ends in ink, an indent is one exactly if a newline of the rest comes before it. */
  lemma IndentBehind(a: string, b: string, c: string, j: nat)
    requires b != "" && !Blank(b[|b| - 1]) && j <= |c|
    ensures var i := |a| + |b| + j;
            if LineStart(c, j) > 0 then Indent(a + b + c, i) == Indent(c, j) else !IsIndent(Indent(a + b + c, i))
  {
    if LineStart(c, j) > 0 { IndentInside(a, b, c, j); } else { InkInIndent(a, b, c, j); }
  }

  lemma IndentEndsInFence(s: string, at: nat)
    requires at <= |s| && IsIndent(Indent(s, at)) && at > 0
    ensures Fence(s[at - 1])
  {
    var r := LineStart(s, at);
    if r < at { assert s[r..at][at - 1 - r] in Indent(s, at); }
  }

  // ----- another entry, before and after the turn -----

  lemma OwnLineMoves(a: string, b: string, b': string, c: string, f: Entry)
    requires Apart(a, b, c, Line(f)) && Apart(a, b', c, Line(f))
    requires b != "" && !Blank(b[|b| - 1]) && b' != "" && !Blank(b'[|b'| - 1])
    requires OwnLine(a + b + c, f)
    ensures OwnLine(a + b' + c, f)
  {
    hide Occurs, Apart, Indent, IsIndent, Blank;
    var s, t := a + b + c, a + b' + c;
    var u := Line(f);
    var at :| 0 <= at <= |s| && Occurs(s, u, at) && IsIndent(Indent(s, at)) && forall i | Occurs(s, u, i) :: i == at;
    ApartOccurs(a, b, c, u, at);
    var at' := if Occurs(a, u, at) then at else at - |b| + |b'|;
    ApartOccurs(a, b', c, u, at');
    if Occurs(a, u, at) {
      OccursBounds(a, u, at);
      assert s[..at] == a[..at] == t[..at];
      IndentOfPrefix(s, t, at);
    } else {
      OccursBounds(c, u, at - |a| - |b|);
      IndentBehind(a, b, c, at - |a| - |b|);
      IndentBehind(a, b', c, at - |a| - |b|);
    }
    forall i | Occurs(t, u, i) ensures i == at' {
      ApartOccurs(a, b', c, u, i);
      ApartOccurs(a, b, c, u, if Occurs(a, u, i) then i else i - |b'| + |b|);
      if !Occurs(a, u, i) {
        OccursBounds(c, u, i - |a| - |b'|);
        OutOfRange(a, u, i - |b'| + |b|);
      }
    }
  }

  lemma NoStrayMoves(a: string, b: string, b': string, c: string, f: Entry)
    requires Apart(a, b, c, Line(f)) && Apart(a, b', c, Line(f))
    requires Apart(a, b, c, f.marker) && Apart(a, b', c, f.marker)
    requires f.marker != "" && NoStray(a + b + c, f)
    ensures NoStray(a + b' + c, f)
  {
    var s, t := a + b + c, a + b' + c;
    forall i | Occurs(t, f.marker, i) ensures Occurs(t, Line(f), i) {
      ApartOccurs(a, b', c, f.marker, i);
      var i' := if Occurs(a, f.marker, i) then i else i - |b'| + |b|;
      ApartOccurs(a, b, c, f.marker, i');
      ApartOccurs(a, b, c, Line(f), i');
      ApartOccurs(a, b', c, Line(f), i);
    }
  }

  // ----- one turn -----

  /** The turn for entry e at position |a|: a + Line(e) + c becomes a + block + c. */
  ghost predicate Turn(a: string, e: Entry, c: string) {
    var s := a + Line(e) + c;
    && MarkerText(e.marker) && EndsInBrace(e.block)
    && IsIndent(Indent(s, |a|))
    && (forall i | Occurs(s, Line(e), i) :: i == |a|)
    && (a != "" ==> Fence(a[|a| - 1]))
  }

  function Put(a: string, e: Entry, c: string): string
    requires e.block != ""
  {
    a + Rendered(e.block, Indent(a + Line(e) + c, |a|)) + c
  }

  /** The loop's checks hold exactly if the marker line stands once, behind an indent, and the block is closed. */
  lemma TurnHappens(s: string, e: Entry)
    requires MarkerText(e.marker)
    ensures RestoreOne(s, e).Some? <==> OwnLine(s, e) && EndsInBrace(e.block)
    ensures RestoreOne(s, e).Some? ==>
              var at := FindText(s, Line(e), 0).value;
              var a, c := s[..at], s[at + |Line(e)|..];
              s == a + Line(e) + c && Turn(a, e, c) && RestoreOne(s, e) == Some(Put(a, e, c))
  {
    hide Occurs, FindText, Indent, IsIndent, MarkerText;
    var w := Line(e);
    var first := FindText(s, w, 0);
    if first.Some? {
      var at := first.value;
      OccursBounds(s, w, at);
      var a, c := s[..at], s[at + |w|..];
      if IsIndent(Indent(s, at)) {
        if at > 0 { IndentEndsInFence(s, at); }
        forall i | Occurs(s, w, i) ensures i == at || i >= at + |w| {
          LineHasMarker(s, e, i);
          OccursBounds(s, w, i);
          OwnMarkerApart(a, e, c, i);
        }
      }
    }
  }

  lemma LineHasMarker(s: string, e: Entry, i: int)
    requires Occurs(s, Line(e), i)
    ensures Occurs(s, e.marker, i)
  {
    OccursPrefix(s, Line(e), i, |e.marker|);
    assert Line(e)[..|e.marker|] == e.marker;
  }

  lemma OtherEntry(a: string, e: Entry, c: string, f: Entry)
    requires Turn(a, e, c)
    requires MarkerText(f.marker) && |e.marker| == |f.marker| && e.marker != f.marker && !Contains(e.block, f.marker)
    ensures Apart(a, Line(e), c, Line(f)) && Apart(a, Line(e), c, f.marker)
    ensures var r := Rendered(e.block, Indent(a + Line(e) + c, |a|));
            Apart(a, r, c, Line(f)) && Apart(a, r, c, f.marker)
    ensures OwnLine(a + Line(e) + c, f) <==> OwnLine(Put(a, e, c), f)
    ensures NoStray(a + Line(e) + c, f) <==> NoStray(Put(a, e, c), f)
  {
    var w := Line(e);
    var indent := Indent(a + w + c, |a|);
    var r := Rendered(e.block, indent);
    MarkerChars(f, f.marker);
    MarkerChars(f, Line(f));
    LineNotInside(e.block, f);
    LineApart(a, e, c, Line(f), f);
    LineApart(a, e, c, f.marker, f);
    RenderedApart(a, e.block, indent, c, Line(f));
    RenderedApart(a, e.block, indent, c, f.marker);
    if OwnLine(a + w + c, f) { OwnLineMoves(a, w, r, c, f); }
    if OwnLine(a + r + c, f) { OwnLineMoves(a, r, w, c, f); }
    if NoStray(a + w + c, f) { NoStrayMoves(a, w, r, c, f); }
    if NoStray(a + r + c, f) { NoStrayMoves(a, r, w, c, f); }
  }

  lemma LineNotInside(block: string, f: Entry)
    requires !Contains(block, f.marker)
    ensures !Contains(block, Line(f))
  {
    assert Line(f)[..|f.marker|] == f.marker;
    forall i | Occurs(block, Line(f), i) ensures Occurs(block, f.marker, i) {
      OccursPrefix(block, Line(f), i, |f.marker|);
    }
  }

  /** Where the entry's marker or marker line still stands after the turn. */
  lemma OwnApart(a: string, e: Entry, c: string, u: string, i: int)
    requires Turn(a, e, c) && !Contains(e.block, e.marker) && (u == Line(e) || u == e.marker)
    ensures Occurs(Put(a, e, c), u, i) <==>
            Occurs(a, u, i) || Occurs(c, u, i - |a| - |Rendered(e.block, Indent(a + Line(e) + c, |a|))|)
  {
    var indent := Indent(a + Line(e) + c, |a|);
    MarkerChars(e, u);
    LineNotInside(e.block, e);
    RenderedApart(a, e.block, indent, c, u);
    ApartOccurs(a, Rendered(e.block, indent), c, u, i);
  }

  lemma OwnLineGone(a: string, e: Entry, c: string)
    requires Turn(a, e, c) && !Contains(e.block, e.marker)
    ensures forall i :: !Occurs(Put(a, e, c), Line(e), i)
  {
    var w := Line(e);
    var r := Rendered(e.block, Indent(a + w + c, |a|));
    forall i ensures !Occurs(Put(a, e, c), w, i) {
      OwnApart(a, e, c, w, i);
      OccursPieces(a, w, c, w, i);
      OccursPieces(a, w, c, w, i - |r| + |w|);
    }
  }

  /** The entry's marker was only in its marker line iff none is left. */
  lemma OwnMarkerGone(a: string, e: Entry, c: string)
    requires Turn(a, e, c) && !Contains(e.block, e.marker)
    ensures NoStray(a + Line(e) + c, e) <==> forall i :: !Occurs(Put(a, e, c), e.marker, i)
  {
    hide Indent, Rendered, Contains, IsIndent;
    var w := Line(e);
    var s, t := a + w + c, Put(a, e, c);
    var r := Rendered(e.block, Indent(s, |a|));
    assert s[|a|..|a| + |w|] == w;
    forall i | Occurs(s, e.marker, i) && !Occurs(s, w, i)
      ensures Occurs(t, e.marker, if i + |e.marker| <= |a| then i else i - |w| + |r|)
    {
      OwnMarkerApart(a, e, c, i);
      StrayInPiece(a, w, c, e.marker, i);
      OwnApart(a, e, c, e.marker, if i + |e.marker| <= |a| then i else i - |w| + |r|);
    }
    forall i | Occurs(t, e.marker, i)
      ensures var i' := if Occurs(a, e.marker, i) then i else i - |r| + |w|;
              Occurs(s, e.marker, i') && !Occurs(s, w, i')
    {
      OwnApart(a, e, c, e.marker, i);
      OccursPieces(a, w, c, e.marker, if Occurs(a, e.marker, i) then i else i - |r| + |w|);
    }
  }

  lemma OccursPieces(a: string, b: string, c: string, u: string, i: int)
    ensures Occurs(a, u, i) || Occurs(c, u, i - |a| - |b|) ==> Occurs(a + b + c, u, i)
  {
    var s, j := a + b + c, i - |a| - |b|;
    if Occurs(a, u, i) { assert s[i..i + |u|] == a[i..i + |u|]; }
    if Occurs(c, u, j) { assert s[i..i + |u|] == c[j..j + |u|]; }
  }

  lemma StrayInPiece(a: string, b: string, c: string, u: string, i: int)
    requires Occurs(a + b + c, u, i) && (i + |u| <= |a| || i >= |a| + |b|)
    ensures Occurs(a, u, i) || Occurs(c, u, i - |a| - |b|)
  {
    var s, j := a + b + c, i - |a| - |b|;
    if i + |u| <= |a| { assert s[i..i + |u|] == a[i..i + |u|]; } else { assert s[i..i + |u|] == c[j..j + |u|]; }
  }

  // ----- the one-pass substitution does not see the turn -----

  lemma {:induction false} SlotNone(s: string, es: seq<Entry>, i: nat, k: nat)
    requires i <= |s| && k <= |es| && forall e | e in es :: !Occurs(s, Line(e), i)
    ensures Slot(s, es, i, k) == None
    decreases |es| - k
  {
    if k < |es| { SlotNone(s, es, i, k + 1); }
  }

  lemma {:induction false} SlotIs(s: string, es: seq<Entry>, i: nat, k: nat, e: Entry)
    requires i <= |s| && k <= |es| && e in es[k..] && e.block != "" && Occurs(s, Line(e), i)
    requires forall f | f in es && f != e :: !Occurs(s, Line(f), i)
    ensures Slot(s, es, i, k) == Some((|Line(e)|, Rendered(e.block, Indent(s, i))))
    decreases |es| - k
  {
    if es[k] != e {
      assert es[k..] == [es[k]] + es[k + 1..];
      SlotIs(s, es, i, k + 1, e);
    }
  }

  lemma {:induction false} SlotSame(s: string, i: nat, t: string, j: nat, es: seq<Entry>, k: nat)
    requires i <= |s| && j <= |t| && k <= |es| && Alike(s, i, t, j, es)
    ensures Slot(s, es, i, k) == Slot(t, es, j, k)
    decreases |es| - k
  {
    if k < |es| { SlotSame(s, i, t, j, es, k + 1); }
  }

  lemma {:induction false} SlotFits(s: string, es: seq<Entry>, i: nat, k: nat, hi: nat)
    requires i <= |s| && k <= |es| && Slot(s, es, i, k).Some?
    requires forall e | e in es && Occurs(s, Line(e), i) :: i + |Line(e)| <= hi
    ensures i + Slot(s, es, i, k).value.0 <= hi
    decreases |es| - k
  {
    if !(Occurs(s, Line(es[k]), i) && es[k].block != "") { SlotFits(s, es, i, k + 1, hi); }
  }

  lemma {:induction false} NothingToSubstitute(s: string, es: seq<Entry>, i: nat)
    requires i <= |s| && forall e, j | e in es :: !Occurs(s, Line(e), j)
    ensures Substituted(s, es, i) == s[i..]
    decreases |s| - i
  {
    if i < |s| {
      SlotNone(s, es, i, 0);
      NothingToSubstitute(s, es, i + 1);
      assert s[i..] == [s[i]] + s[i + 1..];
    }
  }

  lemma SliceStep(s: string, i: nat, n: nat, rest: string)
    requires n > 0 && i + n <= |s|
    ensures [s[i]] + (s[i + 1..i + n] + rest) == s[i..i + n] + rest
  {
    assert s[i..i + n] == [s[i]] + s[i + 1..i + n];
  }

  /** Text without marker lines is copied. */
  lemma {:induction false} PlainCopied(s: string, es: seq<Entry>, i: nat, n: nat)
    requires i + n <= |s| && forall e, j | e in es && i <= j < i + n :: !Occurs(s, Line(e), j)
    ensures Substituted(s, es, i) == s[i..i + n] + Substituted(s, es, i + n)
    decreases n
  {
    if n > 0 {
      SlotNone(s, es, i, 0);
      assert Substituted(s, es, i) == [s[i]] + Substituted(s, es, i + 1);
      hide Substituted, Slot;
      PlainCopied(s, es, i + 1, n - 1);
      SliceStep(s, i, n, Substituted(s, es, i + n));
    } else {
      assert s[i..i] + Substituted(s, es, i) == Substituted(s, es, i);
    }
  }

  /** At positions i of s and j of t the same marker lines stand, behind the same indent. */
  ghost predicate Alike(s: string, i: nat, t: string, j: nat, es: seq<Entry>)
    requires i <= |s| && j <= |t|
  {
    forall e | e in es ::
      Occurs(s, Line(e), i) == Occurs(t, Line(e), j) && (Occurs(s, Line(e), i) ==> Indent(s, i) == Indent(t, j))
  }

  /** From i and j on, the two texts hold the same characters and the same marker lines. */
  ghost predicate AlikeFrom(s: string, i: nat, t: string, j: nat, es: seq<Entry>)
    requires i <= |s| && j <= |t|
    decreases |s| - i
  {
    if i == |s| then j == |t|
    else j < |t| && s[i] == t[j] && Alike(s, i, t, j, es) && AlikeFrom(s, i + 1, t, j + 1, es)
  }

  lemma {:induction false} AlikeFromNext(s: string, i: nat, t: string, j: nat, es: seq<Entry>, n: nat)
    requires i <= |s| && j <= |t| && AlikeFrom(s, i, t, j, es) && n <= |s| - i
    ensures j + n <= |t| && AlikeFrom(s, i + n, t, j + n, es)
    decreases n
  {
    if n > 0 { AlikeFromNext(s, i + 1, t, j + 1, es, n - 1); }
  }

  lemma AlikeHead(s: string, i: nat, t: string, j: nat, es: seq<Entry>)
    requires i <= |s| && j <= |t| && AlikeFrom(s, i, t, j, es)
    ensures i == |s| <==> j == |t|
    ensures i < |s| ==> s[i] == t[j] && Alike(s, i, t, j, es)
  {
  }

  lemma StepSame(s: string, i: nat, t: string, j: nat, es: seq<Entry>)
    requires i < |s| && j < |t| && Alike(s, i, t, j, es) && s[i] == t[j]
    ensures StepLength(s, es, i) == StepLength(t, es, j) && Piece(s, es, i) == Piece(t, es, j)
  {
    SlotSame(s, i, t, j, es, 0);
  }

  lemma {:induction false} SuffixSame(s: string, i: nat, t: string, j: nat, es: seq<Entry>)
    requires i <= |s| && j <= |t| && AlikeFrom(s, i, t, j, es)
    ensures Substituted(s, es, i) == Substituted(t, es, j)
    decreases |s| - i
  {
    hide AlikeFrom, Alike, StepLength, Piece;
    AlikeHead(s, i, t, j, es);
    if i < |s| {
      var n := StepLength(s, es, i);
      AlikeFromNext(s, i, t, j, es, n);
      SuffixSame(s, i + n, t, j + n, es);
      StepSame(s, i, t, j, es);
    }
  }

  /** A marker line at position o ends before m. */
  ghost predicate Fits(s: string, es: seq<Entry>, o: nat, m: nat) {
    forall e | e in es && Occurs(s, Line(e), o) :: o + |Line(e)| <= m
  }

  /** Up to m, the two texts hold the same characters and the same marker lines. */
  ghost predicate AlikeUpTo(s: string, t: string, es: seq<Entry>, m: nat) {
    && m <= |s| && m <= |t|
    && forall o | 0 <= o < m :: s[o] == t[o] && Alike(s, o, t, o, es) && Fits(s, es, o, m)
  }

  lemma StepFits(s: string, es: seq<Entry>, i: nat, m: nat)
    requires i < m <= |s| && Fits(s, es, i, m)
    ensures i + StepLength(s, es, i) <= m
  {
    if Slot(s, es, i, 0).Some? { SlotFits(s, es, i, 0, m); }
  }

  lemma {:induction false} PrefixSame(s: string, t: string, es: seq<Entry>, i: nat, m: nat)
    requires AlikeUpTo(s, t, es, m) && i <= m
    requires Substituted(s, es, m) == Substituted(t, es, m)
    ensures Substituted(s, es, i) == Substituted(t, es, i)
    decreases m - i
  {
    hide Fits, Alike, StepLength, Piece;
    if i < m {
      StepFits(s, es, i, m);
      StepSame(s, i, t, i, es);
      PrefixSame(s, t, es, i + StepLength(s, es, i), m);
    }
  }

  /** Every marker line of an entry stands behind an indent. */
  ghost predicate Indented(s: string, es: seq<Entry>) {
    forall e, i | e in es && Occurs(s, Line(e), i) :: IsIndent(Indent(s, i))
  }

  /** What one turn needs to know about all entries. */
  ghost predicate TurnOf(a: string, e: Entry, c: string, es: seq<Entry>) {
    && Turn(a, e, c) && e in es
    && (forall f | f in es :: MarkerText(f.marker) && |f.marker| == |e.marker| && !Contains(e.block, f.marker))
    && (forall f | f in es && f != e :: f.marker != e.marker)
  }

  /** Where the marker lines stand before the turn. */
  lemma LinesBefore(a: string, e: Entry, c: string, es: seq<Entry>, f: Entry, i: int)
    requires TurnOf(a, e, c, es) && f in es
    ensures Occurs(a + Line(e) + c, Line(f), i) <==>
            (f == e && i == |a|) || Occurs(a, Line(f), i) || Occurs(c, Line(f), i - |a| - |Line(e)|)
  {
    if f == e {
      OccursPieces(a, Line(e), c, Line(e), i);
      assert (a + Line(e) + c)[|a|..|a| + |Line(e)|] == Line(e);
    } else {
      LineApart(a, e, c, Line(f), f);
      ApartOccurs(a, Line(e), c, Line(f), i);
    }
  }

  /** Where they stand after it; r is the rendered block. */
  lemma LinesAfter(a: string, e: Entry, c: string, es: seq<Entry>, f: Entry, i: int)
    requires TurnOf(a, e, c, es) && f in es
    ensures Occurs(Put(a, e, c), Line(f), i) <==>
            Occurs(a, Line(f), i) || Occurs(c, Line(f), i - |a| - |Rendered(e.block, Indent(a + Line(e) + c, |a|))|)
  {
    var indent := Indent(a + Line(e) + c, |a|);
    MarkerChars(f, Line(f));
    LineNotInside(e.block, f);
    RenderedApart(a, e.block, indent, c, Line(f));
    ApartOccurs(a, Rendered(e.block, indent), c, Line(f), i);
  }

  lemma TailIndent(a: string, e: Entry, c: string, es: seq<Entry>, j: nat)
    requires Turn(a, e, c) && j <= |c|
    requires IsIndent(Indent(a + Line(e) + c, |a| + |Line(e)| + j))
    ensures var r := Rendered(e.block, Indent(a + Line(e) + c, |a|));
            Indent(a + r + c, |a| + |r| + j) == Indent(a + Line(e) + c, |a| + |Line(e)| + j)
  {
    hide IsIndent, Contains;
    IndentBehind(a, Line(e), c, j);
    IndentBehind(a, Rendered(e.block, Indent(a + Line(e) + c, |a|)), c, j);
  }

  lemma TailAlike(a: string, e: Entry, c: string, es: seq<Entry>, j: nat)
    requires TurnOf(a, e, c, es) && Indented(a + Line(e) + c, es) && j < |c|
    ensures var r := Rendered(e.block, Indent(a + Line(e) + c, |a|));
            Alike(a + Line(e) + c, |a| + |Line(e)| + j, a + r + c, |a| + |r| + j, es)
  {
    hide Occurs, Indent, Rendered, IsIndent, Contains, MarkerText;
    var w := Line(e);
    var r := Rendered(e.block, Indent(a + w + c, |a|));
    var s, t := a + w + c, a + r + c;
    var x, y := |a| + |w| + j, |a| + |r| + j;
    forall f | f in es
      ensures Occurs(s, Line(f), x) == Occurs(t, Line(f), y)
      ensures Occurs(s, Line(f), x) ==> Indent(s, x) == Indent(t, y)
    {
      LinesBefore(a, e, c, es, f, x);
      LinesAfter(a, e, c, es, f, y);
      OutOfRange(a, Line(f), x);
      OutOfRange(a, Line(f), y);
      if Occurs(s, Line(f), x) { TailIndent(a, e, c, es, j); }
    }
  }

  lemma BlockSame(a: string, e: Entry, c: string, es: seq<Entry>)
    requires TurnOf(a, e, c, es) && Indented(a + Line(e) + c, es)
    ensures Substituted(a + Line(e) + c, es, |a|) == Substituted(Put(a, e, c), es, |a|)
  {
    hide Occurs, Indent, Rendered, Contains, Indented;
    var w := Line(e);
    var s := a + w + c;
    var r := Rendered(e.block, Indent(s, |a|));
    SlotAtTurn(a, e, c, es);
    BlockCopied(a, e, c, es);
    TailSame(a, e, c, es);
  }

  lemma SlotAtTurn(a: string, e: Entry, c: string, es: seq<Entry>)
    requires TurnOf(a, e, c, es)
    ensures Slot(a + Line(e) + c, es, |a|, 0) == Some((|Line(e)|, Rendered(e.block, Indent(a + Line(e) + c, |a|))))
  {
    var s := a + Line(e) + c;
    forall f | f in es && f != e ensures !Occurs(s, Line(f), |a|) { LinesBefore(a, e, c, es, f, |a|); }
    LinesBefore(a, e, c, es, e, |a|);
    assert es[0..] == es;
    SlotIs(s, es, |a|, 0, e);
  }

  lemma BlockCopied(a: string, e: Entry, c: string, es: seq<Entry>)
    requires TurnOf(a, e, c, es)
    ensures var r := Rendered(e.block, Indent(a + Line(e) + c, |a|));
            Substituted(a + r + c, es, |a|) == r + Substituted(a + r + c, es, |a| + |r|)
  {
    hide Occurs, Indent, Rendered, Substituted, Contains, MarkerText;
    var r := Rendered(e.block, Indent(a + Line(e) + c, |a|));
    var t := a + r + c;
    forall f, i | f in es && |a| <= i < |a| + |r| ensures !Occurs(t, Line(f), i) {
      LinesAfter(a, e, c, es, f, i);
      OutOfRange(a, Line(f), i);
      OutOfRange(c, Line(f), i - |a| - |r|);
    }
    PlainCopied(t, es, |a|, |r|);
    assert t[|a|..|a| + |r|] == r;
  }

  lemma TailSame(a: string, e: Entry, c: string, es: seq<Entry>)
    requires TurnOf(a, e, c, es) && Indented(a + Line(e) + c, es)
    ensures var r := Rendered(e.block, Indent(a + Line(e) + c, |a|));
            Substituted(a + Line(e) + c, es, |a| + |Line(e)|) == Substituted(a + r + c, es, |a| + |r|)
  {
    hide Occurs, Indent, Rendered, Substituted, Indented, AlikeFrom, Contains, MarkerText;
    TailAlikeFrom(a, e, c, es, 0);
    var r := Rendered(e.block, Indent(a + Line(e) + c, |a|));
    SuffixSame(a + Line(e) + c, |a| + |Line(e)|, a + r + c, |a| + |r|, es);
  }

  lemma {:induction false} TailAlikeFrom(a: string, e: Entry, c: string, es: seq<Entry>, j: nat)
    requires TurnOf(a, e, c, es) && Indented(a + Line(e) + c, es) && j <= |c|
    ensures var r := Rendered(e.block, Indent(a + Line(e) + c, |a|));
            AlikeFrom(a + Line(e) + c, |a| + |Line(e)| + j, a + r + c, |a| + |r| + j, es)
    decreases |c| - j
  {
    if j < |c| {
      TailAlike(a, e, c, es, j);
      TailAlikeFrom(a, e, c, es, j + 1);
    }
  }

  lemma HeadAlike(a: string, e: Entry, c: string, es: seq<Entry>, i: nat)
    requires TurnOf(a, e, c, es) && i < |a|
    ensures Alike(a + Line(e) + c, i, Put(a, e, c), i, es)
    ensures Fits(a + Line(e) + c, es, i, |a|)
  {
    var s, t := a + Line(e) + c, Put(a, e, c);
    assert s[..i] == a[..i] == t[..i];
    IndentOfPrefix(s, t, i);
    forall f | f in es
      ensures Occurs(s, Line(f), i) <==> Occurs(a, Line(f), i)
      ensures Occurs(t, Line(f), i) <==> Occurs(a, Line(f), i)
    {
      LinesBefore(a, e, c, es, f, i);
      LinesAfter(a, e, c, es, f, i);
    }
  }

  /** Substituting all at once gives the same text before and after the turn. */
  lemma TurnSubstitutes(a: string, e: Entry, c: string, es: seq<Entry>)
    requires TurnOf(a, e, c, es) && Indented(a + Line(e) + c, es)
    ensures Substituted(a + Line(e) + c, es, 0) == Substituted(Put(a, e, c), es, 0)
  {
    var s, t := a + Line(e) + c, Put(a, e, c);
    forall i | 0 <= i < |a| ensures s[i] == t[i] && Alike(s, i, t, i, es) && Fits(s, es, i, |a|) {
      HeadAlike(a, e, c, es, i);
    }
    BlockSame(a, e, c, es);
    PrefixSame(s, t, es, 0, |a|);
  }
}
