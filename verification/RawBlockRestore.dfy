/**
 * ConfService.restoreRawBlocks: the whole loop. Where each marker stands once on a line of its own, it is
 * simultaneous substitution, in any order of the entries; and what addRawBlockEntry keeps.
 */
module RawBlockRestore {
  import opened Text
  import opened RawBlocks
  import opened RawBlockTurn

  // ----- the whole loop -----

  /** The state before turn k: the marker lines of earlier entries are gone. */
  ghost predicate DoneBefore(s: string, es: seq<Entry>, k: nat)
    requires k <= |es|
  {
    forall j, i | 0 <= j < k :: !Occurs(s, Line(es[j]), i)
  }

  ghost predicate ReadyFrom(s: string, es: seq<Entry>, k: nat)
    requires k <= |es|
  {
    && (forall j | k <= j < |es| :: OwnLine(s, es[j]) && EndsInBrace(es[j].block))
    && (forall j | 0 <= j < |es| :: NoStray(s, es[j]))
  }

  lemma CleanTurn(a: string, c: string, es: seq<Entry>, k: nat)
    requires Clean(es) && k < |es| && Turn(a, es[k], c)
    ensures TurnOf(a, es[k], c, es)
  {
  }

  lemma TurnDone(a: string, c: string, es: seq<Entry>, k: nat)
    requires Clean(es) && k < |es| && Turn(a, es[k], c) && DoneBefore(a + Line(es[k]) + c, es, k)
    ensures DoneBefore(Put(a, es[k], c), es, k + 1)
  {
    var e := es[k];
    OwnLineGone(a, e, c);
    CleanTurn(a, c, es, k);
    forall j, i | 0 <= j < k ensures !Occurs(Put(a, e, c), Line(es[j]), i) {
      LinesAfter(a, e, c, es, es[j], i);
      LinesBefore(a, e, c, es, es[j], i);
      LinesBefore(a, e, c, es, es[j], i - |Rendered(e.block, Indent(a + Line(e) + c, |a|))| + |Line(e)|);
    }
  }

  lemma TurnKeepsReady(a: string, c: string, es: seq<Entry>, k: nat)
    requires Clean(es) && k < |es| && Turn(a, es[k], c)
    requires OwnLine(a + Line(es[k]) + c, es[k])
    ensures ReadyFrom(Put(a, es[k], c), es, k + 1) <==> ReadyFrom(a + Line(es[k]) + c, es, k)
  {
    var e := es[k];
    var s, t := a + Line(e) + c, Put(a, e, c);
    forall j | 0 <= j < |es| && j != k
      ensures OwnLine(s, es[j]) <==> OwnLine(t, es[j])
      ensures NoStray(s, es[j]) <==> NoStray(t, es[j])
    {
      OtherEntry(a, e, c, es[j]);
    }
    OwnStray(a, e, c);
  }

  lemma OwnStray(a: string, e: Entry, c: string)
    requires Turn(a, e, c) && !Contains(e.block, e.marker)
    ensures NoStray(Put(a, e, c), e) <==> NoStray(a + Line(e) + c, e)
  {
    OwnLineGone(a, e, c);
    OwnMarkerGone(a, e, c);
  }

  lemma {:induction false} LoopExact(s: string, es: seq<Entry>, k: nat)
    requires Clean(es) && k <= |es| && DoneBefore(s, es, k)
    ensures var r := RestoreFrom(s, es, k);
            && ((r.Some? && !MarkerLeft(r.value, es)) <==> ReadyFrom(s, es, k))
            && (ReadyFrom(s, es, k) ==> r == Some(Substituted(s, es, 0)))
    decreases |es| - k
  {
    if k == |es| {
      LoopEnd(s, es);
    } else {
      TurnHappens(s, es[k]);
      if RestoreOne(s, es[k]).Some? {
        var at := FindText(s, Line(es[k]), 0).value;
        var a, c := s[..at], s[at + |Line(es[k])|..];
        TurnDone(a, c, es, k);
        TurnKeepsReady(a, c, es, k);
        LoopExact(Put(a, es[k], c), es, k + 1);
        if ReadyFrom(s, es, k) {
          ReadyIndented(s, es, k);
          CleanTurn(a, c, es, k);
          TurnSubstitutes(a, es[k], c, es);
        }
      }
    }
  }

  lemma LoopEnd(s: string, es: seq<Entry>)
    requires DoneBefore(s, es, |es|)
    ensures !MarkerLeft(s, es) <==> ReadyFrom(s, es, |es|)
    ensures Substituted(s, es, 0) == s
  {
    NothingToSubstitute(s, es, 0);
    assert s[0..] == s;
    forall j | 0 <= j < |es| ensures NoStray(s, es[j]) <==> !Contains(s, es[j].marker) {
      assert es[j] in es;
    }
  }

  lemma ReadyIndented(s: string, es: seq<Entry>, k: nat)
    requires k <= |es| && DoneBefore(s, es, k) && ReadyFrom(s, es, k)
    ensures Indented(s, es)
  {
    forall e, i | e in es && Occurs(s, Line(e), i) ensures IsIndent(Indent(s, i)) {
      var j :| 0 <= j < |es| && es[j] == e;
      assert j >= k && OwnLine(s, es[j]);
    }
  }

  /**
   * Restoring succeeds exactly if every marker line stands once, behind an indent, no marker stands anywhere
   * else and every block is closed; the result is the simultaneous substitution.
   */
  lemma RestoreExact(conf: string, es: seq<Entry>)
    requires Clean(es)
    ensures Restore(conf, es).Some? <==> Ready(conf, es)
    ensures Restore(conf, es).Some? ==> Restore(conf, es).value == Substituted(conf, es, 0)
  {
    LoopExact(conf, es, 0);
    assert Ready(conf, es) <==> ReadyFrom(conf, es, 0) by {
      assert forall j :: 0 <= j < |es| ==> es[j] in es;
    }
  }

  // ----- the order of the entries -----

  predicate SameEntries(es: seq<Entry>, fs: seq<Entry>) {
    (forall e | e in es :: e in fs) && (forall f | f in fs :: f in es)
  }

  /** At one position at most one marker line stands. */
  lemma OneLineAt(s: string, i: int, es: seq<Entry>, e: Entry, f: Entry)
    requires Clean(es) && e in es && f in es && Occurs(s, Line(e), i) && Occurs(s, Line(f), i)
    ensures e == f
  {
    OccursPrefix(s, Line(e), i, |e.marker|);
    OccursPrefix(s, Line(f), i, |f.marker|);
    assert Line(e)[..|e.marker|] == e.marker && Line(f)[..|f.marker|] == f.marker;
  }

  lemma SlotOrder(s: string, es: seq<Entry>, fs: seq<Entry>, i: nat)
    requires Clean(es) && SameEntries(es, fs) && i <= |s| && forall e | e in es :: e.block != ""
    ensures Slot(s, es, i, 0) == Slot(s, fs, i, 0)
  {
    if e :| e in es && Occurs(s, Line(e), i) {
      forall f | f in es && f != e ensures !Occurs(s, Line(f), i) {
        if Occurs(s, Line(f), i) { OneLineAt(s, i, es, e, f); }
      }
      assert es[0..] == es && fs[0..] == fs;
      SlotIs(s, es, i, 0, e);
      SlotIs(s, fs, i, 0, e);
    } else {
      SlotNone(s, es, i, 0);
      SlotNone(s, fs, i, 0);
    }
  }

  lemma StepOrder(s: string, es: seq<Entry>, fs: seq<Entry>, i: nat)
    requires Clean(es) && SameEntries(es, fs) && i < |s| && forall e | e in es :: e.block != ""
    ensures StepLength(s, es, i) == StepLength(s, fs, i) && Piece(s, es, i) == Piece(s, fs, i)
  {
    hide Clean, Slot, SameEntries;
    SlotOrder(s, es, fs, i);
  }

  lemma {:induction false} SubstitutedOrder(s: string, es: seq<Entry>, fs: seq<Entry>, i: nat)
    requires Clean(es) && SameEntries(es, fs) && i <= |s| && forall e | e in es :: e.block != ""
    ensures Substituted(s, es, i) == Substituted(s, fs, i)
    decreases |s| - i
  {
    hide Clean, SameEntries, StepLength, Piece;
    if i < |s| {
      StepOrder(s, es, fs, i);
      SubstitutedOrder(s, es, fs, i + StepLength(s, es, i));
    }
  }

  /** The order in which the markers are replaced makes no difference, neither to success nor to the text. */
  lemma OrderIrrelevant(conf: string, es: seq<Entry>, fs: seq<Entry>)
    requires Clean(es) && Clean(fs) && SameEntries(es, fs)
    ensures Restore(conf, es) == Restore(conf, fs)
  {
    RestoreExact(conf, es);
    RestoreExact(conf, fs);
    if Ready(conf, es) { SubstitutedOrder(conf, es, fs, 0); }
  }

  // ----- addRawBlockEntry -----

  predicate Collides(es: seq<Entry>, rendered: string, marker: string) {
    Contains(rendered, marker) || exists e :: e in es && (e.marker == marker || Contains(e.block, marker))
  }

  /** The first marker of the random source that collides with nothing; None if the source gives out. */
  method AddRawBlockEntry(rawBlocks: seq<Entry>, rendered: string, random: seq<string>) returns (r: Option<seq<Entry>>)
    ensures r.None? ==> forall k | 0 <= k < |random| :: Collides(rawBlocks, rendered, random[k])
    ensures r.Some? ==> exists k | 0 <= k < |random| ::
              && !Collides(rawBlocks, rendered, random[k])
              && (forall j | 0 <= j < k :: Collides(rawBlocks, rendered, random[j]))
              && r.value == rawBlocks + [Entry(random[k], rendered)]
  {
    for k := 0 to |random|
      invariant forall j | 0 <= j < k :: Collides(rawBlocks, rendered, random[j])
    {
      var marker := random[k];
      if !Collides(rawBlocks, rendered, marker) {
        return Some(rawBlocks + [Entry(marker, rendered)]);
      }
    }
    r := None;
  }

  /** The checks keep the entries clean unless the new block holds an earlier marker, which nothing checks. */
  lemma AddKeepsClean(es: seq<Entry>, e: Entry)
    requires Clean(es) && !Collides(es, e.block, e.marker)
    requires MarkerText(e.marker) && forall f | f in es :: |f.marker| == |e.marker|
    ensures Clean(es + [e]) <==> forall f | f in es :: !Contains(e.block, f.marker)
  {
    var all := es + [e];
    assert forall j :: 0 <= j < |es| ==> all[j] == es[j] && es[j] in es;
    assert all[|es|] == e;
    if Clean(all) {
      forall f | f in es ensures !Contains(e.block, f.marker) {
        var j :| 0 <= j < |es| && es[j] == f;
        assert !Contains(all[|es|].block, all[j].marker);
      }
    }
  }
}
