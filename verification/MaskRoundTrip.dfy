/**
 * translate-docs.js: masking a line and restoring it.
 *
 * The line comes back exactly when it is free of the sign of the placeholders. Each protection pass turns a line that
 * masks the original into another one that does, and restoring undoes all of them; SpeltPlaceholder is a line with the
 * sign in it that is accepted and yet comes back changed.
 */
module MaskRoundTrip {
  import opened Numbers
  import opened MaskTool
  import opened MaskSigns

  // ----- a faithful mask -----

  /** Restoring gives the original back, and every slot is put back on the way. */
  ghost predicate Faithful(text: string, slots: seq<string>, original: string) {
    && WellMasked(text, |slots|)
    && var r := RestoreFrom(text, slots);
    r.text == original && !r.lost && r.seen == Below(|slots|)
  }

  lemma FaithfulMore(p: string, m: string, q: string, slots: seq<string>, original: string)
    requires m != "" && '@' !in m && !IsDigit(m[0]) && Faithful(p + (m + q), slots, original)
    ensures Faithful(p + (Placeholder(|slots|) + q), slots + [m], original)
  {
    hide RestoreFrom, WellMasked, Placeholder;
    ReplaceOne(p, m, q, slots);
    assert Below(|slots| + 1) == Below(|slots|) + {|slots|};
  }

  lemma {:induction false} CutsFaithful(done: string, m: Matches, slots: seq<string>, original: string)
    requires forall c | c in m.cuts :: c.hit != "" && !IsDigit(c.hit[0])
    requires Faithful(done + MatchText(m), slots, original)
    ensures var r := MaskCuts(done, m, slots); Faithful(r.text, r.slots, original)
    decreases |m.cuts|
  {
    hide Faithful, Placeholder;
    if m.cuts != [] {
      var c, rest := m.cuts[0], Matches(m.cuts[1..], m.tail);
      assert c in m.cuts && forall x :: x in rest.cuts ==> x in m.cuts;
      var tail := MatchText(rest);
      if '@' in c.hit {
        assert done + MatchText(m) == done + c.gap + c.hit + tail;
        CutsFaithful(done + c.gap + c.hit, rest, slots, original);
      } else {
        assert done + MatchText(m) == done + c.gap + (c.hit + tail);
        FaithfulMore(done + c.gap, c.hit, tail, slots, original);
        assert done + c.gap + (Placeholder(|slots|) + tail) == done + c.gap + Placeholder(|slots|) + tail;
        CutsFaithful(done + c.gap + Placeholder(|slots|), rest, slots + [c.hit], original);
      }
    }
  }

  lemma {:induction false} LinksFaithful(done: string, l: Links, slots: seq<string>, original: string)
    requires '@' !in LinkText(l) && Faithful(done + LinkText(l), slots, original)
    ensures var r := MaskLinks(done, l, slots); Faithful(r.text, r.slots, original)
    decreases |l.cuts|
  {
    hide Faithful, Placeholder, LinkTail;
    if l.cuts != [] {
      var c, rest := l.cuts[0], Links(l.cuts[1..], l.tail);
      var tail := LinkText(rest);
      var close := LinkTail(c.url);
      LinkFaithful(done + c.gap, c, tail, slots, original) by {
        assert done + LinkText(l) == done + c.gap + ("[" + (c.caption + (close + tail)));
      }
      var next := done + c.gap + Placeholder(|slots|) + c.caption + Placeholder(|slots| + 1);
      LinksFaithful(next, rest, slots + ["[", close], original);
    }
  }

  lemma LinkFaithful(done: string, c: LinkCut, tail: string, slots: seq<string>, original: string)
    requires '@' !in LinkTail(c.url) && Faithful(done + ("[" + (c.caption + (LinkTail(c.url) + tail))), slots, original)
    ensures Faithful(done + Placeholder(|slots|) + c.caption + Placeholder(|slots| + 1) + tail,
                     slots + ["[", LinkTail(c.url)], original)
  {
    hide Faithful, Placeholder;
    var n := |slots|;
    var close := LinkTail(c.url);
    FaithfulMore(done, "[", c.caption + (close + tail), slots, original);
    var p := done + Placeholder(n) + c.caption;
    assert done + (Placeholder(n) + (c.caption + (close + tail))) == p + (close + tail);
    FaithfulMore(p, close, tail, slots + ["["], original);
    assert p + (Placeholder(n + 1) + tail) == p + Placeholder(n + 1) + tail;
    assert slots + ["["] + [close] == slots + ["[", close];
  }

  lemma {:induction false} RulesFaithful(m: Masked, rules: seq<string -> Matches>, original: string)
    requires Faithful(m.text, m.slots, original) && forall k, s | 0 <= k < |rules| :: RuleOk(rules[k], s)
    ensures var r := MaskRules(m, rules); Faithful(r.text, r.slots, original)
  {
    hide Faithful, MaskCuts, MatchText;
    if rules != [] {
      var init, rule := rules[..|rules| - 1], rules[|rules| - 1];
      RulesFaithful(m, init, original);
      var before := MaskRules(m, init);
      assert RuleOk(rule, before.text);
      assert "" + MatchText(rule(before.text)) == before.text;
      CutsFaithful("", rule(before.text), before.slots, original);
    }
  }

  lemma UnmaskedIsFaithful(s: string)
    requires '@' !in s
    ensures Faithful(s, [], s)
  {
    PlainText(s, "", [], 0);
    assert s + "" == s;
  }

  lemma ProtectedIsFaithful(line: string, p: Patterns)
    requires Proper(p) && '@' !in line
    ensures var m := Protected(line, p); Faithful(m.text, m.slots, Rest(line, p))
  {
    hide Faithful, MaskLinks, MaskRules, LinkText;
    var s := Rest(line, p);
    UnmaskedIsFaithful(s);
    assert LinkText(p.links(s)) == s && "" + s == s;
    LinksFaithful("", p.links(s), [], s);
    RulesFaithful(MaskLinks("", p.links(s), []), p.rules, s);
  }

  /**
   * Masked and restored untouched, a line comes back unchanged and accepted exactly if the placeholders' sign is not
   * in it.
   */
  lemma MaskRoundTrips(line: string, p: Patterns)
    requires Proper(p)
    ensures var m := Protected(line, p);
            var r := RestoreFrom(m.text, m.slots);
            (IsOk(r, m.slots) && line[..p.prefix(line)] + r.text == line) <==> '@' !in line
  {
    hide Protected, RestoreFrom;
    PrefixFits(line, p);
    var m := Protected(line, p);
    var r := RestoreFrom(m.text, m.slots);
    assert line == line[..p.prefix(line)] + Rest(line, p);
    if '@' !in line {
      ProtectedIsFaithful(line, p);
    }
  }

  /** A line that spells a placeholder itself in front of a protected part: it is accepted, and comes back changed. */
  lemma SpeltPlaceholder(part: string, p: Patterns, rule: string -> Matches)
    requires part != "" && '@' !in part
    requires var line := Placeholder(0) + part;
             && p.prefix(line) == 0 && p.links(line) == Links([], line) && p.rules == [rule]
             && rule(line) == Matches([Cut(Placeholder(0), part)], "")
    ensures var line := Placeholder(0) + part;
            var m := Protected(line, p);
            var r := RestoreFrom(m.text, m.slots);
            IsOk(r, m.slots) && r.text == part + part && r.text != line
  {
    hide RestoreFrom, Placeholder;
    var zero := Placeholder(0);
    SpeltMask(zero + part, zero, part, p, rule);
    RestorePlaceholder(0, zero, [part]);
    RestorePlaceholder(0, "", [part]);
    assert zero + "" == zero;
    RestoredNothing("", [part]);
    assert part + (part + "") == part + part;
    assert '@' in zero + part by { SignFirst(0); }
  }

  lemma SignFirst(n: nat)
    ensures '@' in Placeholder(n)
  {
    assert Placeholder(n)[0] == '@';
  }

  lemma SpeltMask(line: string, zero: string, part: string, p: Patterns, rule: string -> Matches)
    requires '@' !in part && zero == Placeholder(0) && line == zero + part
    requires p.prefix(line) == 0 && p.links(line) == Links([], line) && p.rules == [rule]
    requires rule(line) == Matches([Cut(zero, part)], "")
    ensures Protected(line, p) == Masked(zero + zero, [part])
  {
    hide Placeholder;
    assert line[0..] == line && Rest(line, p) == line;
    assert MaskRules(Masked(line, []), []) == Masked(line, []);
    assert MaskLinks("", Links([], line), []) == Masked(line, []) by { assert "" + line == line; }
    assert [rule][..0] == [] && [Cut(zero, part)][1..] == [];
    assert [] + [part] == [part];
    assert "" + zero + zero + "" == zero + zero;
    assert MaskCuts("" + zero + zero, Matches([], ""), [part]) == Masked(zero + zero, [part]);
  }
}
