/**
 * translate-docs.js: protect and restore.
 *
 * Parts of a line that must not be translated are replaced by numbered placeholders and put back afterwards. Where
 * the regular expressions match is their engine's business; what is done with a match is not.
 */
module MaskTool {
  import opened Text
  import opened Numbers
  import opened FenceLines

  function Placeholder(n: nat): string {
    "@" + Digits(n) + "@"
  }

  // ----- protect -----

  /** One match of a rule, and the text between it and the match before it. */
  datatype Cut = Cut(gap: string, hit: string)
  datatype LinkCut = LinkCut(gap: string, caption: string, url: string)

  datatype Matches = Matches(cuts: seq<Cut>, tail: string)
  datatype Links = Links(cuts: seq<LinkCut>, tail: string)

  /** What the regular expressions find: the length of the line's prefix, the links, and the matches of each rule. */
  datatype Patterns = Patterns(prefix: string -> nat, links: string -> Links, rules: seq<string -> Matches>)

  function MatchText(m: Matches): string
    decreases |m.cuts|
  {
    if m.cuts == [] then m.tail else m.cuts[0].gap + (m.cuts[0].hit + MatchText(Matches(m.cuts[1..], m.tail)))
  }

  function LinkTail(url: string): string {
    "](" + url + ")"
  }

  function LinkText(l: Links): string
    decreases |l.cuts|
  {
    if l.cuts == [] then l.tail
    else l.cuts[0].gap + ("[" + (l.cuts[0].caption + (LinkTail(l.cuts[0].url) + LinkText(Links(l.cuts[1..], l.tail)))))
  }

  /** A rule splits the text, and no match of it begins with a digit. */
  ghost predicate RuleOk(rule: string -> Matches, s: string) {
    MatchText(rule(s)) == s && forall c | c in rule(s).cuts :: c.hit != "" && !IsDigit(c.hit[0])
  }

  ghost predicate Proper(p: Patterns) {
    && (forall s :: p.prefix(s) <= |s| && '@' !in s[..p.prefix(s)])
    && (forall s :: LinkText(p.links(s)) == s)
    && (forall k, s | 0 <= k < |p.rules| :: RuleOk(p.rules[k], s))
  }

  datatype Masked = Masked(text: string, slots: seq<string>)

  /** One rule: every match without a placeholder's sign becomes a placeholder. */
  function MaskCuts(done: string, m: Matches, slots: seq<string>): Masked
    decreases |m.cuts|
  {
    if m.cuts == [] then Masked(done + m.tail, slots)
    else
      var c, rest := m.cuts[0], Matches(m.cuts[1..], m.tail);
      if '@' in c.hit then MaskCuts(done + c.gap + c.hit, rest, slots)
      else MaskCuts(done + c.gap + Placeholder(|slots|), rest, slots + [c.hit])
  }

  /** The brackets of a link become two placeholders; its label stays. */
  function MaskLinks(done: string, l: Links, slots: seq<string>): Masked
    decreases |l.cuts|
  {
    if l.cuts == [] then Masked(done + l.tail, slots)
    else
      var c := l.cuts[0];
      MaskLinks(done + c.gap + Placeholder(|slots|) + c.caption + Placeholder(|slots| + 1), Links(l.cuts[1..], l.tail),
                slots + ["[", LinkTail(c.url)])
  }

  function MaskRules(m: Masked, rules: seq<string -> Matches>): Masked {
    if rules == [] then m else
      var before := MaskRules(m, rules[..|rules| - 1]);
      MaskCuts("", rules[|rules| - 1](before.text), before.slots)
  }

  function Rest(line: string, p: Patterns): string {
    if p.prefix(line) <= |line| then line[p.prefix(line)..] else ""
  }

  function Protected(line: string, p: Patterns): Masked {
    MaskRules(MaskLinks("", p.links(Rest(line, p)), []), p.rules)
  }

  lemma PrefixFits(line: string, p: Patterns)
    requires Proper(p)
    ensures p.prefix(line) <= |line| && '@' !in line[..p.prefix(line)]
  {
  }

  /** protect. */
  method Protect(line: string, p: Patterns) returns (prefix: string, m: Masked)
    requires Proper(p)
    ensures line == prefix + Rest(line, p) && m == Protected(line, p)
  {
    PrefixFits(line, p);
    hide Proper, MaskLinks, MaskRules;
    prefix := line[..p.prefix(line)];
    m := ReplaceLinks(p.links(line[|prefix|..]));
    m := ReplaceRules(m, p.rules);
  }

  method ReplaceRules(before: Masked, rules: seq<string -> Matches>) returns (m: Masked)
    ensures m == MaskRules(before, rules)
  {
    hide MaskCuts;
    m := before;
    for k := 0 to |rules|
      invariant m == MaskRules(before, rules[..k])
    {
      assert rules[..k + 1][..k] == rules[..k];
      m := ReplaceCuts(rules[k](m.text), m.slots);
    }
    assert rules[..|rules|] == rules;
  }

  method ReplaceCuts(m: Matches, before: seq<string>) returns (r: Masked)
    ensures r == MaskCuts("", m, before)
  {
    var text, slots := "", before;
    assert m.cuts[0..] == m.cuts;
    for k := 0 to |m.cuts|
      invariant MaskCuts(text, Matches(m.cuts[k..], m.tail), slots) == MaskCuts("", m, before)
    {
      var c := m.cuts[k];
      assert m.cuts[k..][1..] == m.cuts[k + 1..];
      if '@' in c.hit {
        text := text + c.gap + c.hit;
      } else {
        text := text + c.gap + Placeholder(|slots|);
        slots := slots + [c.hit];
      }
    }
    r := Masked(text + m.tail, slots);
  }

  method ReplaceLinks(l: Links) returns (r: Masked)
    ensures r == MaskLinks("", l, [])
  {
    var text, slots := "", [];
    assert l.cuts[0..] == l.cuts;
    for k := 0 to |l.cuts|
      invariant MaskLinks(text, Links(l.cuts[k..], l.tail), slots) == MaskLinks("", l, [])
    {
      var c := l.cuts[k];
      assert l.cuts[k..][1..] == l.cuts[k + 1..];
      text := text + c.gap + Placeholder(|slots|) + c.caption + Placeholder(|slots| + 1);
      slots := slots + ["[", LinkTail(c.url)];
    }
    r := Masked(text + l.tail, slots);
  }

  // ----- restore -----

  function DigitRun(s: string): (n: nat)
    ensures n <= |s| && forall k | 0 <= k < n :: IsDigit(s[k])
  {
    if s != "" && IsDigit(s[0]) then 1 + DigitRun(s[1..]) else 0
  }

  /**
   * The placeholder at the start of the text, if one is there: its number and its length; blanks inside are forgiven.
   */
  function Reads(s: string): (r: Option<(nat, nat)>)
    ensures r.Some? ==> 0 < r.value.1 <= |s| && s[0] == '@'
  {
    if s == "" || s[0] != '@' then None
    else
      var i := 1 + Indented(s[1..]);
      var n := DigitRun(s[i..]);
      var j := i + n + Indented(s[i + n..]);
      if n > 0 && j < |s| && s[j] == '@' then Some((Value(s[i..i + n]), j + 1)) else None
  }

  /** text: placeholders replaced by their slots; lost: one names no slot; seen: the slots put back. */
  datatype Restored = Restored(text: string, lost: bool, seen: set<nat>)

  function Prepended(s: string, r: Restored): Restored {
    r.(text := s + r.text)
  }

  function PutBack(n: nat, rest: Restored, slots: seq<string>): Restored {
    if n < |slots| then Restored(slots[n] + rest.text, rest.lost, rest.seen + {n}) else rest.(lost := true)
  }

  function RestoreFrom(s: string, slots: seq<string>): Restored
    decreases |s|
  {
    if s == "" then Restored("", false, {})
    else
      match Reads(s)
      case None => Prepended([s[0]], RestoreFrom(s[1..], slots))
      case Some(v) => PutBack(v.0, RestoreFrom(s[v.1..], slots), slots)
  }

  predicate IsOk(r: Restored, slots: seq<string>) {
    !r.lost && |r.seen| == |slots| && '@' !in r.text
  }

  method Restore(masked: string, slots: seq<string>) returns (text: string, ok: bool)
    ensures text == RestoreFrom(masked, slots).text && ok == IsOk(RestoreFrom(masked, slots), slots)
  {
    hide Reads, RestoreFrom;
    var seen: set<nat>, failed := {}, false;
    text := "";
    var i := 0;
    assert masked[0..] == masked;
    while i < |masked|
      invariant i <= |masked|
      invariant var all, rest := RestoreFrom(masked, slots), RestoreFrom(masked[i..], slots);
                all.text == text + rest.text && all.lost == (failed || rest.lost) && all.seen == seen + rest.seen
      decreases |masked| - i
    {
      var r := Reads(masked[i..]);
      RestoreStep(masked, i, slots);
      if r.None? {
        text := text + [masked[i]];
        i := i + 1;
      } else {
        var n, length := r.value.0, r.value.1;
        if n < |slots| {
          seen := seen + {n};
          text := text + slots[n];
        } else {
          failed := true;
        }
        i := i + length;
      }
    }
    RestoredNothing(masked[i..], slots);
    assert text + "" == text;
    ok := !failed && |seen| == |slots| && '@' !in text;
  }

  lemma RestoreStep(s: string, i: nat, slots: seq<string>)
    requires i < |s|
    ensures RestoreFrom(s[i..], slots) ==
            match Reads(s[i..])
            case None => Prepended([s[i]], RestoreFrom(s[i + 1..], slots))
            case Some(v) => PutBack(v.0, RestoreFrom(s[i + v.1..], slots), slots)
  {
    hide Reads;
    assert s[i..][1..] == s[i + 1..];
    if Reads(s[i..]).Some? { assert s[i..][Reads(s[i..]).value.1..] == s[i + Reads(s[i..]).value.1..]; }
  }

  lemma RestoredNothing(s: string, slots: seq<string>)
    requires s == ""
    ensures RestoreFrom(s, slots) == Restored("", false, {})
  {
  }

  // ----- whatever the engine returns, an accepted line has every slot in place -----

  predicate StandsAt(text: string, part: string, i: nat) {
    i + |part| <= |text| && text[i..i + |part|] == part
  }

  ghost predicate Holds(text: string, part: string) {
    exists i :: StandsAt(text, part, i)
  }

  lemma HoldsMore(a: string, text: string, part: string)
    requires Holds(text, part)
    ensures Holds(a + text, part)
  {
    var i :| StandsAt(text, part, i);
    assert (a + text)[|a| + i..|a| + i + |part|] == part;
    assert StandsAt(a + text, part, |a| + i);
  }

  lemma {:induction false} SeenIsThere(s: string, slots: seq<string>, n: nat)
    requires n in RestoreFrom(s, slots).seen
    ensures n < |slots| && Holds(RestoreFrom(s, slots).text, slots[n])
    decreases |s|
  {
    hide Reads, Holds;
    match Reads(s) {
      case None =>
        SeenIsThere(s[1..], slots, n);
        HoldsMore([s[0]], RestoreFrom(s[1..], slots).text, slots[n]);
      case Some(v) =>
        var rest := RestoreFrom(s[v.1..], slots);
        if n in rest.seen {
          SeenIsThere(s[v.1..], slots, n);
          if v.0 < |slots| { HoldsMore(slots[v.0], rest.text, slots[n]); }
        } else {
          HoldsFirst(slots[n], rest.text);
        }
    }
  }

  lemma HoldsFirst(part: string, rest: string)
    ensures Holds(part + rest, part)
  {
    assert StandsAt(part + rest, part, 0);
  }

  lemma {:induction false} SeenInRange(s: string, slots: seq<string>)
    ensures forall n | n in RestoreFrom(s, slots).seen :: n < |slots|
    decreases |s|
  {
    hide Reads;
    if s != "" {
      match Reads(s) {
        case None => SeenInRange(s[1..], slots);
        case Some(v) => SeenInRange(s[v.1..], slots);
      }
    }
  }

  function Below(n: nat): (r: set<nat>)
    ensures |r| == n && forall k: nat :: k in r <==> k < n
  {
    if n == 0 then {}
    else
      assert n - 1 !in Below(n - 1);
      Below(n - 1) + {n - 1}
  }

  lemma FullSet(seen: set<nat>, n: nat)
    requires forall k | k in seen :: k < n
    ensures |seen| == n <==> forall k | 0 <= k < n :: k in seen
  {
    assert seen <= Below(n);
    if |seen| == n { SubsetSameSize(seen, Below(n)); }
    if forall k | 0 <= k < n :: k in seen { assert seen == Below(n); }
  }

  lemma SubsetSameSize(a: set<nat>, b: set<nat>)
    requires a <= b && |a| == |b|
    ensures a == b
  {
    assert b == a + (b - a);
    assert |b| == |a| + |b - a|;
  }

  /** ok means: every slot stands in the text as it was, and no placeholder sign is left. */
  lemma OkMeansRestored(engineOutput: string, slots: seq<string>)
    requires IsOk(RestoreFrom(engineOutput, slots), slots)
    ensures forall n | 0 <= n < |slots| :: Holds(RestoreFrom(engineOutput, slots).text, slots[n])
    ensures '@' !in RestoreFrom(engineOutput, slots).text
  {
    hide Holds, RestoreFrom;
    SeenInRange(engineOutput, slots);
    FullSet(RestoreFrom(engineOutput, slots).seen, |slots|);
    forall n | 0 <= n < |slots| ensures Holds(RestoreFrom(engineOutput, slots).text, slots[n]) {
      SeenIsThere(engineOutput, slots, n);
    }
  }
}
