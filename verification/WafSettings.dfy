/**
 * WafTuningService.apply: stored rows, the text written for them, and what of both is irrelevant to the result.
 *
 * Applying stores one row for each setting that says something. What is compiled from the rows does not depend
 * on their order, and not on a setting that says what the catalogue says anyway.
 */
module WafSettings {
  import opened Text
  import opened WafPolicy
  import opened WafCompile
  import opened WafMeaning

  // ----- rows -----

  predicate SameRow(a: Setting, b: Setting) {
    a.scope == b.scope && a.ruleKey == b.ruleKey
  }

  /** The first row with the scope and key. */
  function Find(rows: seq<Setting>, c: Setting): (k: Option<nat>)
    ensures k.Some? ==> k.value < |rows| && SameRow(rows[k.value], c)
    ensures k.None? ==> forall r | r in rows :: !SameRow(r, c)
  {
    if rows == [] then None
    else if SameRow(rows[0], c) then Some(0)
    else
      var k := Find(rows[1..], c);
      if k.None? then None else Some(k.value + 1)
  }

  /** A default setting deletes its row, any other replaces it or is inserted. */
  function StoreOne(rows: seq<Setting>, c: Setting): seq<Setting> {
    var k := Find(rows, c);
    if IsDefault(c) then (if k.Some? then rows[..k.value] + rows[k.value + 1..] else rows)
    else if k.Some? then rows[k.value := c]
    else rows + [c]
  }

  function StoreAll(rows: seq<Setting>, changes: seq<Setting>): seq<Setting> {
    if changes == [] then rows else StoreOne(StoreAll(rows, changes[..|changes| - 1]), changes[|changes| - 1])
  }

  function LastRule(cat: seq<Rule>, key: string): (r: Option<Rule>)
    ensures r.None? <==> forall x | x in cat :: x.key != key
    ensures r.Some? ==> r.value in cat && r.value.key == key
  {
    if cat == [] then None
    else
      assert cat == cat[..|cat| - 1] + [cat[|cat| - 1]];
      if cat[|cat| - 1].key == key then Some(cat[|cat| - 1]) else LastRule(cat[..|cat| - 1], key)
  }

  /** validate raises nothing. */
  predicate Valid(s: Setting, cat: seq<Rule>, serverIds: set<string>) {
    && (if s.scope == SCOPE_RULE then
          var r := LastRule(cat, s.ruleKey);
          r.Some? && (s.action == INHERIT || Allowed(r.value.source, s.action))
        else
          && s.scope == SCOPE_CATEGORY
          && (exists r | r in cat :: r.category == s.ruleKey)
          && Allowed(SourceOfCategory(s.ruleKey), s.action))
    && forall id | id in SplitIds(s.excluded) :: id in serverIds
  }

  function Tidy(c: Setting): Setting {
    c.(excluded := Join(SplitIds(c.excluded), ','))
  }

  function TidyAll(changes: seq<Setting>): seq<Setting> {
    seq(|changes|, k requires 0 <= k < |changes| => Tidy(changes[k]))
  }

  lemma {:induction false} LastRuleAt(cat: seq<Rule>, key: string) returns (k: nat)
    ensures if LastRule(cat, key).Some? then LastKey(cat, key, k) && cat[k] == LastRule(cat, key).value
            else forall i: nat :: !LastKey(cat, key, i)
  {
    hide LastKey;
    k := 0;
    if LastRule(cat, key).None? {
      forall i: nat ensures !LastKey(cat, key, i) { NoKey(cat, key, i); }
    } else {
      var n := |cat| - 1;
      if cat[n].key == key {
        EndIsLast(cat, key);
        k := n;
      } else {
        k := LastRuleAt(cat[..n], key);
        StillLast(cat, key, k);
      }
    }
  }

  lemma NoKey(cat: seq<Rule>, key: string, i: nat)
    requires forall x | x in cat :: x.key != key
    ensures !LastKey(cat, key, i)
  {
    assert i < |cat| ==> cat[i] in cat;
  }

  lemma EndIsLast(cat: seq<Rule>, key: string)
    requires cat != [] && cat[|cat| - 1].key == key
    ensures LastKey(cat, key, |cat| - 1)
  {
  }

  lemma StillLast(cat: seq<Rule>, key: string, k: nat)
    requires cat != [] && cat[|cat| - 1].key != key && LastKey(cat[..|cat| - 1], key, k)
    ensures LastKey(cat, key, k) && cat[k] == cat[..|cat| - 1][k]
  {
    var init := cat[..|cat| - 1];
    forall j | k < j < |cat| ensures cat[j].key != key {
      if j < |init| { assert init[j] == cat[j]; }
    }
  }

  lemma OneLast(cat: seq<Rule>, key: string, j: nat, k: nat)
    requires LastKey(cat, key, j) && LastKey(cat, key, k)
    ensures j == k
  {
  }

  lemma KeyKnown(c: Setting, cat: seq<Rule>)
    ensures var r := LastRule(cat, c.ruleKey);
            r.Some? && (c.action == "inherit" || Allowed(r.value.source, c.action)) <==>
            exists k | 0 <= k < |cat| ::
              LastKey(cat, c.ruleKey, k) && (c.action == "inherit" || Word(cat[k].source, c.action))
  {
    hide LastRule, LastKey, Allowed, Word;
    var at := LastRuleAt(cat, c.ruleKey);
    forall source ensures Allowed(source, c.action) <==> Word(source, c.action) { WordIs(source, c.action); }
    forall k: nat | LastKey(cat, c.ruleKey, k) && LastRule(cat, c.ruleKey).Some? ensures k == at {
      OneLast(cat, c.ruleKey, at, k);
    }
    if LastRule(cat, c.ruleKey).Some? { LastKeyIn(cat, c.ruleKey, at); }
  }

  lemma LastKeyIn(cat: seq<Rule>, key: string, k: nat)
    requires LastKey(cat, key, k)
    ensures k < |cat|
  {
  }

  /** A change passes the validation exactly if it is acceptable. */
  lemma ValidIs(c: Setting, cat: seq<Rule>, ids: set<string>)
    ensures Valid(Tidy(c), cat, ids) <==> Acceptable(c, cat, ids)
    ensures Tidy(c).ruleKey == c.ruleKey
  {
    hide LastRule, LastKey, Allowed, Word, SplitIds, HasPiece, Join;
    KeyKnown(c, cat);
    IdsRoundTrip(c.excluded);
    forall id ensures id in SplitIds(c.excluded) <==> HasPiece(c.excluded, id) { HasPieceIs(c.excluded, id); }
    WordIs(SourceOfCategory(c.ruleKey), c.action);
  }

  datatype Outcome = NoCatalog | Illegal(key: string) | Applied(config: Config)

  class WafTuningService {
    var rows: seq<Setting>

    constructor ()
      ensures rows == []
    {
      rows := [];
    }

    /** Nothing is stored unless every change is valid; then the configuration is compiled from the stored rows. */
    method Apply(cat: Option<seq<Rule>>, sites: map<string, Hosts>, changes: seq<Setting>) returns (r: Outcome)
      modifies this
      ensures r.NoCatalog? <==> cat.None?
      ensures r.Applied? <==> cat.Some? && forall c | c in changes :: Acceptable(c, cat.value, sites.Keys)
      ensures r.Illegal? ==> exists k | 0 <= k < |changes| ::
                  r.key == changes[k].ruleKey && !Acceptable(changes[k], cat.value, sites.Keys) &&
                  forall j | 0 <= j < k :: Acceptable(changes[j], cat.value, sites.Keys)
      ensures r.Applied? ==>
                rows == StoreAll(old(rows), TidyAll(changes)) && r.config == Compiled(cat.value, rows, sites)
      ensures !r.Applied? ==> rows == old(rows)
    {
      hide Valid, Acceptable, Tidy, Compiled;
      if cat.None? { return NoCatalog; }
      var tidied := TidyAll(changes);
      var wrong := FirstInvalid(tidied, cat.value, sites.Keys);
      forall k | 0 <= k < |changes|
        ensures Valid(tidied[k], cat.value, sites.Keys) <==> Acceptable(changes[k], cat.value, sites.Keys)
        ensures tidied[k].ruleKey == changes[k].ruleKey
      {
        ValidIs(changes[k], cat.value, sites.Keys);
      }
      if wrong.Some? {
        assert changes[wrong.value] in changes;
        return Illegal(tidied[wrong.value].ruleKey);
      }
      StoreChanges(tidied);
      var config := Render(cat.value, rows, sites);
      r := Applied(config);
    }

    method FirstInvalid(changes: seq<Setting>, cat: seq<Rule>, serverIds: set<string>) returns (wrong: Option<nat>)
      ensures wrong.None? ==> forall k | 0 <= k < |changes| :: Valid(changes[k], cat, serverIds)
      ensures wrong.Some? ==> wrong.value < |changes| && !Valid(changes[wrong.value], cat, serverIds) &&
                                forall j | 0 <= j < wrong.value :: Valid(changes[j], cat, serverIds)
    {
      hide Valid;
      for k := 0 to |changes|
        invariant forall j | 0 <= j < k :: Valid(changes[j], cat, serverIds)
      {
        if !Valid(changes[k], cat, serverIds) { return Some(k); }
      }
      wrong := None;
    }

    method StoreChanges(changes: seq<Setting>)
      modifies this
      ensures rows == StoreAll(old(rows), changes)
    {
      for k := 0 to |changes|
        invariant rows == StoreAll(old(rows), changes[..k])
      {
        assert changes[..k + 1][..k] == changes[..k];
        StoreChange(changes[k]);
      }
      assert changes[..|changes|] == changes;
    }

    method StoreChange(c: Setting)
      modifies this
      ensures rows == StoreOne(old(rows), c)
    {
      var found := Find(rows, c);
      if IsDefault(c) {
        if found.Some? { rows := rows[..found.value] + rows[found.value + 1..]; }
      } else if found.Some? {
        rows := rows[found.value := c];
      } else {
        rows := rows + [c];
      }
    }
  }

  // ----- what is irrelevant -----

  lemma {:induction false} SamePlaces(s: Setup, t: Setup, rules: seq<Rule>)
    requires s.sites == t.sites
    requires forall r: Rule :: ActionIn(s, r) == ActionIn(t, r)
    requires forall r: Rule :: ExcludedServers(r, s.rules, s.categories) == ExcludedServers(r, t.rules, t.categories)
    ensures PlaceAll(s, rules) == PlaceAll(t, rules)
  {
    if rules != [] { SamePlaces(s, t, rules[..|rules| - 1]); }
  }

  lemma OnlyNonDefaultsMatter(cat: seq<Rule>, a: seq<Setting>, b: seq<Setting>, sites: map<string, Hosts>)
    requires NonDefault(ByKey(a, SCOPE_RULE)) == NonDefault(ByKey(b, SCOPE_RULE))
    requires NonDefault(ByKey(a, SCOPE_CATEGORY)) == NonDefault(ByKey(b, SCOPE_CATEGORY))
    ensures Compiled(cat, a, sites) == Compiled(cat, b, sites)
  {
    var s, t := SetupOf(a, sites), SetupOf(b, sites);
    forall r: Rule
      ensures ActionIn(s, r) == ActionIn(t, r)
      ensures ExcludedServers(r, s.rules, s.categories) == ExcludedServers(r, t.rules, t.categories)
    {
      DefaultsSayNothing(r, a);
      DefaultsSayNothing(r, b);
    }
    SamePlaces(s, t, Sorted(cat));
  }

  /** The order in which the database returns the rows is irrelevant. */
  lemma CompiledInAnyOrder(cat: seq<Rule>, a: seq<Setting>, b: seq<Setting>, sites: map<string, Hosts>)
    requires OneRowEach(a) && OneRowEach(b) && multiset(a) == multiset(b)
    ensures Compiled(cat, a, sites) == Compiled(cat, b, sites)
  {
    RowOrderIrrelevant(a, b, SCOPE_RULE);
    RowOrderIrrelevant(a, b, SCOPE_CATEGORY);
  }

  /** So are the rows that isDefault would drop. */
  lemma CompiledWithoutDefaults(cat: seq<Rule>, settings: seq<Setting>, sites: map<string, Hosts>)
    requires OneRowEach(settings)
    ensures Compiled(cat, WithoutDefaults(settings), sites) == Compiled(cat, settings, sites)
  {
    DroppedRows(settings, SCOPE_RULE);
    DroppedRows(settings, SCOPE_CATEGORY);
    forall scope ensures NonDefault(NonDefault(ByKey(settings, scope))) == NonDefault(ByKey(settings, scope)) {
    }
    OnlyNonDefaultsMatter(cat, WithoutDefaults(settings), settings, sites);
  }

  // ----- storing the changes -----

  lemma FoundRows(rows: seq<Setting>, c: Setting)
    requires OneRowEach(rows) && Find(rows, c).Some?
    ensures var k := Find(rows, c).value;
            && (forall r :: r in rows[..k] + rows[k + 1..] <==> r in rows && !SameRow(r, c))
            && (forall r :: r in rows[k := c] <==> r == c || (r in rows && !SameRow(r, c)))
  {
    var k := Find(rows, c).value;
    forall j | 0 <= j < |rows| ensures SameRow(rows[j], c) <==> j == k {
      assert j < k ==> !SameRow(rows[j], rows[k]);
      assert k < j ==> !SameRow(rows[k], rows[j]);
    }
    forall r | r in rows && !SameRow(r, c) ensures r in rows[..k] + rows[k + 1..] && r in rows[k := c] {
      var j :| 0 <= j < |rows| && rows[j] == r;
      assert rows[k := c][j] == r;
      assert if j < k then rows[..k][j] == r else rows[k + 1..][j - k - 1] == r;
    }
    assert rows[k := c][k] == c;
  }

  lemma StoredMembers(rows: seq<Setting>, c: Setting)
    requires OneRowEach(rows)
    ensures forall r :: r in StoreOne(rows, c) <==> (r in rows && !SameRow(r, c)) || (r == c && !IsDefault(c))
  {
    hide IsDefault;
    if Find(rows, c).Some? { FoundRows(rows, c); }
  }

  lemma StoredOnce(rows: seq<Setting>, c: Setting)
    requires OneRowEach(rows)
    ensures OneRowEach(StoreOne(rows, c))
  {
    var k := Find(rows, c);
    if k.None? {
      Appended(rows, c);
    } else {
      Replaced(rows, c, k.value);
      Removed(rows, k.value);
    }
  }

  lemma Appended(rows: seq<Setting>, c: Setting)
    requires OneRowEach(rows) && forall r | r in rows :: !SameRow(r, c)
    ensures OneRowEach(rows + [c])
  {
    forall i | 0 <= i < |rows| ensures !SameRow(rows[i], c) { assert rows[i] in rows; }
  }

  lemma Removed(rows: seq<Setting>, k: nat)
    requires OneRowEach(rows) && k < |rows|
    ensures OneRowEach(rows[..k] + rows[k + 1..])
  {
    var kept := rows[..k] + rows[k + 1..];
    forall i, j | 0 <= i < j < |kept| ensures !SameRow(kept[i], kept[j]) {
      var i0, j0 := if i < k then i else i + 1, if j < k then j else j + 1;
      assert kept[i] == rows[i0] && kept[j] == rows[j0];
    }
  }

  lemma Replaced(rows: seq<Setting>, c: Setting, k: nat)
    requires OneRowEach(rows) && k < |rows| && SameRow(rows[k], c)
    ensures OneRowEach(rows[k := c])
  {
    var after := rows[k := c];
    forall i, j | 0 <= i < j < |after| ensures !SameRow(after[i], after[j]) {
      assert !SameRow(rows[i], rows[j]);
    }
  }

  lemma StoredTable(rows: seq<Setting>, c: Setting, scope: string)
    requires OneRowEach(rows)
    ensures NonDefault(ByKey(StoreOne(rows, c), scope)) == NonDefault(ByKey(rows + [c], scope))
  {
    hide IsDefault;
    StoredMembers(rows, c);
    StoredOnce(rows, c);
    ByKeyFinds(rows, scope);
    ByKeyFinds(StoreOne(rows, c), scope);
    assert (rows + [c])[..|rows|] == rows;
    var after, said := ByKey(StoreOne(rows, c), scope), ByKey(rows + [c], scope);
    forall s ensures Holds(NonDefault(after), s) <==> Holds(NonDefault(said), s) {
      assert Holds(after, s) <==> s in StoreOne(rows, c) && s.scope == scope;
    }
    SameTable(NonDefault(after), NonDefault(said));
  }

  lemma NonDefaultUpdated(table: Table, s: Setting)
    ensures NonDefault(table[s.ruleKey := s]) ==
            if IsDefault(s) then NonDefault(table) - {s.ruleKey} else NonDefault(table)[s.ruleKey := s]
  {
    hide IsDefault;
  }

  lemma SaidOneMore(a: seq<Setting>, b: seq<Setting>, c: Setting, scope: string)
    requires NonDefault(ByKey(a, scope)) == NonDefault(ByKey(b, scope))
    ensures NonDefault(ByKey(a + [c], scope)) == NonDefault(ByKey(b + [c], scope))
  {
    hide IsDefault;
    assert (a + [c])[..|a|] == a && (b + [c])[..|b|] == b;
    NonDefaultUpdated(ByKey(a, scope), c);
    NonDefaultUpdated(ByKey(b, scope), c);
  }

  lemma {:induction false} StoredTables(rows: seq<Setting>, changes: seq<Setting>, scope: string)
    requires OneRowEach(rows)
    ensures OneRowEach(StoreAll(rows, changes))
    ensures NonDefault(ByKey(StoreAll(rows, changes), scope)) == NonDefault(ByKey(rows + changes, scope))
  {
    hide IsDefault, StoreOne;
    if changes == [] {
      assert rows + changes == rows;
    } else {
      var init, c := changes[..|changes| - 1], changes[|changes| - 1];
      StoredTables(rows, init, scope);
      StoredOnce(StoreAll(rows, init), c);
      StoredTable(StoreAll(rows, init), c, scope);
      SaidOneMore(StoreAll(rows, init), rows + init, c, scope);
      assert rows + init + [c] == rows + changes;
    }
  }

  lemma {:induction false} NoDefaultsStored(rows: seq<Setting>, changes: seq<Setting>)
    requires OneRowEach(rows) && forall r | r in rows :: !IsDefault(r)
    ensures forall r | r in StoreAll(rows, changes) :: !IsDefault(r)
  {
    if changes != [] {
      var init := changes[..|changes| - 1];
      NoDefaultsStored(rows, init);
      StoredTables(rows, init, SCOPE_RULE);
      StoredMembers(StoreAll(rows, init), changes[|changes| - 1]);
    }
  }

  /**
   * What apply leaves in the database means what was said: rows followed by changes, the last word winning. It never
   * holds two rows for one key nor, once it holds none, a default.
   */
  lemma StoredMeansSaid(cat: seq<Rule>, rows: seq<Setting>, changes: seq<Setting>, sites: map<string, Hosts>)
    requires OneRowEach(rows)
    ensures OneRowEach(StoreAll(rows, changes))
    ensures Compiled(cat, StoreAll(rows, changes), sites) == Compiled(cat, rows + changes, sites)
    ensures (forall r | r in rows :: !IsDefault(r)) ==> forall r | r in StoreAll(rows, changes) :: !IsDefault(r)
  {
    StoredTables(rows, changes, SCOPE_RULE);
    StoredTables(rows, changes, SCOPE_CATEGORY);
    OnlyNonDefaultsMatter(cat, StoreAll(rows, changes), rows + changes, sites);
    if forall r | r in rows :: !IsDefault(r) { NoDefaultsStored(rows, changes); }
  }

  /** Normalising the ids of a change before it is stored is not seen either. */
  lemma TidyKeepsIds(c: Setting)
    ensures SplitIds(Tidy(c).excluded) == SplitIds(c.excluded)
    ensures IsDefault(Tidy(c)) == IsDefault(c)
  {
    IdsRoundTrip(c.excluded);
  }

  // ----- the text -----

  const HEADER :=
    "# Generated by nginxWebUI (CrowdSec Guard > WAF rules). Do not edit by hand.\n"
    + "name: nginxwebui/custom\n"
    + "default_remediation: ban\n"
    + "inband_rules:\n - crowdsecurity/base-config\n - crowdsecurity/vpatch-*\n"
    + "outofband_rules:\n - crowdsecurity/crs\n"

  const ON_MATCH := "on_match:\n"
  const ALERT := HookText("IsOutBand == true", "    - SendAlert()")

  /** docker/crowdsec/nwu-custom.yaml. */
  const IMAGE_DEFAULT := HEADER + ON_MATCH + ALERT

  function RemovalText(x: Removal): string {
    match x
    case InBandRuleByName(name) => "RemoveInBandRuleByName(" + Quoted(name) + ")"
    case OutBandRuleById(id) => "RemoveOutBandRuleByID(" + id + ")"
  }

  function RemovalLines(indent: string, xs: seq<Removal>): string {
    if xs == [] then "" else indent + RemovalText(xs[0]) + "\n" + RemovalLines(indent, xs[1..])
  }

  function PreEvalText(hooks: seq<PreEval>): string {
    if hooks == [] then ""
    else
      " - filter: " + FilterText(hooks[0].filter) + "\n   apply:\n" + RemovalLines("    - ", hooks[0].apply)
      + PreEvalText(hooks[1..])
  }

  function HookText(filter: string, apply: string): (r: string)
    ensures |r| > |apply|
  {
    " - filter: " + filter + "\n   apply:\n" + apply + "\n"
  }

  function OnMatchText(h: OnMatch): string {
    match h
    case AllowIfAllNamed(names) =>
      HookText("IsInBand && all(evt.Appsec.MatchedRules, {.name in " + ListText(names) + "})",
               "    - SetRemediation(\"allow\")\n    - CancelEvent()")
    case SendAlert => ALERT
    case CancelIfAllIn(ids) =>
      HookText("IsOutBand && all(evt.Appsec.MatchedRules, {.id < 911000 || .id >= 949000 || .id in ["
               + JoinText(ids, ", ") + "]})",
               "    - CancelEvent()")
  }

  function OnMatchTexts(hooks: seq<OnMatch>): string {
    if hooks == [] then "" else OnMatchText(hooks[0]) + OnMatchTexts(hooks[1..])
  }

  function OnLoadText(off: seq<Removal>): string {
    if off == [] then "" else "on_load:\n - apply:\n" + RemovalLines("   - ", off)
  }

  function PreEvalsText(hooks: seq<PreEval>): string {
    if hooks == [] then "" else "pre_eval:\n" + PreEvalText(hooks)
  }

  function Printed(c: Config): string {
    HEADER + OnLoadText(c.onLoad) + PreEvalsText(c.preEval) + ON_MATCH + OnMatchTexts(c.onMatch)
  }

  lemma PrintedLength(l: Lists)
    ensures Printed(Assemble(l)) == IMAGE_DEFAULT <==> l == Lists([], [], [], [])
  {
    var c := Assemble(l);
    OnMatchLength(l);
    assert l.off != [] ==> OnLoadText(l.off) != "";
    assert l.excluded != [] ==> PreEvalsText(l.excluded) != "";
    LongerDiffers(HEADER, OnLoadText(c.onLoad), PreEvalsText(c.preEval), ON_MATCH, OnMatchTexts(c.onMatch), ALERT);
  }

  lemma LongerDiffers(h: string, a: string, b: string, m: string, t: string, u: string)
    requires t == u || |t| > |u|
    ensures h + a + b + m + t == h + m + u <==> a == "" && b == "" && t == u
  {
    if a == "" && b == "" { assert h + a + b == h; }
    assert |h + a + b + m + t| == |h| + |a| + |b| + |m| + |t|;
  }

  lemma OnMatchLength(l: Lists)
    ensures var text := OnMatchTexts(Assemble(l).onMatch);
            if l.logVpatch == [] && l.logCrs == [] then text == ALERT else |text| > |ALERT|
  {
    var start := if l.logVpatch == [] then [] else [AllowIfAllNamed(l.logVpatch)];
    var end := if l.logCrs == [] then [] else [CancelIfAllIn(l.logCrs)];
    assert Assemble(l).onMatch == start + ([SendAlert] + end);
    hide Assemble, OnMatchText, OnMatchTexts;
    OneTextMore(SendAlert, end);
    NoTexts();
    AlertText();
    if l.logCrs != [] {
      HookTextNotEmpty(end[0]);
      OneTextMore(end[0], []);
      assert end == [end[0]] + [];
    }
    if l.logVpatch == [] {
      assert start + ([SendAlert] + end) == [SendAlert] + end;
    } else {
      HookTextNotEmpty(start[0]);
      OneTextMore(start[0], [SendAlert] + end);
    }
  }

  lemma NoTexts()
    ensures OnMatchTexts([]) == ""
  {
  }

  lemma AlertText()
    ensures OnMatchText(SendAlert) == ALERT
  {
  }

  lemma OneTextMore(h: OnMatch, rest: seq<OnMatch>)
    ensures OnMatchTexts([h] + rest) == OnMatchText(h) + OnMatchTexts(rest)
  {
    hide OnMatchText;
    assert ([h] + rest)[1..] == rest;
  }

  lemma HookTextNotEmpty(h: OnMatch)
    requires !h.SendAlert?
    ensures OnMatchText(h) != ""
  {
    hide HookText, ListText, JoinText;
  }

  /** The rule is handled as it would be with no settings, and no excluded site has a usable name. */
  predicate Untouched(s: Setup, r: Rule) {
    ActionIn(s, r) == DefaultAction(r.source) && NamesOf(ExcludedServers(r, s.rules, s.categories), s.sites) == ([], [])
  }

  lemma {:induction false} NothingPlaced(s: Setup, rules: seq<Rule>)
    ensures PlaceAll(s, rules) == Lists([], [], [], []) <==> forall r | r in rules :: Untouched(s, r)
  {
    if rules != [] {
      var init, r := rules[..|rules| - 1], rules[|rules| - 1];
      NothingPlaced(s, init);
      assert rules == init + [r];
      PlacedOrNot(PlaceAll(s, init), s, r);
    }
  }

  lemma HookNotEmpty(hooks: seq<PreEval>, f: Filter, x: Removal)
    ensures AddHook(hooks, f, x) != []
  {
  }

  lemma PlacedOrNot(l: Lists, s: Setup, r: Rule)
    ensures Place(l, s, r) == Lists([], [], [], []) <==> l == Lists([], [], [], []) && Untouched(s, r)
  {
    var action := ActionIn(s, r);
    assert action == "off" || action == "log" || action == DefaultAction(r.source);
    assert "off" != "log" && DefaultAction(r.source) != "off" && DefaultAction(r.source) != "log" by {
      assert |DefaultAction(r.source)| == 5 && "off"[0] != "log"[0];
    }
    var names := NamesOf(ExcludedServers(r, s.rules, s.categories), s.sites);
    HookNotEmpty(l.excluded, Filter(BandOf(r.source), names.0, names.1), RemovalOf(r.source, r.key));
  }

  /** The text is the image's default exactly if the settings leave every rule of the catalogue alone. */
  lemma DefaultTextExactlyIf(cat: seq<Rule>, settings: seq<Setting>, sites: map<string, Hosts>)
    ensures Printed(Compiled(cat, settings, sites)) == IMAGE_DEFAULT <==>
            forall r | r in cat :: Untouched(SetupOf(settings, sites), r)
  {
    var s := SetupOf(settings, sites);
    NothingPlaced(s, Sorted(cat));
    PrintedLength(PlaceAll(s, Sorted(cat)));
  }
}
