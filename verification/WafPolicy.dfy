/** WafTuningService: which action and which excluded sites the stored settings give a WAF rule. */
module WafPolicy {
  import opened Text

  datatype Source = Vpatch | Crs

  datatype Rule = Rule(key: string, source: Source, category: string)

  datatype Setting = Setting(scope: string, ruleKey: string, action: string, excluded: string)

  type Table = map<string, Setting>

  const SCOPE_RULE := "rule"
  const SCOPE_CATEGORY := "category"
  const INHERIT := "inherit"

  function DefaultAction(source: Source): string {
    if source.Vpatch? then "block" else "count"
  }

  predicate Allowed(source: Source, action: string) {
    action == "log" || action == "off" || action == DefaultAction(source)
  }

  function SourceOfCategory(category: string): Source {
    if "vpatch:" <= category then Vpatch else Crs
  }

  // ----- comma-separated site ids -----

  function IdsOf(pieces: seq<string>): seq<string> {
    if pieces == [] then [] else AddId(IdsOf(pieces[..|pieces| - 1]), Trim(pieces[|pieces| - 1]))
  }

  function AddId(ids: seq<string>, id: string): seq<string> {
    if id == "" then ids else AddNew(ids, id)
  }

  /** splitIds: blank pieces dropped, the others trimmed, each kept once. */
  function SplitIds(csv: string): seq<string> {
    IdsOf(Split(csv, ','))
  }

  method CollectIds(pieces: seq<string>) returns (ids: seq<string>)
    ensures ids == IdsOf(pieces)
  {
    ids := [];
    for k := 0 to |pieces|
      invariant ids == IdsOf(pieces[..k])
    {
      assert pieces[..k + 1][..k] == pieces[..k];
      ids := AddId(ids, Trim(pieces[k]));
    }
    assert pieces[..|pieces|] == pieces;
  }

  method ReadIds(csv: string) returns (ids: seq<string>)
    ensures ids == SplitIds(csv)
  {
    ids := CollectIds(Split(csv, ','));
  }

  /** Trimmed, not empty, no comma, each once. */
  predicate CleanIds(ids: seq<string>) {
    ids != [] ==>
      var init, last := ids[..|ids| - 1], ids[|ids| - 1];
      CleanIds(init) && last != "" && Trim(last) == last && ',' !in last && last !in init
  }

  lemma TrimIdempotent(s: string)
    ensures Trim(Trim(s)) == Trim(s)
  {
    hide TrimEnd;
    var t := TrimStart(s);
    TrimEndTwice(t);
    if t != "" {
      TrimEndFirst(t);
      assert TrimStart(TrimEnd(t)) == TrimEnd(t);
    } else {
      NothingTrims();
    }
  }

  lemma NothingTrims()
    ensures TrimEnd("") == "" && TrimStart("") == ""
  {
  }

  lemma {:induction false} IdsOfAreClean(pieces: seq<string>)
    requires forall p | p in pieces :: ',' !in p
    ensures CleanIds(IdsOf(pieces))
  {
    if pieces != [] {
      var init, last := pieces[..|pieces| - 1], pieces[|pieces| - 1];
      IdsOfAreClean(init);
      assert last in pieces;
      OneMore(IdsOf(init), last);
    }
  }

  lemma OneMore(ids: seq<string>, piece: string)
    requires CleanIds(ids) && ',' !in piece
    ensures Trim(piece) != "" && Trim(piece) !in ids ==> CleanIds(ids + [Trim(piece)])
  {
    var id := Trim(piece);
    TrimIdempotent(piece);
    TrimKeepsOut(piece, ',');
    assert (ids + [id])[..|ids + [id]| - 1] == ids;
  }

  lemma {:induction false} NoCommas(ids: seq<string>)
    requires CleanIds(ids)
    ensures forall id | id in ids :: ',' !in id
  {
    if ids != [] {
      NoCommas(ids[..|ids| - 1]);
      assert ids == ids[..|ids| - 1] + [ids[|ids| - 1]];
    }
  }

  lemma TrimKeepsOut(s: string, c: char)
    requires c !in s
    ensures c !in Trim(s)
  {
    var t := TrimStart(s);
    assert t == s[|s| - |t|..];
    assert Trim(s) == t[..|Trim(s)|];
  }

  lemma {:induction false} IdsOfClean(ids: seq<string>)
    requires CleanIds(ids)
    ensures IdsOf(ids) == ids
  {
    if ids != [] {
      IdsOfClean(ids[..|ids| - 1]);
      assert ids == ids[..|ids| - 1] + [ids[|ids| - 1]];
    }
  }

  /** Storing the ids of a list and reading them back gives the same ids. */
  lemma IdsRoundTrip(csv: string)
    ensures SplitIds(Join(SplitIds(csv), ',')) == SplitIds(csv)
  {
    var ids := SplitIds(csv);
    SplitPieces(csv, ',');
    IdsOfAreClean(Split(csv, ','));
    if ids != [] {
      NoCommas(ids);
      SplitJoin(ids, ',');
      IdsOfClean(ids);
    } else {
      assert Split("", ',') == [""];
      assert [""][..0] == [];
    }
  }

  // ----- sorted sets of names (TreeSet) -----

  predicate Before(a: string, b: string) {
    if a == "" then b != ""
    else if b == "" then false
    else if a[0] == b[0] then Before(a[1..], b[1..])
    else a[0] < b[0]
  }

  function Add(xs: seq<string>, x: string): (r: seq<string>)
    ensures forall y :: y in r <==> y == x || y in xs
  {
    if xs == [] then [x]
    else if x == xs[0] then xs
    else if Before(x, xs[0]) then [x] + xs
    else [xs[0]] + Add(xs[1..], x)
  }

  function AddAll(xs: seq<string>, ys: seq<string>): (r: seq<string>)
    ensures forall y :: y in r <==> y in xs || y in ys
  {
    if ys == [] then xs
    else
      assert ys == ys[..|ys| - 1] + [ys[|ys| - 1]];
      Add(AddAll(xs, ys[..|ys| - 1]), ys[|ys| - 1])
  }

  // ----- what the settings say -----

  function ByKey(settings: seq<Setting>, scope: string): Table {
    if settings == [] then map[]
    else
      var table := ByKey(settings[..|settings| - 1], scope);
      var s := settings[|settings| - 1];
      if s.scope == scope then table[s.ruleKey := s] else table
  }

  method TableOf(settings: seq<Setting>, scope: string) returns (table: Table)
    ensures table == ByKey(settings, scope)
  {
    table := map[];
    for k := 0 to |settings|
      invariant table == ByKey(settings[..k], scope)
    {
      assert settings[..k + 1][..k] == settings[..k];
      if settings[k].scope == scope { table := table[settings[k].ruleKey := settings[k]]; }
    }
    assert settings[..|settings|] == settings;
  }

  /** The rule's own setting if its action is allowed here, then its category's, then the source's default. */
  function EffectiveAction(r: Rule, rules: Table, categories: Table): string {
    if r.key in rules && Allowed(r.source, rules[r.key].action) then rules[r.key].action
    else if r.category in categories && Allowed(r.source, categories[r.category].action)
    then categories[r.category].action
    else DefaultAction(r.source)
  }

  function IdsIn(table: Table, key: string): seq<string> {
    if key in table then SplitIds(table[key].excluded) else []
  }

  /** The sites excluded by the rule's setting and by its category's. */
  function ExcludedServers(r: Rule, rules: Table, categories: Table): seq<string> {
    AddAll(AddAll([], IdsIn(rules, r.key)), IdsIn(categories, r.category))
  }

  /** A setting that is not stored: nothing excluded, and the action says nothing. */
  predicate IsDefault(s: Setting) {
    && SplitIds(s.excluded) == []
    && (if s.scope == SCOPE_RULE then s.action == INHERIT || Trim(s.action) == ""
        else DefaultAction(SourceOfCategory(s.ruleKey)) == s.action)
  }

  function NonDefault(table: Table): Table {
    map k | k in table && !IsDefault(table[k]) :: table[k]
  }

  lemma {:induction false} ByKeyEntries(settings: seq<Setting>, scope: string)
    ensures forall k | k in ByKey(settings, scope) ::
              var s := ByKey(settings, scope)[k];
              s in settings && s.scope == scope && s.ruleKey == k
    ensures forall s | s in settings && s.scope == scope :: s.ruleKey in ByKey(settings, scope)
  {
    if settings != [] {
      ByKeyEntries(settings[..|settings| - 1], scope);
      assert settings == settings[..|settings| - 1] + [settings[|settings| - 1]];
    }
  }

  lemma RuleDefaultSaysNothing(s: Setting, source: Source)
    requires s.scope == SCOPE_RULE && IsDefault(s)
    ensures !Allowed(source, s.action)
  {
    if Allowed(source, s.action) {
      AllowedIsAWord(source, s.action);
      TrimWord(s.action);
      assert false;
    }
  }

  lemma AllowedIsAWord(source: Source, a: string)
    requires Allowed(source, a)
    ensures a != "" && a[0] > ' ' && a[|a| - 1] > ' ' && |a| < |INHERIT|
  {
    if a == "log" {
    } else if a == "off" {
    } else if a == "block" {
    } else {
      assert a == "count";
    }
  }

  lemma CategoryDefaultSaysNothing(s: Setting, source: Source)
    requires s.scope == SCOPE_CATEGORY && IsDefault(s)
    ensures Allowed(source, s.action) ==> s.action == DefaultAction(source)
  {
    var other := DefaultAction(SourceOfCategory(s.ruleKey));
    assert other == "block" || other == "count";
  }

  lemma IdsInNonDefault(table: Table, key: string)
    ensures IdsIn(NonDefault(table), key) == IdsIn(table, key)
  {
    if key in table && IsDefault(table[key]) {
      assert SplitIds(table[key].excluded) == [];
    }
  }

  lemma TrimWord(w: string)
    requires w != "" && w[0] > ' ' && w[|w| - 1] > ' '
    ensures Trim(w) == w
  {
  }

  /** A rule's action and exclusions are the same whether the default settings are kept or dropped. */
  lemma DefaultsSayNothing(r: Rule, settings: seq<Setting>)
    ensures var rules, categories := ByKey(settings, SCOPE_RULE), ByKey(settings, SCOPE_CATEGORY);
            && EffectiveAction(r, NonDefault(rules), NonDefault(categories)) == EffectiveAction(r, rules, categories)
            && ExcludedServers(r, NonDefault(rules), NonDefault(categories)) == ExcludedServers(r, rules, categories)
  {
    hide SplitIds, IsDefault, ByKey, DefaultAction, Add, AddAll;
    var rules, categories := ByKey(settings, SCOPE_RULE), ByKey(settings, SCOPE_CATEGORY);
    ByKeyEntries(settings, SCOPE_RULE);
    ByKeyEntries(settings, SCOPE_CATEGORY);
    if r.key in rules && IsDefault(rules[r.key]) { RuleDefaultSaysNothing(rules[r.key], r.source); }
    if r.category in categories && IsDefault(categories[r.category]) {
      CategoryDefaultSaysNothing(categories[r.category], r.source);
    }
    IdsInNonDefault(rules, r.key);
    IdsInNonDefault(categories, r.category);
  }

  // ----- rows and their order -----

  /** At most one row for a scope and key. */
  predicate OneRowEach(settings: seq<Setting>) {
    forall j, k :: 0 <= j < k < |settings| ==>
      settings[j].scope != settings[k].scope || settings[j].ruleKey != settings[k].ruleKey
  }

  lemma ByKeyFinds(settings: seq<Setting>, scope: string)
    requires OneRowEach(settings)
    ensures forall s :: Holds(ByKey(settings, scope), s) <==> s in settings && s.scope == scope
    ensures Keyed(ByKey(settings, scope))
  {
    ByKeyEntries(settings, scope);
    forall s | s in settings && s.scope == scope ensures Holds(ByKey(settings, scope), s) {
      var t := ByKey(settings, scope)[s.ruleKey];
      OneRow(settings, s, t);
    }
  }

  lemma OneRow(settings: seq<Setting>, s: Setting, t: Setting)
    requires OneRowEach(settings) && s in settings && t in settings && s.scope == t.scope && s.ruleKey == t.ruleKey
    ensures s == t
  {
    var j :| 0 <= j < |settings| && settings[j] == s;
    var k :| 0 <= k < |settings| && settings[k] == t;
    assert j == k;
  }

  ghost predicate Keyed(table: Table) {
    forall k | k in table :: table[k].ruleKey == k
  }

  predicate Holds(table: Table, s: Setting) {
    s.ruleKey in table && table[s.ruleKey] == s
  }

  lemma SameTable(a: Table, b: Table)
    requires Keyed(a) && Keyed(b) && forall s :: Holds(a, s) <==> Holds(b, s)
    ensures a == b
  {
    forall k ensures k in a <==> k in b {
      if k in a { assert Holds(a, a[k]); }
      if k in b { assert Holds(b, b[k]); }
    }
    forall k | k in a ensures a[k] == b[k] { assert Holds(a, a[k]); }
  }

  /** With one row for each scope and key, the order of the rows is irrelevant. */
  lemma RowOrderIrrelevant(a: seq<Setting>, b: seq<Setting>, scope: string)
    requires OneRowEach(a) && OneRowEach(b) && multiset(a) == multiset(b)
    ensures ByKey(a, scope) == ByKey(b, scope)
  {
    ByKeyFinds(a, scope);
    ByKeyFinds(b, scope);
    forall s ensures s in a <==> s in b {
      assert s in a <==> s in multiset(a);
      assert s in b <==> s in multiset(b);
    }
    SameTable(ByKey(a, scope), ByKey(b, scope));
  }

  function WithoutDefaults(settings: seq<Setting>): seq<Setting> {
    if settings == [] then []
    else
      var kept := WithoutDefaults(settings[..|settings| - 1]);
      var s := settings[|settings| - 1];
      if IsDefault(s) then kept else kept + [s]
  }

  lemma {:induction false} WithoutDefaultsKeys(settings: seq<Setting>)
    ensures forall s :: s in WithoutDefaults(settings) <==> s in settings && !IsDefault(s)
    ensures OneRowEach(settings) ==> OneRowEach(WithoutDefaults(settings))
  {
    hide IsDefault;
    if settings != [] {
      var init, s := settings[..|settings| - 1], settings[|settings| - 1];
      WithoutDefaultsKeys(init);
      assert settings == init + [s];
      if OneRowEach(settings) {
        assert OneRowEach(init);
        forall t | t in init ensures t.scope != s.scope || t.ruleKey != s.ruleKey {
          var k :| 0 <= k < |init| && init[k] == t;
          assert settings[k] == t && settings[|settings| - 1] == s;
        }
      }
    }
  }

  lemma DroppedRows(settings: seq<Setting>, scope: string)
    requires OneRowEach(settings)
    ensures ByKey(WithoutDefaults(settings), scope) == NonDefault(ByKey(settings, scope))
  {
    hide IsDefault;
    WithoutDefaultsKeys(settings);
    ByKeyFinds(settings, scope);
    ByKeyFinds(WithoutDefaults(settings), scope);
    SameTable(ByKey(WithoutDefaults(settings), scope), NonDefault(ByKey(settings, scope)));
  }
}
