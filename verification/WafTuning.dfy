/** WafTuningService: what the compiled on_match hooks decide, what the text shows, and how settings are stored. */
module WafTuning {
  import opened WafPolicy
  import opened WafCompile

  // ----- log-only rules -----

  /** No two rules of the catalogue have the same key. */
  predicate KeysOnce(cat: seq<Rule>) {
    forall j, k :: 0 <= j < k < |cat| ==> cat[j].key != cat[k].key
  }

  lemma {:induction false} LoggedAre(s: Setup, rules: seq<Rule>, key: string)
    ensures key in PlaceAll(s, rules).logVpatch <==>
            exists r :: r in rules && r.key == key && r.source.Vpatch? && ActionIn(s, r) == "log"
    ensures key in PlaceAll(s, rules).logCrs <==>
            exists r :: r in rules && r.key == key && r.source.Crs? && ActionIn(s, r) == "log"
  {
    hide ActionIn, Place;
    if rules != [] {
      var init, r := rules[..|rules| - 1], rules[|rules| - 1];
      LoggedAre(s, init, key);
      PlaceLogs(PlaceAll(s, init), s, r);
      assert rules == init + [r];
    }
  }

  lemma PlaceLogs(l: Lists, s: Setup, r: Rule)
    ensures Place(l, s, r).logVpatch
         == if ActionIn(s, r) == "log" && r.source.Vpatch? then l.logVpatch + [r.key] else l.logVpatch
    ensures Place(l, s, r).logCrs == if ActionIn(s, r) == "log" && r.source.Crs? then l.logCrs + [r.key] else l.logCrs
  {
  }

  ghost predicate IsLogged(cat: seq<Rule>, s: Setup, source: Source, key: string) {
    exists r :: r in cat && r.key == key && r.source == source && ActionIn(s, r) == "log"
  }

  lemma AssembledVerdict(l: Lists, band: Band, matched: seq<string>)
    requires matched != []
    ensures OnMatched(Assemble(l).onMatch, band, matched) ==
            if band.InBand? then
              Verdict(AllNamed(matched, l.logVpatch), false, AllNamed(matched, l.logVpatch))
            else Verdict(false, true, l.logCrs != [] && AllQuiet(matched, l.logCrs))
  {
    var start := if l.logVpatch == [] then [] else [AllowIfAllNamed(l.logVpatch)];
    FirstHook(l.logVpatch, band, matched);
    OneMoreHook(start, SendAlert, band, matched);
    OneMoreHook(start + [SendAlert], CancelIfAllIn(l.logCrs), band, matched);
    assert start + [SendAlert] + [] == start + [SendAlert];
  }

  lemma FirstHook(names: seq<string>, band: Band, matched: seq<string>)
    requires matched != []
    ensures var through := band.InBand? && AllNamed(matched, names);
            OnMatched(if names == [] then [] else [AllowIfAllNamed(names)], band, matched) ==
              Verdict(through, false, through)
  {
    assert matched[0] in matched;
    OneMoreHook([], AllowIfAllNamed(names), band, matched);
    assert [] + [AllowIfAllNamed(names)] == [AllowIfAllNamed(names)];
  }

  lemma OneMoreHook(hooks: seq<OnMatch>, h: OnMatch, band: Band, matched: seq<string>)
    ensures OnMatched(hooks + [h], band, matched) == React(OnMatched(hooks, band, matched), h, band, matched)
  {
    assert (hooks + [h])[..|hooks|] == hooks;
  }

  /** In band, a request is let through, with no event, exactly if every rule it matched is log-only. */
  lemma LetThroughIsExact(cat: seq<Rule>, settings: seq<Setting>, sites: map<string, Hosts>, matched: seq<string>)
    requires matched != []
    ensures var v := OnMatched(Compiled(cat, settings, sites).onMatch, InBand, matched);
            && (v.allowed <==> forall m | m in matched :: IsLogged(cat, SetupOf(settings, sites), Vpatch, m))
            && v.cancelled == v.allowed && !v.alerted
  {
    var s := SetupOf(settings, sites);
    var l := PlaceAll(s, Sorted(cat));
    AssembledVerdict(l, InBand, matched);
    forall m | m in matched ensures m in l.logVpatch <==> IsLogged(cat, s, Vpatch, m) { LoggedAre(s, Sorted(cat), m); }
  }

  /**
   * Out of band the alert always goes out; the event is dropped exactly if some CRS rule is log-only and every scoring
   * rule it matched is.
   */
  lemma CountedIsExact(cat: seq<Rule>, settings: seq<Setting>, sites: map<string, Hosts>, matched: seq<string>)
    requires matched != []
    ensures var s := SetupOf(settings, sites);
            var v := OnMatched(Compiled(cat, settings, sites).onMatch, OutBand, matched);
            && v.alerted && !v.allowed
            && (v.cancelled <==>
                && (exists key :: IsLogged(cat, s, Crs, key))
                && forall m | m in matched :: !Scores(m) || IsLogged(cat, s, Crs, m))
  {
    var s := SetupOf(settings, sites);
    var l := PlaceAll(s, Sorted(cat));
    AssembledVerdict(l, OutBand, matched);
    forall m ensures m in l.logCrs <==> IsLogged(cat, s, Crs, m) { LoggedAre(s, Sorted(cat), m); }
    assert l.logCrs != [] ==> l.logCrs[0] in l.logCrs;
  }

  // ----- the prediction stored with an event -----

  function EffectiveActions(cat: seq<Rule>, s: Setup): map<string, string> {
    if cat == [] then map[]
    else EffectiveActions(cat[..|cat| - 1], s)[cat[|cat| - 1].key := ActionIn(s, cat[|cat| - 1])]
  }

  method ActionsNow(cat: seq<Rule>, s: Setup) returns (actions: map<string, string>)
    ensures actions == EffectiveActions(cat, s)
  {
    actions := map[];
    for k := 0 to |cat|
      invariant actions == EffectiveActions(cat[..k], s)
    {
      assert cat[..k + 1][..k] == cat[..k];
      actions := actions[cat[k].key := ActionIn(s, cat[k])];
    }
    assert cat[..|cat|] == cat;
  }

  predicate IsVpatchName(n: string) {
    "crowdsecurity/vpatch-" <= n
  }

  predicate LogsIn(effective: map<string, string>, n: string) {
    n in effective && effective[n] == "log"
  }

  /** vpatchActionOf: "log" if there are virtual patches among the names and all of those are log-only. */
  method VpatchActionOf(names: seq<string>, effective: map<string, string>) returns (action: string)
    ensures var vpatch := exists n :: n in names && IsVpatchName(n);
            var allLog := forall n :: n in names && IsVpatchName(n) ==> LogsIn(effective, n);
            action == if vpatch && allLog then "log" else "block"
  {
    var any := false;
    for k := 0 to |names|
      invariant any <==> exists n :: n in names[..k] && IsVpatchName(n)
      invariant forall n :: n in names[..k] && IsVpatchName(n) ==> LogsIn(effective, n)
    {
      assert names[..k + 1] == names[..k] + [names[k]];
      if IsVpatchName(names[k]) {
        any := true;
        if !LogsIn(effective, names[k]) {
          assert names[k] in names;
          return "block";
        }
      }
    }
    assert names[..|names|] == names;
    action := if any then "log" else "block";
  }

  /** What VpatchActionOf answers, as a predicate. */
  predicate PredictsLog(names: seq<string>, effective: map<string, string>) {
    (exists n | n in names :: IsVpatchName(n)) && (forall n | n in names :: IsVpatchName(n) ==> LogsIn(effective, n))
  }

  lemma {:induction false} ActionsAre(cat: seq<Rule>, s: Setup, r: Rule)
    requires KeysOnce(cat) && r in cat
    ensures r.key in EffectiveActions(cat, s) && EffectiveActions(cat, s)[r.key] == ActionIn(s, r)
  {
    var init, last := cat[..|cat| - 1], cat[|cat| - 1];
    assert cat == init + [last];
    if r != last {
      assert r in init;
      ActionsAre(init, s, r);
      var j :| 0 <= j < |init| && init[j] == r;
      assert cat[j].key != cat[|cat| - 1].key;
    }
  }

  /** The names are keys of virtual patches in the catalogue. */
  ghost predicate AllVpatches(cat: seq<Rule>, names: seq<string>) {
    forall n | n in names :: exists r :: r in cat && r.key == n && r.source.Vpatch?
  }

  lemma LogsInIsLogged(cat: seq<Rule>, s: Setup, n: string)
    requires KeysOnce(cat) && AllVpatches(cat, [n])
    ensures LogsIn(EffectiveActions(cat, s), n) <==> IsLogged(cat, s, Vpatch, n)
  {
    assert n in [n];
    var r :| r in cat && r.key == n && r.source.Vpatch?;
    ActionsAre(cat, s, r);
    forall q | q in cat && q.key == n ensures q == r { SameRule(cat, q, r); }
  }

  lemma SameRule(cat: seq<Rule>, q: Rule, r: Rule)
    requires KeysOnce(cat) && q in cat && r in cat && q.key == r.key
    ensures q == r
  {
    var j :| 0 <= j < |cat| && cat[j] == q;
    var k :| 0 <= k < |cat| && cat[k] == r;
    assert j == k;
  }

  /** The prediction and the compiled hooks agree on these matched rules. */
  ghost predicate Agrees(cat: seq<Rule>, settings: seq<Setting>, sites: map<string, Hosts>, matched: seq<string>) {
    OnMatched(Compiled(cat, settings, sites).onMatch, InBand, matched).allowed <==>
    PredictsLog(matched, EffectiveActions(cat, SetupOf(settings, sites)))
  }

  lemma AgreesIf(cat: seq<Rule>, settings: seq<Setting>, sites: map<string, Hosts>, matched: seq<string>)
    requires matched != [] && KeysOnce(cat) && AllVpatches(cat, matched)
    ensures Agrees(cat, settings, sites, matched) <==>
            ((forall n | n in matched :: IsLogged(cat, SetupOf(settings, sites), Vpatch, n)) <==>
             (exists n | n in matched :: IsVpatchName(n)) &&
             (forall n | n in matched :: IsVpatchName(n) ==> IsLogged(cat, SetupOf(settings, sites), Vpatch, n)))
  {
    var s := SetupOf(settings, sites);
    LetThroughIsExact(cat, settings, sites, matched);
    forall n | n in matched ensures LogsIn(EffectiveActions(cat, s), n) <==> IsLogged(cat, s, Vpatch, n) {
      LogsInIsLogged(cat, s, n);
    }
  }

  /** Log-only rows for the names. */
  function LogRows(names: seq<string>): seq<Setting> {
    if names == [] then [] else LogRows(names[..|names| - 1]) + [Setting(SCOPE_RULE, names[|names| - 1], "log", "")]
  }

  lemma {:induction false} LogRowsTable(names: seq<string>)
    ensures forall k :: k in ByKey(LogRows(names), SCOPE_RULE) <==> k in names
    ensures forall k | k in names :: ByKey(LogRows(names), SCOPE_RULE)[k].action == "log"
    ensures ByKey(LogRows(names), SCOPE_CATEGORY) == map[]
  {
    if names != [] {
      var init, last := names[..|names| - 1], names[|names| - 1];
      LogRowsTable(init);
      assert names == init + [last];
      assert LogRows(names)[..|LogRows(names)| - 1] == LogRows(init);
      assert SCOPE_RULE[0] != SCOPE_CATEGORY[0];
    }
  }

  lemma LogRowsLog(cat: seq<Rule>, names: seq<string>, n: string)
    requires KeysOnce(cat) && AllVpatches(cat, [n])
    ensures IsLogged(cat, SetupOf(LogRows(names), map[]), Vpatch, n) <==> n in names
  {
    var s := SetupOf(LogRows(names), map[]);
    LogRowsTable(names);
    assert n in [n];
    var r :| r in cat && r.key == n && r.source.Vpatch?;
    forall q | q in cat && q.key == n ensures q == r { SameRule(cat, q, r); }
    assert |DefaultAction(Vpatch)| == 5;
    assert ActionIn(s, r) == "log" <==> n in names;
  }

  function OnlyVpatchNames(names: seq<string>): (r: seq<string>)
    ensures forall n :: n in r <==> n in names && IsVpatchName(n)
  {
    if names == [] then []
    else
      assert names == names[..|names| - 1] + [names[|names| - 1]];
      var r := OnlyVpatchNames(names[..|names| - 1]);
      if IsVpatchName(names[|names| - 1]) then r + [names[|names| - 1]] else r
  }

  /** A set of matched rules that the prediction gets wrong under some settings. */
  lemma DisagreesOn(cat: seq<Rule>, matched: seq<string>, u: string) returns (settings: seq<Setting>)
    requires KeysOnce(cat) && AllVpatches(cat, matched) && u in matched && !IsVpatchName(u)
    ensures !Agrees(cat, settings, map[], matched)
  {
    var vpatches := OnlyVpatchNames(matched);
    settings := LogRows(if vpatches == [] then matched else vpatches);
    var s := SetupOf(settings, map[]);
    forall n | n in matched
      ensures IsLogged(cat, s, Vpatch, n) <==> n in (if vpatches == [] then matched else vpatches) {
      LogRowsLog(cat, if vpatches == [] then matched else vpatches, n);
    }
    assert vpatches != [] ==> vpatches[0] in vpatches;
    AgreesIf(cat, settings, map[], matched);
  }

  /**
   * The prediction is right about a set of matched virtual patches, whatever the settings, exactly if each of their
   * names starts as the hub names virtual patches. The catalogue does not require that of a name.
   */
  lemma PredictionIsRightExactlyIf(cat: seq<Rule>, matched: seq<string>)
    requires matched != [] && KeysOnce(cat) && AllVpatches(cat, matched)
    ensures (forall settings, sites :: Agrees(cat, settings, sites, matched)) <==>
              forall n | n in matched :: IsVpatchName(n)
  {
    if u :| u in matched && !IsVpatchName(u) {
      var settings := DisagreesOn(cat, matched, u);
      assert !Agrees(cat, settings, map[], matched);
    } else {
      forall settings, sites ensures Agrees(cat, settings, sites, matched) {
        AgreesIf(cat, settings, sites, matched);
        assert matched[0] in matched;
      }
    }
  }
}
