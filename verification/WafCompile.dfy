/**
 * WafTuningService.render: settings compiled to an appsec configuration, as the structure the YAML text spells,
 * with an evaluator for what CrowdSec does with it.
 */
module WafCompile {
  import opened Text
  import opened Numbers
  import opened ServerNames
  import opened WafPolicy

  // ----- names a request's host can be compared with -----

  datatype Hosts = Hosts(exact: seq<string>, suffixes: seq<string>, skipped: seq<string>)

  predicate IsHostChar(c: char) {
    'a' <= c <= 'z' || '0' <= c <= '9' || c == '-'
  }

  predicate IsLabel(l: string) {
    l != "" && (forall c | c in l :: IsHostChar(c)) && l[0] != '-' && l[|l| - 1] != '-'
  }

  /** The HOST expression: labels between dots. */
  predicate IsHostName(n: string) {
    forall l | l in Split(n, '.') :: IsLabel(l)
  }

  function AddName(h: Hosts, raw: string): Hosts {
    var n := Lower(raw);
    if "*." <= n && IsHostName(n[2..]) then h.(suffixes := h.suffixes + [n[1..]])
    else if "." <= n && IsHostName(n[1..]) then h.(exact := h.exact + [n[1..]], suffixes := h.suffixes + [n])
    else if IsHostName(n) then h.(exact := h.exact + [n])
    else h.(skipped := h.skipped + [raw])
  }

  function HostsOf(words: seq<string>): Hosts {
    if words == [] then Hosts([], [], []) else AddName(HostsOf(words[..|words| - 1]), words[|words| - 1])
  }

  method SplitNames(words: seq<string>) returns (h: Hosts)
    ensures h == HostsOf(words)
  {
    h := Hosts([], [], []);
    for k := 0 to |words|
      invariant h == HostsOf(words[..k])
    {
      assert words[..k + 1][..k] == words[..k];
      h := AddName(h, words[k]);
    }
    assert words[..|words|] == words;
  }

  /** What both parts of the generated filter compare: the Host header up to its colon, in lower case. */
  function RequestHost(header: string): string {
    Lower(Split(header, ':')[0])
  }

  predicate NamesHost(exact: seq<string>, suffixes: seq<string>, host: string) {
    host in exact || exists s | s in suffixes :: EndsWith(host, s)
  }

  predicate SiteNamesHost(h: Hosts, host: string) {
    NamesHost(h.exact, h.suffixes, host)
  }

  // ----- the configuration -----

  datatype Band = InBand | OutBand

  datatype Filter = Filter(band: Band, exact: seq<string>, suffixes: seq<string>)

  datatype Removal = InBandRuleByName(name: string) | OutBandRuleById(id: string)

  datatype PreEval = PreEval(filter: Filter, apply: seq<Removal>)

  datatype OnMatch = AllowIfAllNamed(names: seq<string>) | SendAlert | CancelIfAllIn(ids: seq<string>)

  datatype Config = Config(onLoad: seq<Removal>, preEval: seq<PreEval>, onMatch: seq<OnMatch>)

  function BandOf(source: Source): Band {
    if source.Vpatch? then InBand else OutBand
  }

  function RemovalOf(source: Source, key: string): Removal {
    if source.Vpatch? then InBandRuleByName(key) else OutBandRuleById(key)
  }

  // ----- what CrowdSec does with it -----

  predicate Applies(f: Filter, band: Band, host: string) {
    f.band == band && NamesHost(f.exact, f.suffixes, host)
  }

  predicate RemovedFor(hooks: seq<PreEval>, band: Band, host: string, x: Removal) {
    exists h | h in hooks :: Applies(h.filter, band, host) && x in h.apply
  }

  /** The rule is loaded, and no hook takes it out for a request with this Host header. */
  predicate Active(c: Config, source: Source, key: string, header: string) {
    var x := RemovalOf(source, key);
    x !in c.onLoad && !RemovedFor(c.preEval, BandOf(source), RequestHost(header), x)
  }

  datatype Verdict = Verdict(allowed: bool, alerted: bool, cancelled: bool)

  /** Outside 911000..948999 a rule only sets up or sums up. */
  predicate Scores(id: string) {
    911000 <= Value(id) < 949000
  }

  predicate AllNamed(matched: seq<string>, names: seq<string>) {
    forall m | m in matched :: m in names
  }

  predicate AllQuiet(matched: seq<string>, ids: seq<string>) {
    forall m | m in matched :: !Scores(m) || m in ids
  }

  function React(v: Verdict, hook: OnMatch, band: Band, matched: seq<string>): Verdict {
    match hook
    case AllowIfAllNamed(names) =>
      if band.InBand? && AllNamed(matched, names) then v.(allowed := true, cancelled := true) else v
    case SendAlert => if band.OutBand? then v.(alerted := true) else v
    case CancelIfAllIn(ids) =>
      if band.OutBand? && AllQuiet(matched, ids) then v.(cancelled := true) else v
  }

  function OnMatched(hooks: seq<OnMatch>, band: Band, matched: seq<string>): Verdict {
    if hooks == [] then Verdict(false, false, false)
    else React(OnMatched(hooks[..|hooks| - 1], band, matched), hooks[|hooks| - 1], band, matched)
  }

  // ----- render -----

  /** The excluded sites' names together, each once and in order. */
  function NamesOf(ids: seq<string>, sites: map<string, Hosts>): (r: (seq<string>, seq<string>))
    ensures forall host :: NamesHost(r.0, r.1, host) <==>
              exists id :: id in ids && id in sites && SiteNamesHost(sites[id], host)
  {
    if ids == [] then ([], [])
    else
      var init, id := ids[..|ids| - 1], ids[|ids| - 1];
      var r := NamesOf(init, sites);
      assert ids == init + [id];
      if id in sites then
        assert forall host ::
            NamesHost(AddAll(r.0, sites[id].exact), AddAll(r.1, sites[id].suffixes), host) <==>
            NamesHost(r.0, r.1, host) || SiteNamesHost(sites[id], host);
        (AddAll(r.0, sites[id].exact), AddAll(r.1, sites[id].suffixes))
      else r
  }

  function FilterText(f: Filter): string {
    (if f.band.InBand? then "IsInBand && " else "IsOutBand && ") + HostText(f.exact, f.suffixes)
  }

  const REQ_HOST := "lower(split(req.Host, \":\")[0])"

  function Quoted(x: string): string {
    "\"" + x + "\""
  }

  function QuotedEach(xs: seq<string>): seq<string> {
    if xs == [] then [] else [Quoted(xs[0])] + QuotedEach(xs[1..])
  }

  function JoinText(xs: seq<string>, separator: string): string {
    if xs == [] then "" else if |xs| == 1 then xs[0] else xs[0] + separator + JoinText(xs[1..], separator)
  }

  function ListText(xs: seq<string>): string {
    "[" + JoinText(QuotedEach(xs), ", ") + "]"
  }

  function EndsWithEach(suffixes: seq<string>): seq<string> {
    if suffixes == [] then [] else [REQ_HOST + " endsWith " + Quoted(suffixes[0])] + EndsWithEach(suffixes[1..])
  }

  function HostText(exact: seq<string>, suffixes: seq<string>): string {
    var parts := (if exact == [] then [] else [REQ_HOST + " in " + ListText(exact)]) + EndsWithEach(suffixes);
    if |parts| == 1 then parts[0] else "(" + JoinText(parts, " || ") + ")"
  }

  /** Hooks are kept in the order of their filters' text, rules with the same filter under one hook. */
  function AddHook(hooks: seq<PreEval>, f: Filter, x: Removal): seq<PreEval> {
    if hooks == [] then [PreEval(f, [x])]
    else if hooks[0].filter == f then [PreEval(f, hooks[0].apply + [x])] + hooks[1..]
    else if Before(FilterText(f), FilterText(hooks[0].filter)) then [PreEval(f, [x])] + hooks
    else [hooks[0]] + AddHook(hooks[1..], f, x)
  }

  datatype Lists = Lists(off: seq<Removal>, logVpatch: seq<string>, logCrs: seq<string>, excluded: seq<PreEval>)

  datatype Setup = Setup(rules: Table, categories: Table, sites: map<string, Hosts>)

  function SetupOf(settings: seq<Setting>, sites: map<string, Hosts>): Setup {
    Setup(ByKey(settings, SCOPE_RULE), ByKey(settings, SCOPE_CATEGORY), sites)
  }

  function ActionIn(s: Setup, r: Rule): string {
    EffectiveAction(r, s.rules, s.categories)
  }

  function Place(l: Lists, s: Setup, r: Rule): Lists {
    var action := ActionIn(s, r);
    var x := RemovalOf(r.source, r.key);
    if action == "off" then l.(off := l.off + [x])
    else
      var logged := if action != "log" then l
                    else if r.source.Vpatch? then l.(logVpatch := l.logVpatch + [r.key])
                    else l.(logCrs := l.logCrs + [r.key]);
      var (exact, suffixes) := NamesOf(ExcludedServers(r, s.rules, s.categories), s.sites);
      if exact == [] && suffixes == [] then logged
      else logged.(excluded := AddHook(logged.excluded, Filter(BandOf(r.source), exact, suffixes), x))
  }

  function PlaceAll(s: Setup, rules: seq<Rule>): Lists {
    if rules == [] then Lists([], [], [], []) else Place(PlaceAll(s, rules[..|rules| - 1]), s, rules[|rules| - 1])
  }

  /** Virtual patches first, then by key; rules equal in both keep their order. */
  predicate Precedes(a: Rule, b: Rule) {
    if a.source == b.source then Before(a.key, b.key) else a.source.Vpatch?
  }

  function Insert(rules: seq<Rule>, r: Rule): (q: seq<Rule>)
    ensures forall x :: x in q <==> x == r || x in rules
  {
    if rules == [] then [r]
    else if Precedes(r, rules[|rules| - 1]) then Insert(rules[..|rules| - 1], r) + [rules[|rules| - 1]]
    else rules + [r]
  }

  function Sorted(rules: seq<Rule>): (q: seq<Rule>)
    ensures forall x :: x in q <==> x in rules
  {
    if rules == [] then []
    else
      assert rules == rules[..|rules| - 1] + [rules[|rules| - 1]];
      Insert(Sorted(rules[..|rules| - 1]), rules[|rules| - 1])
  }

  function Assemble(l: Lists): Config {
    Config(l.off, l.excluded,
           (if l.logVpatch == [] then [] else [AllowIfAllNamed(l.logVpatch)]) + [SendAlert]
           + (if l.logCrs == [] then [] else [CancelIfAllIn(l.logCrs)]))
  }

  function Compiled(cat: seq<Rule>, settings: seq<Setting>, sites: map<string, Hosts>): Config {
    Assemble(PlaceAll(SetupOf(settings, sites), Sorted(cat)))
  }

  /** render, up to the text of the hooks. */
  method Render(cat: seq<Rule>, settings: seq<Setting>, sites: map<string, Hosts>) returns (c: Config)
    ensures c == Compiled(cat, settings, sites)
  {
    var rules := TableOf(settings, SCOPE_RULE);
    var categories := TableOf(settings, SCOPE_CATEGORY);
    var setup := Setup(rules, categories, sites);
    var sorted := Sorted(cat);
    var l := Lists([], [], [], []);
    for k := 0 to |sorted|
      invariant l == PlaceAll(setup, sorted[..k])
    {
      assert sorted[..k + 1][..k] == sorted[..k];
      l := Place(l, setup, sorted[k]);
    }
    assert sorted[..|sorted|] == sorted;
    c := Assemble(l);
  }

  // ----- what is active -----

  /** One of the sites excluded for the rule has a name for this host. */
  ghost predicate SiteExcluded(s: Setup, r: Rule, host: string) {
    exists id :: id in ExcludedServers(r, s.rules, s.categories) && id in s.sites && SiteNamesHost(s.sites[id], host)
  }

  lemma {:induction false} HookAdded(hooks: seq<PreEval>, f: Filter, y: Removal, band: Band, host: string, x: Removal)
    ensures RemovedFor(AddHook(hooks, f, y), band, host, x) <==>
            RemovedFor(hooks, band, host, x) || (Applies(f, band, host) && x == y)
  {
    if hooks == [] {
    } else if hooks[0].filter == f {
      OneHook(PreEval(f, hooks[0].apply + [y]), hooks[1..], band, host, x);
      OneHook(hooks[0], hooks[1..], band, host, x);
    } else if Before(FilterText(f), FilterText(hooks[0].filter)) {
      OneHook(PreEval(f, [y]), hooks, band, host, x);
    } else {
      HookAdded(hooks[1..], f, y, band, host, x);
      OneHook(hooks[0], AddHook(hooks[1..], f, y), band, host, x);
      OneHook(hooks[0], hooks[1..], band, host, x);
    }
  }

  lemma OneHook(h: PreEval, rest: seq<PreEval>, band: Band, host: string, x: Removal)
    ensures RemovedFor([h] + rest, band, host, x) <==>
            (Applies(h.filter, band, host) && x in h.apply) || RemovedFor(rest, band, host, x)
    ensures rest != [] ==> rest == [rest[0]] + rest[1..]
  {
    var all := [h] + rest;
    assert h in all && forall g | g in rest :: g in all;
  }

  ghost predicate TurnedOff(s: Setup, rules: seq<Rule>, x: Removal) {
    exists r :: r in rules && RemovalOf(r.source, r.key) == x && ActionIn(s, r) == "off"
  }

  ghost predicate Excluded(s: Setup, rules: seq<Rule>, host: string, x: Removal) {
    exists r :: r in rules && RemovalOf(r.source, r.key) == x && ActionIn(s, r) != "off" && SiteExcluded(s, r, host)
  }

  lemma {:induction false} OffListed(s: Setup, rules: seq<Rule>, x: Removal)
    ensures x in PlaceAll(s, rules).off <==> TurnedOff(s, rules, x)
  {
    if rules != [] {
      var init, r := rules[..|rules| - 1], rules[|rules| - 1];
      OffListed(s, init, x);
      PlaceOff(PlaceAll(s, init), s, r);
      hide Place, ActionIn;
      assert rules == init + [r];
    }
  }

  lemma PlaceOff(l: Lists, s: Setup, r: Rule)
    ensures Place(l, s, r).off == l.off + if ActionIn(s, r) == "off" then [RemovalOf(r.source, r.key)] else []
  {
    hide ActionIn, NamesOf, AddHook, ExcludedServers;
  }

  lemma {:induction false} ExclusionsListed(s: Setup, rules: seq<Rule>, band: Band, host: string, x: Removal)
    requires band == (if x.InBandRuleByName? then InBand else OutBand)
    ensures RemovedFor(PlaceAll(s, rules).excluded, band, host, x) <==> Excluded(s, rules, host, x)
  {
    hide Place, ActionIn, SiteExcluded, Excluded, RemovedFor;
    if rules == [] {
      NothingExcluded(s, band, host, x);
    } else {
      var init, r := rules[..|rules| - 1], rules[|rules| - 1];
      ExclusionsListed(s, init, band, host, x);
      ExclusionsSplit(s, init, r, host, x);
      assert rules == init + [r];
      PlaceExcludes(PlaceAll(s, init), s, r, band, host, x);
    }
  }

  lemma NothingExcluded(s: Setup, band: Band, host: string, x: Removal)
    ensures !RemovedFor([], band, host, x) && !Excluded(s, [], host, x)
  {
  }

  lemma ExclusionsSplit(s: Setup, init: seq<Rule>, r: Rule, host: string, x: Removal)
    ensures Excluded(s, init + [r], host, x) <==>
            Excluded(s, init, host, x) ||
            (RemovalOf(r.source, r.key) == x && ActionIn(s, r) != "off" && SiteExcluded(s, r, host))
  {
    assert r in init + [r] && forall q | q in init :: q in init + [r];
  }

  lemma PlaceExcludes(l: Lists, s: Setup, r: Rule, band: Band, host: string, x: Removal)
    requires band == (if x.InBandRuleByName? then InBand else OutBand)
    ensures RemovedFor(Place(l, s, r).excluded, band, host, x) <==>
            RemovedFor(l.excluded, band, host, x) ||
            (RemovalOf(r.source, r.key) == x && ActionIn(s, r) != "off" && SiteExcluded(s, r, host))
  {
    var y := RemovalOf(r.source, r.key);
    if ActionIn(s, r) != "off" {
      var names := NamesOf(ExcludedServers(r, s.rules, s.categories), s.sites);
      assert NamesHost(names.0, names.1, host) <==> SiteExcluded(s, r, host);
      HookAdded(l.excluded, Filter(BandOf(r.source), names.0, names.1), y, band, host, x);
    }
  }

  /** A removal is loaded or hooked for a host exactly if some catalogue rule is off or has an excluded site. */
  lemma RemovedExactlyIf(cat: seq<Rule>, settings: seq<Setting>, sites: map<string, Hosts>, source: Source, key: string,
                         host: string)
    ensures var s, c, x := SetupOf(settings, sites), Compiled(cat, settings, sites), RemovalOf(source, key);
            x in c.onLoad || RemovedFor(c.preEval, BandOf(source), host, x) <==>
            !forall r :: r in cat && r.source == source && r.key == key ==>
              ActionIn(s, r) != "off" && !SiteExcluded(s, r, host)
  {
    var s, x := SetupOf(settings, sites), RemovalOf(source, key);
    OffListed(s, Sorted(cat), x);
    ExclusionsListed(s, Sorted(cat), BandOf(source), host, x);
    assert forall r :: r in Sorted(cat) <==> r in cat;
    assert forall r: Rule :: RemovalOf(r.source, r.key) == x <==> r.source == source && r.key == key;
    Refuted(s, Sorted(cat), host, x);
  }

  /**
   * The compiled configuration means what the settings say: a rule is active for a host exactly if no catalogue rule
   * of that name is off or has an excluded site with a name for the host.
   */
  lemma CompiledIsExact(cat: seq<Rule>, settings: seq<Setting>, sites: map<string, Hosts>,
                        source: Source, key: string, header: string)
    ensures var s := SetupOf(settings, sites);
            Active(Compiled(cat, settings, sites), source, key, header) <==>
            forall r :: r in cat && r.source == source && r.key == key ==>
              ActionIn(s, r) != "off" && !SiteExcluded(s, r, RequestHost(header))
  {
    hide *;
    RemovedExactlyIf(cat, settings, sites, source, key, RequestHost(header));
    ActiveIs(Compiled(cat, settings, sites), source, key, header);
  }

  lemma ActiveIs(c: Config, source: Source, key: string, header: string)
    ensures Active(c, source, key, header) <==>
            !(RemovalOf(source, key) in c.onLoad ||
              RemovedFor(c.preEval, BandOf(source), RequestHost(header), RemovalOf(source, key)))
  {
    hide RequestHost, RemovedFor;
  }

  lemma Refuted(s: Setup, rules: seq<Rule>, host: string, x: Removal)
    ensures TurnedOff(s, rules, x) || Excluded(s, rules, host, x) <==>
            !forall r :: r in rules && RemovalOf(r.source, r.key) == x ==>
              ActionIn(s, r) != "off" && !SiteExcluded(s, r, host)
  {
  }
}
