/** IpLookupService.lookup, and the part of the generated nginx configuration whose effect it predicts. */
module IpLookup {
  import opened Text
  import opened Numbers
  import opened ServerNames
  import opened IpPrefix

  // ----- what is stored -----

  /** One line of a list: an address or prefix, or something collectIps leaves out. */
  datatype Entry = Net(text: string, prefix: Prefix) | Unusable

  datatype IpList = IpList(name: string, entries: seq<Entry>)

  /** mode 0 lets only the listed countries in; any other mode keeps them out. serverId None: for every site. */
  datatype GeoRule = GeoRule(serverId: Option<string>, enabled: bool, mode: int, countries: string)

  datatype Site = Site(id: string, enabled: bool)

  datatype Stored = Stored(allow: seq<IpList>, deny: seq<IpList>, rules: seq<GeoRule>, sites: seq<Site>)

  /** code: None if the database does not know the address. */
  datatype Country = Country(available: bool, code: Option<string>)

  function FindRule(rules: seq<GeoRule>, scope: Option<string>): (r: Option<GeoRule>)
    ensures r.Some? ==> r.value in rules && r.value.enabled && r.value.serverId == scope
    ensures r.None? ==> forall x | x in rules :: !(x.enabled && x.serverId == scope)
  {
    if rules == [] then None
    else if rules[0].enabled && rules[0].serverId == scope then Some(rules[0])
    else FindRule(rules[1..], scope)
  }

  /** effectiveGeoRule: the site's own rule, else the global one. */
  function EffectiveRule(rules: seq<GeoRule>, id: string): (r: Option<GeoRule>)
    ensures r.Some? ==> r.value in rules && r.value.enabled
  {
    var own := FindRule(rules, Some(id));
    if own.Some? then own else FindRule(rules, None)
  }

  // ----- the generated configuration -----

  datatype Map = Map(name: string, otherwise: bool, listed: seq<string>)

  datatype Access = Access(allow: bool, prefix: Prefix)

  /** guard: the variable a site's "if" tests, None if it has no such block. */
  datatype Guarded = Guarded(site: string, guard: Option<string>)

  datatype Config = Config(allowGeo: seq<Prefix>, maps: seq<Map>, access: seq<Access>, sites: seq<Guarded>)

  predicate HasText(entries: seq<Entry>, text: string) {
    exists e :: e in entries && e.Net? && e.text == text
  }

  /** collectIps: every usable line of every list, each text once. */
  function Collected(entries: seq<Entry>): seq<Entry> {
    if entries == [] then []
    else
      var r := Collected(entries[..|entries| - 1]);
      var e := entries[|entries| - 1];
      if e.Unusable? || HasText(r, e.text) then r else r + [e]
  }

  lemma {:induction false} CollectedAre(entries: seq<Entry>)
    ensures forall e | e in Collected(entries) :: e in entries && e.Net?
    ensures forall e | e in entries && e.Net? :: HasText(Collected(entries), e.text)
  {
    if entries != [] {
      var init, e := entries[..|entries| - 1], entries[|entries| - 1];
      CollectedAre(init);
      assert entries == init + [e];
      TextMore(Collected(init), e);
    }
  }

  lemma TextMore(entries: seq<Entry>, e: Entry)
    ensures forall t :: HasText(entries, t) ==> HasText(entries + [e], t)
    ensures e.Net? ==> HasText(entries + [e], e.text)
  {
    assert e in entries + [e] && forall x :: x in entries ==> x in entries + [e];
  }

  function AllEntries(lists: seq<IpList>): (r: seq<Entry>)
    ensures forall e :: e in r <==> exists l :: l in lists && e in l.entries
  {
    if lists == [] then []
    else
      assert lists == lists[..|lists| - 1] + [lists[|lists| - 1]];
      AllEntries(lists[..|lists| - 1]) + lists[|lists| - 1].entries
  }

  function Prefixes(entries: seq<Entry>): (r: seq<Prefix>)
    ensures forall p :: p in r <==> exists e :: e in entries && e.Net? && e.prefix == p
  {
    if entries == [] then []
    else
      assert entries == entries[..|entries| - 1] + [entries[|entries| - 1]];
      Prefixes(entries[..|entries| - 1]) + if entries[|entries| - 1].Net? then [entries[|entries| - 1].prefix] else []
  }

  function CollectIps(lists: seq<IpList>): seq<Prefix> {
    Prefixes(Collected(AllEntries(lists)))
  }

  function Without(s: string, c: char): string {
    if s == "" then "" else (if s[0] == c then "" else [s[0]]) + Without(s[1..], c)
  }

  function Short(s: string): string {
    if |s| > 12 then s[..12] else s
  }

  /** The part of a rule's variable names that tells it from other rules. */
  function MapName(r: GeoRule): string {
    if r.serverId.None? || r.serverId.value == "" then "global" else Short(Without(r.serverId.value, '-'))
  }

  function CodesOf(pieces: seq<string>): (r: seq<string>)
    ensures forall c :: c in r <==> c != "" && exists x :: x in pieces && Trim(x) == c
  {
    if pieces == [] then []
    else
      assert pieces == pieces[..|pieces| - 1] + [pieces[|pieces| - 1]];
      CodesOf(pieces[..|pieces| - 1]) + if Trim(pieces[|pieces| - 1]) == "" then [] else [Trim(pieces[|pieces| - 1])]
  }

  function Codes(countries: string): seq<string> {
    CodesOf(Split(countries, ','))
  }

  predicate Mapped(r: GeoRule) {
    r.enabled && r.countries != ""
  }

  function MapOf(r: GeoRule): Map {
    Map(MapName(r), r.mode == 0, Codes(r.countries))
  }

  /** buildGeoMaps. */
  function Maps(rules: seq<GeoRule>): seq<Map> {
    if rules == [] then []
    else
      var last := rules[|rules| - 1];
      Maps(rules[..|rules| - 1]) + if Mapped(last) then [MapOf(last)] else []
  }

  function AccessOf(prefixes: seq<Prefix>, allow: bool): (r: seq<Access>)
    ensures forall x :: x in r <==> x.allow == allow && x.prefix in prefixes
  {
    if prefixes == [] then []
    else
      assert prefixes == [prefixes[0]] + prefixes[1..];
      [Access(allow, prefixes[0])] + AccessOf(prefixes[1..], allow)
  }

  function GuardOf(rules: seq<GeoRule>, id: string): Option<string> {
    var r := EffectiveRule(rules, id);
    if r.Some? && r.value.countries != "" then Some(MapName(r.value)) else None
  }

  function Guards(sites: seq<Site>, rules: seq<GeoRule>): (r: seq<Guarded>)
    ensures forall g :: g in r <==> exists s :: s in sites && s.enabled && g == Guarded(s.id, GuardOf(rules, s.id))
  {
    if sites == [] then []
    else
      assert sites == sites[..|sites| - 1] + [sites[|sites| - 1]];
      Guards(sites[..|sites| - 1], rules)
      + if sites[|sites| - 1].enabled
        then [Guarded(sites[|sites| - 1].id, GuardOf(rules, sites[|sites| - 1].id))] else []
  }

  function Generated(s: Stored): Config {
    Config(CollectIps(s.allow), Maps(s.rules),
           AccessOf(CollectIps(s.allow), true) + AccessOf(CollectIps(s.deny), false), Guards(s.sites, s.rules))
  }

  /** buildAllowlistGeo, buildGeoMaps, buildDenyAllow and the "if" of each enabled site. */
  method Generate(s: Stored) returns (c: Config)
    ensures c == Generated(s)
  {
    hide CollectIps, Maps, Guards, AccessOf;
    var allow := Collect(s.allow);
    var deny := Collect(s.deny);
    var maps := MakeMaps(s.rules);
    var sites := MakeGuards(s.sites, s.rules);
    c := Config(allow, maps, AccessOf(allow, true) + AccessOf(deny, false), sites);
  }

  method MakeMaps(rules: seq<GeoRule>) returns (maps: seq<Map>)
    ensures maps == Maps(rules)
  {
    hide MapOf;
    maps := [];
    for k := 0 to |rules|
      invariant maps == Maps(rules[..k])
    {
      assert rules[..k + 1][..k] == rules[..k];
      if rules[k].enabled && rules[k].countries != "" { maps := maps + [MapOf(rules[k])]; }
    }
    assert rules[..|rules|] == rules;
  }

  method MakeGuards(sites: seq<Site>, rules: seq<GeoRule>) returns (guards: seq<Guarded>)
    ensures guards == Guards(sites, rules)
  {
    hide GuardOf;
    guards := [];
    for k := 0 to |sites|
      invariant guards == Guards(sites[..k], rules)
    {
      assert sites[..k + 1][..k] == sites[..k];
      if sites[k].enabled { guards := guards + [Guarded(sites[k].id, GuardOf(rules, sites[k].id))]; }
    }
    assert sites[..|sites|] == sites;
  }

  /** collectIps. */
  method Collect(lists: seq<IpList>) returns (prefixes: seq<Prefix>)
    ensures prefixes == CollectIps(lists)
  {
    hide Prefixes, HasText, AllEntries;
    var all := AllEntries(lists);
    var kept: seq<Entry> := [];
    for k := 0 to |all|
      invariant kept == Collected(all[..k])
    {
      assert all[..k + 1][..k] == all[..k];
      var e := all[k];
      if e.Net? && !HasText(kept, e.text) { kept := kept + [e]; }
    }
    assert all[..|all|] == all;
    prefixes := Prefixes(kept);
  }

  // ----- what nginx does with it -----

  /** $nwu_allowlist: the entry with the longest prefix decides, and every entry says 1. */
  predicate Allowlisted(c: Config, ip: seq<Octet>) {
    exists p :: p in c.allowGeo && Holds(p, ip)
  }

  function FindMap(maps: seq<Map>, name: string): (r: Option<Map>)
    ensures r.Some? ==> r.value in maps && r.value.name == name
  {
    if maps == [] then None else if maps[0].name == name then Some(maps[0]) else FindMap(maps[1..], name)
  }

  predicate Lists(codes: seq<string>, country: string) {
    exists c :: c in codes && Lower(c) == Lower(country)
  }

  lemma ListsMore(codes: seq<string>, c: string, country: string)
    ensures Lists(codes + [c], country) <==> Lists(codes, country) || Lower(c) == Lower(country)
    ensures !Lists([], country)
  {
    hide Lower;
    assert c in codes + [c] && forall x :: x in codes ==> x in codes + [c];
  }

  /** $geo_block: a listed key has its value, any other the default; letter case is ignored. */
  predicate BlockValue(m: Map, country: string) {
    if Lists(m.listed, country) then !m.otherwise else m.otherwise
  }

  /** $geo_deny: 1 if the address is not on the allow list and the country is blocked. */
  predicate DenyValue(c: Config, name: string, ip: seq<Octet>, country: string) {
    var m := FindMap(c.maps, name);
    m.Some? && !Allowlisted(c, ip) && BlockValue(m.value, country)
  }

  predicate SiteRejects(c: Config, g: Guarded, ip: seq<Octet>, country: string) {
    g.guard.Some? && DenyValue(c, g.guard.value, ip, country)
  }

  /** The access module: the first rule that matches decides, none lets pass. */
  predicate AccessRejects(rules: seq<Access>, ip: seq<Octet>) {
    if rules == [] then false
    else if Holds(rules[0].prefix, ip) then !rules[0].allow
    else AccessRejects(rules[1..], ip)
  }

  // ----- the prediction -----

  datatype ListState = Match | NoMatch | Skipped
  datatype GeoState = GeoBlocked | GeoAllowed | GeoUnknown | GeoSkipped
  datatype GuardState = Banned | NotEnforced | NoBan | Unreadable | NoKey | GuardSkipped
  datatype Verdict = AllowedBy | ByGeo | ByDenyList | ByCrowdSec | Nothing | Undetermined

  /** blocked None: cannot be told. */
  datatype Detail = Detail(site: string, blocked: Option<bool>)

  datatype Answer = Answer(allowlist: ListState, allowLists: seq<string>, geo: GeoState, details: seq<Detail>,
                           denylist: ListState, denyLists: seq<string>, crowdsec: GuardState, blockedBy: Verdict)

  predicate ListMatches(l: IpList, ip: seq<Octet>) {
    exists e :: e in l.entries && e.Net? && Holds(e.prefix, ip)
  }

  function MatchingLists(lists: seq<IpList>, ip: seq<Octet>): (r: seq<string>)
    ensures r != [] <==> exists l :: l in lists && ListMatches(l, ip)
  {
    if lists == [] then []
    else
      assert lists == lists[..|lists| - 1] + [lists[|lists| - 1]];
      var last := lists[|lists| - 1];
      MatchingLists(lists[..|lists| - 1], ip) + if ListMatches(last, ip) then [last.name] else []
  }

  /** ruleBlocks. */
  predicate RuleBlocks(r: GeoRule, country: string) {
    var listed := Lists(Codes(r.countries), country);
    if r.mode == 0 then !listed else listed
  }

  function DetailOf(s: Stored, id: string, country: Country): Detail {
    var r := EffectiveRule(s.rules, id);
    if r.None? || r.value.countries == "" then Detail(id, Some(false))
    else if !country.available then Detail(id, None)
    else Detail(id, Some(RuleBlocks(r.value, OrEmpty(country.code))))
  }

  function OrEmpty(s: Option<string>): string {
    if s.None? then "" else s.value
  }

  function Details(s: Stored, sites: seq<Site>, country: Country): (r: seq<Detail>)
    ensures forall d :: d in r <==> exists x :: x in sites && x.enabled && d == DetailOf(s, x.id, country)
  {
    if sites == [] then []
    else
      assert sites == sites[..|sites| - 1] + [sites[|sites| - 1]];
      Details(s, sites[..|sites| - 1], country)
      + if sites[|sites| - 1].enabled then [DetailOf(s, sites[|sites| - 1].id, country)] else []
  }

  predicate HasFlag(details: seq<Detail>, flag: Option<bool>) {
    exists d :: d in details && d.blocked == flag
  }

  lemma FlagMore(details: seq<Detail>, d: Detail, flag: Option<bool>)
    ensures HasFlag(details + [d], flag) <==> HasFlag(details, flag) || d.blocked == flag
    ensures !HasFlag([], flag)
  {
    assert d in details + [d] && forall x :: x in details ==> x in details + [d];
  }

  function GeoStateOf(details: seq<Detail>): GeoState {
    if HasFlag(details, Some(true)) then GeoBlocked
    else if HasFlag(details, None) then GeoUnknown
    else GeoAllowed
  }

  method MatchLists(lists: seq<IpList>, ip: seq<Octet>) returns (names: seq<string>)
    ensures names == MatchingLists(lists, ip)
  {
    hide Holds;
    names := [];
    for k := 0 to |lists|
      invariant names == MatchingLists(lists[..k], ip)
    {
      assert lists[..k + 1][..k] == lists[..k];
      var hit := AnyEntry(lists[k], ip);
      if hit { names := names + [lists[k].name]; }
    }
    assert lists[..|lists|] == lists;
  }

  method AnyEntry(l: IpList, ip: seq<Octet>) returns (hit: bool)
    ensures hit == ListMatches(l, ip)
  {
    hide Holds;
    for k := 0 to |l.entries|
      invariant forall e | e in l.entries[..k] && e.Net? :: !Holds(e.prefix, ip)
    {
      assert l.entries[..k + 1] == l.entries[..k] + [l.entries[k]];
      if l.entries[k].Net? {
        var inside := IpPrefix.Contains(l.entries[k].prefix, ip);
        if inside {
          assert l.entries[k] in l.entries;
          return true;
        }
      }
    }
    assert l.entries[..|l.entries|] == l.entries;
    hit := false;
  }

  method GeoLayer(s: Stored, country: Country) returns (state: GeoState, details: seq<Detail>)
    ensures details == Details(s, s.sites, country) && state == GeoStateOf(details)
  {
    hide DetailOf, HasFlag;
    details := [];
    var blocked, undecided := false, false;
    FlagMore([], Detail("", None), Some(true));
    FlagMore([], Detail("", None), None);
    for k := 0 to |s.sites|
      invariant details == Details(s, s.sites[..k], country)
      invariant blocked == HasFlag(details, Some(true)) && undecided == HasFlag(details, None)
    {
      assert s.sites[..k + 1][..k] == s.sites[..k];
      if !s.sites[k].enabled { continue; }
      var d := SiteDetail(s, s.sites[k].id, country);
      undecided := undecided || d.blocked == None;
      blocked := blocked || d.blocked == Some(true);
      FlagMore(details, d, Some(true));
      FlagMore(details, d, None);
      details := details + [d];
    }
    assert s.sites[..|s.sites|] == s.sites;
    state := if blocked then GeoBlocked else if undecided then GeoUnknown else GeoAllowed;
  }

  method SiteDetail(s: Stored, id: string, country: Country) returns (d: Detail)
    ensures d == DetailOf(s, id, country)
  {
    hide EffectiveRule, Codes, OrEmpty;
    var rule := EffectiveRule(s.rules, id);
    if rule.None? || rule.value.countries == "" { return Detail(id, Some(false)); }
    if !country.available { return Detail(id, None); }
    var listed := Listed(Codes(rule.value.countries), OrEmpty(country.code));
    d := Detail(id, Some(if rule.value.mode == 0 then !listed else listed));
  }

  method Listed(codes: seq<string>, country: string) returns (listed: bool)
    ensures listed == Lists(codes, country)
  {
    hide Lower, Lists;
    listed := false;
    ListsMore([], "", country);
    for k := 0 to |codes|
      invariant listed == Lists(codes[..k], country)
    {
      assert codes[..k + 1] == codes[..k] + [codes[k]];
      ListsMore(codes[..k], codes[k], country);
      listed := listed || Lower(codes[k]) == Lower(country);
    }
    assert codes[..|codes|] == codes;
  }

  /** The first layer that blocks; without one, whether a layer could not be asked. */
  function Decision(geo: GeoState, deny: ListState, crowdsec: GuardState): Verdict {
    if geo == GeoBlocked then ByGeo
    else if deny == Match then ByDenyList
    else if crowdsec == Banned then ByCrowdSec
    else if geo == GeoUnknown || crowdsec == Unreadable then Undetermined
    else Nothing
  }

  /** lookup, for an address; crowdsec: what asking CrowdSec gives. */
  method Lookup(s: Stored, ip: seq<Octet>, country: Country, crowdsec: GuardState) returns (a: Answer)
    requires crowdsec != GuardSkipped
    ensures a.allowLists == MatchingLists(s.allow, ip) && a.allowlist == if a.allowLists == [] then NoMatch else Match
    ensures a.allowlist == Match ==>
              a == Answer(Match, a.allowLists, GeoSkipped, [], Skipped, [], GuardSkipped, AllowedBy)
    ensures a.allowlist != Match ==>
              && a.details == Details(s, s.sites, country) && a.geo == GeoStateOf(a.details)
              && a.denyLists == MatchingLists(s.deny, ip) &&
                   a.denylist == (if a.denyLists == [] then NoMatch else Match)
              && a.crowdsec == crowdsec && a.blockedBy == Decision(a.geo, a.denylist, crowdsec)
  {
    var allowLists := MatchLists(s.allow, ip);
    if allowLists != [] {
      return Answer(Match, allowLists, GeoSkipped, [], Skipped, [], GuardSkipped, AllowedBy);
    }
    var geo, details := GeoLayer(s, country);
    var denyLists := MatchLists(s.deny, ip);
    var deny := if denyLists == [] then NoMatch else Match;
    a := Answer(NoMatch, [], geo, details, deny, denyLists, crowdsec, Decision(geo, deny, crowdsec));
  }

  // ----- the prediction is right -----

  /** One text stands for one prefix. */
  ghost predicate Readable(lists: seq<IpList>) {
    forall e, f :: e in AllEntries(lists) && f in AllEntries(lists) && e.Net? && f.Net? && e.text == f.text ==> e == f
  }

  /** The rules that make maps have different variable names. */
  predicate DistinctNames(rules: seq<GeoRule>) {
    forall j, k :: 0 <= j < k < |rules| && Mapped(rules[j]) && Mapped(rules[k]) ==>
      MapName(rules[j]) != MapName(rules[k])
  }

  lemma CollectedAll(lists: seq<IpList>, ip: seq<Octet>)
    requires Readable(lists)
    ensures (exists p :: p in CollectIps(lists) && Holds(p, ip)) <==> MatchingLists(lists, ip) != []
  {
    hide Holds, Collected;
    var all := AllEntries(lists);
    CollectedAre(all);
    if p :| p in CollectIps(lists) && Holds(p, ip) {
      var e :| e in Collected(all) && e.Net? && e.prefix == p;
      var l :| l in lists && e in l.entries;
      assert ListMatches(l, ip);
    }
    if l :| l in lists && ListMatches(l, ip) {
      var e :| e in l.entries && e.Net? && Holds(e.prefix, ip);
      assert e in all;
      var x :| x in Collected(all) && x.Net? && x.text == e.text;
      assert x == e && e.prefix in CollectIps(lists);
    }
  }

  lemma {:induction false} NoAllowMatches(rules: seq<Access>, deny: seq<Access>, ip: seq<Octet>)
    requires forall x | x in rules :: x.allow && !Holds(x.prefix, ip)
    ensures AccessRejects(rules + deny, ip) == AccessRejects(deny, ip)
  {
    hide Holds;
    if rules == [] {
      assert rules + deny == deny;
    } else {
      assert rules[0] in rules && forall x :: x in rules[1..] ==> x in rules;
      assert (rules + deny)[1..] == rules[1..] + deny;
      NoAllowMatches(rules[1..], deny, ip);
    }
  }

  lemma {:induction false} SomeAllowMatches(rules: seq<Access>, deny: seq<Access>, ip: seq<Octet>)
    requires (forall x | x in rules :: x.allow) && exists x :: x in rules && Holds(x.prefix, ip)
    ensures !AccessRejects(rules + deny, ip)
  {
    hide Holds;
    assert rules[0] in rules && rules == [rules[0]] + rules[1..];
    assert (rules + deny)[1..] == rules[1..] + deny && (rules + deny)[0] == rules[0];
    if !Holds(rules[0].prefix, ip) {
      assert forall x :: x in rules[1..] ==> x in rules;
      SomeAllowMatches(rules[1..], deny, ip);
    }
  }

  lemma {:induction false} DenyMatches(rules: seq<Access>, ip: seq<Octet>)
    requires forall x | x in rules :: !x.allow
    ensures AccessRejects(rules, ip) <==> exists x :: x in rules && Holds(x.prefix, ip)
  {
    hide Holds;
    if rules != [] {
      assert rules[0] in rules && rules == [rules[0]] + rules[1..];
      assert forall x :: x in rules[1..] ==> x in rules;
      DenyMatches(rules[1..], ip);
    }
  }

  /** Deny rules reject exactly the addresses on a deny list and on no allow list. */
  lemma AccessIsPredicted(s: Stored, ip: seq<Octet>)
    requires Readable(s.allow) && Readable(s.deny)
    ensures Allowlisted(Generated(s), ip) <==> MatchingLists(s.allow, ip) != []
    ensures AccessRejects(Generated(s).access, ip) <==>
              MatchingLists(s.allow, ip) == [] && MatchingLists(s.deny, ip) != []
  {
    hide Holds, CollectIps, Readable, Maps, Guards;
    CollectedAll(s.allow, ip);
    CollectedAll(s.deny, ip);
    AccessOrder(CollectIps(s.allow), CollectIps(s.deny), ip);
  }

  lemma AccessOrder(allow: seq<Prefix>, deny: seq<Prefix>, ip: seq<Octet>)
    ensures AccessRejects(AccessOf(allow, true) + AccessOf(deny, false), ip) <==>
            !(exists p :: p in allow && Holds(p, ip)) && exists p :: p in deny && Holds(p, ip)
  {
    hide Holds, AccessRejects;
    var a, d := AccessOf(allow, true), AccessOf(deny, false);
    if p :| p in allow && Holds(p, ip) {
      assert Access(true, p) in a;
      SomeAllowMatches(a, d, ip);
    } else {
      NoAllowMatches(a, d, ip);
      DenyMatches(d, ip);
      if q :| q in deny && Holds(q, ip) { assert Access(false, q) in d; }
    }
  }

  lemma {:induction false} MapsAre(rules: seq<GeoRule>, m: Map)
    ensures m in Maps(rules) <==> exists r :: r in rules && Mapped(r) && m == MapOf(r)
  {
    hide MapOf;
    if rules != [] {
      MapsAre(rules[..|rules| - 1], m);
      assert rules == rules[..|rules| - 1] + [rules[|rules| - 1]];
    }
  }

  lemma {:induction false} FoundMap(maps: seq<Map>, name: string)
    requires exists m :: m in maps && m.name == name
    ensures FindMap(maps, name).Some?
  {
    if maps[0].name != name {
      assert maps == [maps[0]] + maps[1..];
      FoundMap(maps[1..], name);
    }
  }

  lemma RuleFindsItsMap(rules: seq<GeoRule>, r: GeoRule)
    requires DistinctNames(rules) && r in rules && Mapped(r)
    ensures FindMap(Maps(rules), MapName(r)) == Some(MapOf(r))
  {
    hide MapName, Codes;
    MapsAre(rules, MapOf(r));
    FoundMap(Maps(rules), MapName(r));
    var m := FindMap(Maps(rules), MapName(r)).value;
    MapsAre(rules, m);
    var x :| x in rules && Mapped(x) && m == MapOf(x);
    OneName(rules, x, r);
  }

  lemma OneName(rules: seq<GeoRule>, x: GeoRule, r: GeoRule)
    requires DistinctNames(rules) && x in rules && r in rules && Mapped(x) && Mapped(r) && MapName(x) == MapName(r)
    ensures x == r
  {
    hide MapName;
    var j :| 0 <= j < |rules| && rules[j] == x;
    var k :| 0 <= k < |rules| && rules[k] == r;
    assert j == k;
  }

  /** For one site: the predicted flag is what its "if" block does to an address that is not allowlisted. */
  lemma SiteIsPredicted(s: Stored, id: string, ip: seq<Octet>, country: Country)
    requires DistinctNames(s.rules) && country.available
    ensures var rejects := SiteRejects(Generated(s), Guarded(id, GuardOf(s.rules, id)), ip, OrEmpty(country.code));
            if Allowlisted(Generated(s), ip) then !rejects else DetailOf(s, id, country) == Detail(id, Some(rejects))
  {
    hide MapName, Codes, Allowlisted, CollectIps, Guards, Maps, AccessOf;
    var r := EffectiveRule(s.rules, id);
    if r.Some? && r.value.countries != "" { RuleFindsItsMap(s.rules, r.value); }
  }

  /**
   * lookup predicts the generated configuration. An allowlisted address is rejected by no site's country rule and by
   * no deny rule. For any other address each enabled site's flag is what its country guard does, the country layer is
   * "blocked" exactly if some enabled site rejects, and the deny layer matches exactly if the access rules reject.
   */
  lemma LookupPredicts(s: Stored, ip: seq<Octet>, country: Country)
    requires Readable(s.allow) && Readable(s.deny) && DistinctNames(s.rules) && country.available
    ensures var c, code := Generated(s), OrEmpty(country.code);
            if MatchingLists(s.allow, ip) != [] then
              !AccessRejects(c.access, ip) && forall g :: g in c.sites ==> !SiteRejects(c, g, ip, code)
            else
              && (forall x | x in s.sites && x.enabled ::
                    var g := Guarded(x.id, GuardOf(s.rules, x.id));
                    g in c.sites && DetailOf(s, x.id, country) == Detail(x.id, Some(SiteRejects(c, g, ip, code))))
              && (GeoStateOf(Details(s, s.sites, country)) ==
                  if exists g :: g in c.sites && SiteRejects(c, g, ip, code) then GeoBlocked else GeoAllowed)
              && (MatchingLists(s.deny, ip) != [] <==> AccessRejects(c.access, ip))
  {
    hide Holds, CollectIps, Maps, AccessOf, EffectiveRule, SiteRejects, AccessRejects, GuardOf, DetailOf, MatchingLists,
      DistinctNames, Readable, Allowlisted;
    var c, code := Generated(s), OrEmpty(country.code);
    AccessIsPredicted(s, ip);
    forall id
      ensures var rejects := SiteRejects(c, Guarded(id, GuardOf(s.rules, id)), ip, code);
              if Allowlisted(c, ip) then !rejects else DetailOf(s, id, country) == Detail(id, Some(rejects))
    {
      SiteIsPredicted(s, id, ip, country);
    }
    if !Allowlisted(c, ip) { GeoIsPredicted(s, ip, country); }
  }

  lemma GeoIsPredicted(s: Stored, ip: seq<Octet>, country: Country)
    requires var c, code := Generated(s), OrEmpty(country.code);
             forall id {:trigger DetailOf(s, id, country)} ::
               DetailOf(s, id, country) == Detail(id, Some(SiteRejects(c, Guarded(id, GuardOf(s.rules, id)), ip, code)))
    ensures var c, code := Generated(s), OrEmpty(country.code);
            GeoStateOf(Details(s, s.sites, country)) ==
            if exists g :: g in c.sites && SiteRejects(c, g, ip, code) then GeoBlocked else GeoAllowed
  {
    hide Holds, CollectIps, Maps, AccessOf, EffectiveRule, SiteRejects, GuardOf, DetailOf;
    var c, code := Generated(s), OrEmpty(country.code);
    var details := Details(s, s.sites, country);
    forall d | d in details ensures d.blocked.Some? {
      var x :| x in s.sites && x.enabled && d == DetailOf(s, x.id, country);
    }
    if d :| d in details && d.blocked == Some(true) {
      var x :| x in s.sites && x.enabled && d == DetailOf(s, x.id, country);
      assert Guarded(x.id, GuardOf(s.rules, x.id)) in c.sites;
    }
    if g :| g in c.sites && SiteRejects(c, g, ip, code) {
      var x :| x in s.sites && x.enabled && g == Guarded(x.id, GuardOf(s.rules, x.id));
      assert DetailOf(s, x.id, country) in details;
    }
  }
}
