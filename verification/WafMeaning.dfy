/** WafTuningService: the words the settings are stored in, and what they do to a rule, for each source in full. */
module WafMeaning {
  import opened Text
  import opened ServerNames
  import opened WafPolicy
  import opened WafCompile

  /** The words a rule of this source can be set to. */
  predicate Word(source: Source, action: string) {
    match source
    case Vpatch => action in {"block", "log", "off"}
    case Crs => action in {"count", "log", "off"}
  }

  /** The row that counts for this scope and key: no later one has both. */
  ghost predicate Row(settings: seq<Setting>, scope: string, key: string, s: Setting) {
    exists k | 0 <= k < |settings| :: settings[k] == s && IsLast(settings, scope, key, k)
  }

  predicate IsLast(settings: seq<Setting>, scope: string, key: string, k: nat) {
    && k < |settings| && settings[k].scope == scope && settings[k].ruleKey == key
    && forall j | k < j < |settings| :: settings[j].scope != scope || settings[j].ruleKey != key
  }

  /** Neither this scope and key nor any word of the source is stored. */
  ghost predicate Silent(settings: seq<Setting>, scope: string, key: string, source: Source) {
    forall s | Row(settings, scope, key, s) :: !Word(source, s.action)
  }

  ghost predicate SetTo(settings: seq<Setting>, scope: string, key: string, source: Source, action: string) {
    Word(source, action) && exists s :: Row(settings, scope, key, s) && s.action == action
  }

  /**
   * The rule's own row speaks first, then its category's; if neither does, virtual patches block and CRS rules count.
   */
  ghost predicate ActsAs(settings: seq<Setting>, r: Rule, action: string) {
    || SetTo(settings, "rule", r.key, r.source, action)
    || (Silent(settings, "rule", r.key, r.source) && SetTo(settings, "category", r.category, r.source, action))
    || (Silent(settings, "rule", r.key, r.source) && Silent(settings, "category", r.category, r.source) &&
        action == match r.source case Vpatch => "block" case Crs => "count")
  }

  /** One of the comma-separated pieces is this id, with or without blanks around it. */
  predicate HasPiece(csv: string, id: string) {
    id != "" && exists piece | piece in Split(csv, ',') :: Trim(piece) == id
  }

  /** The site has this name, or a suffix of it. */
  predicate SiteHas(h: Hosts, host: string) {
    host in h.exact || exists s | s in h.suffixes :: |s| <= |host| && host[|host| - |s|..] == s
  }

  /** The rule's row or its category's lists a site with a name for this host. */
  ghost predicate Spared(settings: seq<Setting>, sites: map<string, Hosts>, r: Rule, host: string) {
    exists s, id :: (Row(settings, "rule", r.key, s) || Row(settings, "category", r.category, s)) &&
      HasPiece(s.excluded, id) && id in sites && SiteHas(sites[id], host)
  }

  /** The configuration removes the rule when it is loaded, or for requests for this host. */
  predicate TakenOut(c: Config, band: Band, x: Removal, host: string) {
    x in c.onLoad ||
    exists h | h in c.preEval :: h.filter.band == band && x in h.apply &&
      (host in h.filter.exact || exists s | s in h.filter.suffixes :: |s| <= |host| && host[|host| - |s|..] == s)
  }

  // ----- rows -----

  lemma {:induction false} RowIs(settings: seq<Setting>, scope: string, key: string)
    ensures key !in ByKey(settings, scope) ==> forall s :: !Row(settings, scope, key, s)
    ensures key in ByKey(settings, scope) ==>
              forall s :: Row(settings, scope, key, s) <==> s == ByKey(settings, scope)[key]
  {
    if settings != [] {
      var init, last := settings[..|settings| - 1], settings[|settings| - 1];
      RowIs(init, scope, key);
      forall s ensures Row(settings, scope, key, s) <==>
                       if last.scope == scope && last.ruleKey == key then s == last else Row(init, scope, key, s) {
        RowNext(init, last, scope, key, s);
        assert settings == init + [last];
      }
      hide Row;
    }
  }

  lemma RowNext(init: seq<Setting>, last: Setting, scope: string, key: string, s: Setting)
    ensures Row(init + [last], scope, key, s) <==>
            if last.scope == scope && last.ruleKey == key then s == last else Row(init, scope, key, s)
  {
    var all := init + [last];
    if last.scope == scope && last.ruleKey == key {
      assert all[|init|] == last;
      assert IsLast(all, scope, key, |init|);
    } else {
      forall k: nat | k < |init| ensures IsLast(all, scope, key, k) <==> IsLast(init, scope, key, k) {
        if IsLast(all, scope, key, k) {
          forall j | k < j < |init|
            ensures init[j].scope != scope || init[j].ruleKey != key { assert all[j] == init[j]; }
        }
      }
      assert forall k :: 0 <= k < |init| ==> all[k] == init[k];
    }
  }

  lemma WordIs(source: Source, action: string)
    ensures Allowed(source, action) <==> Word(source, action)
  {
  }

  /** effectiveAction, in words. */
  lemma ActionMeans(settings: seq<Setting>, sites: map<string, Hosts>, r: Rule, action: string)
    ensures ActionIn(SetupOf(settings, sites), r) == action <==> ActsAs(settings, r, action)
  {
    hide ByKey, Row, Word, Allowed;
    RowIs(settings, "rule", r.key);
    RowIs(settings, "category", r.category);
    forall a ensures Allowed(r.source, a) <==> Word(r.source, a) { WordIs(r.source, a); }
  }

  // ----- ids -----

  lemma {:induction false} IdsAre(pieces: seq<string>, id: string)
    ensures id in IdsOf(pieces) <==> id != "" && exists p | p in pieces :: Trim(p) == id
  {
    hide Trim;
    if pieces != [] {
      var init, last := pieces[..|pieces| - 1], pieces[|pieces| - 1];
      IdsAre(init, id);
      assert pieces == init + [last];
      assert last in pieces;
    }
  }

  lemma HasPieceIs(csv: string, id: string)
    ensures id in SplitIds(csv) <==> HasPiece(csv, id)
  {
    IdsAre(Split(csv, ','), id);
  }

  lemma HasNameIs(exact: seq<string>, suffixes: seq<string>, host: string)
    ensures NamesHost(exact, suffixes, host) <==>
            host in exact || exists s | s in suffixes :: |s| <= |host| && host[|host| - |s|..] == s
  {
  }

  lemma SiteIs(h: Hosts, host: string)
    ensures SiteNamesHost(h, host) <==> SiteHas(h, host)
  {
    HasNameIs(h.exact, h.suffixes, host);
  }

  lemma SparedIs(settings: seq<Setting>, sites: map<string, Hosts>, r: Rule, host: string)
    ensures SiteExcluded(SetupOf(settings, sites), r, host) <==> Spared(settings, sites, r, host)
  {
    hide ByKey, Row, SplitIds, HasPiece, SiteHas, AddAll, Add;
    RowIs(settings, "rule", r.key);
    RowIs(settings, "category", r.category);
    forall csv, id ensures id in SplitIds(csv) <==> HasPiece(csv, id) { HasPieceIs(csv, id); }
    forall id | id in sites ensures SiteNamesHost(sites[id], host) <==> SiteHas(sites[id], host) {
      SiteIs(sites[id], host);
    }
  }

  lemma TakenOutIs(c: Config, source: Source, key: string, host: string)
    ensures var x := RemovalOf(source, key);
            TakenOut(c, BandOf(source), x, host) <==> x in c.onLoad || RemovedFor(c.preEval, BandOf(source), host, x)
  {
    hide NamesHost;
    var x := RemovalOf(source, key);
    forall exact, suffixes
      ensures NamesHost(exact, suffixes, host) <==>
              host in exact || exists s | s in suffixes :: |s| <= |host| && host[|host| - |s|..] == s
    {
      HasNameIs(exact, suffixes, host);
    }
  }

  lemma TakenOutFor(cat: seq<Rule>, settings: seq<Setting>, sites: map<string, Hosts>, source: Source, key: string,
                    host: string)
    ensures TakenOut(Compiled(cat, settings, sites), BandOf(source), RemovalOf(source, key), host) <==>
            exists r :: r in cat && r.source == source && r.key == key &&
              (ActsAs(settings, r, "off") || Spared(settings, sites, r, host))
  {
    hide *;
    var s := SetupOf(settings, sites);
    TakenOutIs(Compiled(cat, settings, sites), source, key, host);
    RemovedExactlyIf(cat, settings, sites, source, key, host);
    forall r ensures ActionIn(s, r) == "off" <==> ActsAs(settings, r, "off") { ActionMeans(settings, sites, r, "off"); }
    forall r ensures SiteExcluded(s, r, host) <==> Spared(settings, sites, r, host) {
      SparedIs(settings, sites, r, host);
    }
  }

  /**
   * What the configuration does is what the rows say: it takes a rule out for a host exactly if some rule of that
   * source and key is off, or spared for a site with a name for the host. Virtual patches are taken out in band, by
   * name, CRS rules out of band, by id.
   */
  lemma TakenOutExactlyIf(cat: seq<Rule>, settings: seq<Setting>, sites: map<string, Hosts>, key: string, host: string)
    ensures TakenOut(Compiled(cat, settings, sites), InBand, InBandRuleByName(key), host) <==>
            exists r :: r in cat && r.source.Vpatch? && r.key == key &&
              (ActsAs(settings, r, "off") || Spared(settings, sites, r, host))
    ensures TakenOut(Compiled(cat, settings, sites), OutBand, OutBandRuleById(key), host) <==>
            exists r :: r in cat && r.source.Crs? && r.key == key &&
              (ActsAs(settings, r, "off") || Spared(settings, sites, r, host))
  {
    hide Compiled, TakenOut, ActsAs, Spared;
    TakenOutFor(cat, settings, sites, Vpatch, key, host);
    TakenOutFor(cat, settings, sites, Crs, key, host);
  }

  /** The host a request is filtered by: what stands before the colon in its header, in lower case. */
  lemma HostBeforeColon(name: string, rest: string)
    requires ':' !in name && (rest == "" || rest[0] == ':')
    ensures RequestHost(name + rest) == Lower(name)
  {
    hide *;
    FirstPiece(name, rest);
    HostIs(name + rest, name);
  }

  lemma HostIs(header: string, name: string)
    requires Split(header, ':')[0] == name
    ensures RequestHost(header) == Lower(name)
  {
    hide Lower, Split;
  }

  lemma FirstPiece(name: string, rest: string)
    requires ':' !in name && (rest == "" || rest[0] == ':')
    ensures Split(name + rest, ':')[0] == name
  {
    hide IndexOf;
    if rest == "" {
      NotFound(name, ':');
      assert name + rest == name;
    } else {
      FoundAt(name, ':', rest[1..]);
      assert name + rest == name + [':'] + rest[1..];
    }
  }

  lemma ActiveExactlyIf(cat: seq<Rule>, settings: seq<Setting>, sites: map<string, Hosts>, source: Source, key: string,
                        name: string, rest: string)
    requires ':' !in name && (rest == "" || rest[0] == ':')
    ensures Active(Compiled(cat, settings, sites), source, key, name + rest) <==>
            !exists r :: r in cat && r.source == source && r.key == key &&
              (ActsAs(settings, r, "off") || Spared(settings, sites, r, Lower(name)))
  {
    hide *;
    var c := Compiled(cat, settings, sites);
    HostBeforeColon(name, rest);
    ActiveIs(c, source, key, name + rest);
    TakenOutIs(c, source, key, Lower(name));
    TakenOutFor(cat, settings, sites, source, key, Lower(name));
  }

  // ----- changes -----

  /** The change names a rule or category of the catalogue, a word for it, and sites that exist. */
  ghost predicate Acceptable(c: Setting, cat: seq<Rule>, ids: set<string>) {
    && (if c.scope == "rule" then
          exists k | 0 <= k < |cat| :: LastKey(cat, c.ruleKey, k) &&
            (c.action == "inherit" || Word(cat[k].source, c.action))
        else
          && c.scope == "category" && (exists r | r in cat :: r.category == c.ruleKey)
          && Word(if "vpatch:" <= c.ruleKey then Vpatch else Crs, c.action))
    && forall id | HasPiece(c.excluded, id) :: id in ids
  }

  /** The rule at k is the last with this key. */
  predicate LastKey(cat: seq<Rule>, key: string, k: nat) {
    k < |cat| && cat[k].key == key && forall j | k < j < |cat| :: cat[j].key != key
  }
}
