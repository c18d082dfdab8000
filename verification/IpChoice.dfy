/** IpLookupService and ConfService: which country rule speaks for a site, and what it says of a country. */
module IpChoice {
  import opened Text
  import opened ServerNames
  import opened IpLookup

  /** The first enabled rule for this scope. */
  predicate First(rules: seq<GeoRule>, scope: Option<string>, r: GeoRule) {
    exists k | 0 <= k < |rules| :: rules[k] == r && r.enabled && r.serverId == scope &&
      forall j | 0 <= j < k :: !(rules[j].enabled && rules[j].serverId == scope)
  }

  /** The site's own rule speaks if it has an enabled one, the rule for every site otherwise. */
  predicate Speaks(rules: seq<GeoRule>, id: string, r: GeoRule) {
    if exists x | x in rules :: x.enabled && x.serverId == Some(id) then First(rules, Some(id), r)
    else First(rules, None, r)
  }

  /** One of the comma-separated pieces is this country, in any letter case. */
  predicate Listed(countries: string, code: string) {
    exists p | p in Split(countries, ',') :: Trim(p) != "" && Lower(Trim(p)) == Lower(code)
  }

  lemma {:induction false} FirstIs(rules: seq<GeoRule>, scope: Option<string>, r: GeoRule)
    ensures FindRule(rules, scope) == Some(r) <==> First(rules, scope, r)
  {
    if rules != [] {
      FirstIs(rules[1..], scope, r);
      if rules[0].enabled && rules[0].serverId == scope {
        if First(rules, scope, r) {
          var k :| 0 <= k < |rules| && rules[k] == r && r.enabled && r.serverId == scope &&
            forall j | 0 <= j < k :: !(rules[j].enabled && rules[j].serverId == scope);
          assert k == 0;
        }
      } else {
        FirstBehind(rules, scope, r);
      }
    }
  }

  lemma FirstBehind(rules: seq<GeoRule>, scope: Option<string>, r: GeoRule)
    requires rules != [] && !(rules[0].enabled && rules[0].serverId == scope)
    ensures First(rules, scope, r) <==> First(rules[1..], scope, r)
  {
    var rest := rules[1..];
    if First(rules, scope, r) {
      var k :| 0 <= k < |rules| && rules[k] == r && r.enabled && r.serverId == scope &&
        forall j | 0 <= j < k :: !(rules[j].enabled && rules[j].serverId == scope);
      assert rest[k - 1] == r && forall j :: 0 <= j < k - 1 ==> rest[j] == rules[j + 1];
    }
    if First(rest, scope, r) {
      var k :| 0 <= k < |rest| && rest[k] == r && r.enabled && r.serverId == scope &&
        forall j | 0 <= j < k :: !(rest[j].enabled && rest[j].serverId == scope);
      assert rules[k + 1] == r;
      forall j | 0 <= j < k + 1 ensures !(rules[j].enabled && rules[j].serverId == scope) {
        if j > 0 { assert rules[j] == rest[j - 1]; }
      }
    }
  }

  lemma SpeaksIs(rules: seq<GeoRule>, id: string, r: GeoRule)
    ensures EffectiveRule(rules, id) == Some(r) <==> Speaks(rules, id, r)
  {
    hide FindRule, First;
    FirstIs(rules, Some(id), r);
    FirstIs(rules, None, r);
  }

  lemma ListedIs(countries: string, code: string)
    ensures Lists(Codes(countries), code) <==> Listed(countries, code)
  {
    hide Lower, Trim, Split;
  }

  /**
   * A site without a rule, or whose rule names no countries, blocks no one. Otherwise the rule decides: mode 0 blocks
   * every country that is not listed, any other mode the listed ones; without country data nothing is said.
   */
  lemma SiteDecision(s: Stored, id: string, country: Country, r: GeoRule)
    ensures (forall x :: !Speaks(s.rules, id, x)) ==> DetailOf(s, id, country) == Detail(id, Some(false))
    ensures Speaks(s.rules, id, r) ==>
              DetailOf(s, id, country) ==
              if r.countries == "" then Detail(id, Some(false))
              else if !country.available then Detail(id, None)
              else
                var code := if country.code.Some? then country.code.value else "";
                Detail(id, Some(if r.mode == 0 then !Listed(r.countries, code) else Listed(r.countries, code)))
  {
    hide EffectiveRule, Speaks, Codes, Lists, Listed;
    forall x ensures EffectiveRule(s.rules, id) == Some(x) <==> Speaks(s.rules, id, x) { SpeaksIs(s.rules, id, x); }
    ListedIs(r.countries, OrEmpty(country.code));
    if EffectiveRule(s.rules, id).Some? { assert Speaks(s.rules, id, EffectiveRule(s.rules, id).value); }
  }
}
