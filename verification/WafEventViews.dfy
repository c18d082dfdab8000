/**
 * WafEventService.store, seen from outside: what an event shows of its alerts.
 *
 * An event is described by what it gained from each distinct alert, so that neither the order of the alerts
 * nor the batches in which they arrive can be seen in it, and an alert stored twice changes nothing.
 * What is stored for a rule is counted once for each alert.
 */
module WafEventViews {
  import opened Text
  import opened WafEvents

  // ----- the event of a request -----

  function EventAt(db: Db, key: RequestKey): Option<Event> {
    var k := FindEvent(db.events, key);
    if k.None? then None else Some(db.events[k.value])
  }

  predicate Known(db: Db, key: RequestKey) {
    EventAt(db, key).Some?
  }

  predicate HasSource(db: Db, key: RequestKey, x: string) {
    Known(db, key) && x in EventAt(db, key).value.sources
  }

  predicate HasCategory(db: Db, key: RequestKey, x: string) {
    Known(db, key) && x in EventAt(db, key).value.categories
  }

  predicate Blocked(db: Db, key: RequestKey) {
    Known(db, key) && EventAt(db, key).value.action == Some(Block)
  }

  lemma {:induction false} FindAppend(es: seq<Event>, e: Event, key: RequestKey)
    ensures FindEvent(es + [e], key) ==
            if FindEvent(es, key).Some? then FindEvent(es, key) else if e.key == key then Some(|es|) else None
  {
    if es != [] {
      assert (es + [e])[1..] == es[1..] + [e];
      FindAppend(es[1..], e, key);
    } else {
      assert [] + [e] == [e] && [e][1..] == [];
    }
  }

  lemma {:induction false} FindUpdate(es: seq<Event>, k: nat, e: Event, key: RequestKey)
    requires k < |es| && e.key == es[k].key
    ensures FindEvent(es[k := e], key) == FindEvent(es, key)
  {
    if k == 0 {
      assert es[0 := e][1..] == es[1..];
    } else {
      assert es[k := e][1..] == es[1..][k - 1 := e];
      FindUpdate(es[1..], k - 1, e, key);
    }
  }

  /** One alert touches the event of its request and no other. */
  lemma StoreHitAt(db: Db, h: Hit, effective: map<string, string>, key: RequestKey)
    ensures EventAt(StoreHit(db, h, effective), key) ==
            if key != KeyOf(h) then EventAt(db, key)
            else Some(Merge(if Known(db, key) then EventAt(db, key).value else NewEvent(db.nextId, h), h, effective))
  {
    hide Merge;
    var k := FindEvent(db.events, KeyOf(h));
    var e := Merge(if k.Some? then db.events[k.value] else NewEvent(db.nextId, h), h, effective);
    MergeIs(if k.Some? then db.events[k.value] else NewEvent(db.nextId, h), h, effective);
    if k.None? {
      FindAppend(db.events, e, key);
    } else {
      FindUpdate(db.events, k.value, e, key);
    }
  }

  // ----- what a list of alerts says about a request -----

  /** The alert is about this request: address, method and path, and the second it was made in. */
  predicate IsFrom(h: Hit, key: RequestKey) {
    && h.ip == key.ip && h.time / 1000 == key.second
    && (match h.verb case None => key.verb == "" case Some(v) => key.verb == v)
    && (match h.uri case None => key.uri == "" case Some(u) => key.uri == u)
  }

  /** In band, and not just virtual patches of which all only log. */
  predicate Stops(h: Hit, effective: map<string, string>) {
    h.inBand &&
    ((forall f | f in h.rules :: !("crowdsecurity/vpatch-" <= f.name))
     || exists f | f in h.rules ::
          "crowdsecurity/vpatch-" <= f.name && !(f.name in effective && effective[f.name] == "log"))
  }

  lemma IsFromIs(h: Hit, key: RequestKey)
    ensures IsFrom(h, key) <==> KeyOf(h) == key
  {
  }

  lemma StopsIs(h: Hit, effective: map<string, string>)
    ensures Stops(h, effective) <==> Blocks(h, effective)
  {
    var names := Names(h.rules);
    forall f | f in h.rules ensures f.name in names {
      var k :| 0 <= k < |h.rules| && h.rules[k] == f;
      assert names[k] == f.name;
    }
    forall n | n in names ensures exists f :: f in h.rules && f.name == n {
      var k :| 0 <= k < |names| && names[k] == n;
      assert h.rules[k] in h.rules;
    }
  }

  ghost predicate AnyFor(hs: seq<Hit>, key: RequestKey) {
    exists h :: h in hs && IsFrom(h, key)
  }

  ghost predicate AnySource(hs: seq<Hit>, key: RequestKey, x: string) {
    exists h, f :: h in hs && IsFrom(h, key) && f in h.rules && f.source == x
  }

  ghost predicate AnyCategory(hs: seq<Hit>, key: RequestKey, x: string) {
    exists h, f :: h in hs && IsFrom(h, key) && f in h.rules && f.category == x
  }

  ghost predicate AnyBlock(hs: seq<Hit>, key: RequestKey, effective: map<string, string>) {
    exists h :: h in hs && IsFrom(h, key) && Stops(h, effective)
  }

  /** after is before with the alerts merged in, as far as this request is concerned. */
  ghost predicate Gains(before: Db, after: Db, hs: seq<Hit>, effective: map<string, string>, key: RequestKey) {
    && (Known(after, key) <==> Known(before, key) || AnyFor(hs, key))
    && (forall x :: HasSource(after, key, x) <==> HasSource(before, key, x) || AnySource(hs, key, x))
    && (forall x :: HasCategory(after, key, x) <==> HasCategory(before, key, x) || AnyCategory(hs, key, x))
    && (Blocked(after, key) <==> Blocked(before, key) || AnyBlock(hs, key, effective))
  }

  lemma HitGains(db: Db, h: Hit, effective: map<string, string>, key: RequestKey)
    ensures Gains(db, StoreHit(db, h, effective), [h], effective, key)
  {
    StoreHitAt(db, h, effective, key);
    IsFromIs(h, key);
    StopsIs(h, effective);
    hide StoreHit, EventAt, IsBlank, FirstMessage, Blocks, Stops, IsFrom;
    assert h in [h];
    if key == KeyOf(h) {
      var before := if Known(db, key) then EventAt(db, key).value else NewEvent(db.nextId, h);
      var after := Merge(before, h, effective);
      assert before.sources == [] || Known(db, key);
    }
  }

  lemma GainsMore(a: Db, b: Db, c: Db, hs: seq<Hit>, h: Hit, effective: map<string, string>, key: RequestKey)
    requires Gains(a, b, hs, effective, key) && Gains(b, c, [h], effective, key)
    ensures Gains(a, c, hs + [h], effective, key)
  {
    hide Known, HasSource, HasCategory, Blocked, Stops, IsFrom;
    var all := hs + [h];
    assert h in [h] && h in all && forall g :: g in hs ==> g in all;
  }

  lemma {:induction false} StoreHitsGain(db: Db, hs: seq<Hit>, effective: map<string, string>, key: RequestKey)
    ensures Gains(db, StoreHits(db, hs, effective), hs, effective, key)
  {
    hide StoreHit, Known, HasSource, HasCategory, Blocked, Stops, IsFrom;
    if hs != [] {
      var init, h := hs[..|hs| - 1], hs[|hs| - 1];
      var middle := StoreHits(db, init, effective);
      StoreHitsGain(db, init, effective, key);
      HitGains(middle, h, effective, key);
      GainsMore(db, middle, StoreHit(middle, h, effective), init, h, effective, key);
      assert hs == init + [h];
    }
  }

  // ----- the rule rows of an alert -----

  function RulesAt(rows: seq<RuleRow>, a: AlertKey): seq<Fired> {
    if rows == [] then []
    else
      var r := rows[|rows| - 1];
      RulesAt(rows[..|rows| - 1], a) + if r.alert == a then [r.fired] else []
  }

  function RulesFrom(hs: seq<Hit>, a: AlertKey): seq<Fired> {
    if hs == [] then []
    else
      var h := hs[|hs| - 1];
      RulesFrom(hs[..|hs| - 1], a) + if AlertOf(h) == a then h.rules else []
  }

  lemma {:induction false} RulesAtConcat(rows: seq<RuleRow>, more: seq<RuleRow>, a: AlertKey)
    ensures RulesAt(rows + more, a) == RulesAt(rows, a) + RulesAt(more, a)
  {
    if more == [] {
      assert rows + more == rows;
    } else {
      RulesAtConcat(rows, more[..|more| - 1], a);
      assert (rows + more)[..|rows + more| - 1] == rows + more[..|more| - 1];
    }
  }

  lemma {:induction false} RulesAtRows(e: Event, alert: AlertKey, rules: seq<Fired>, a: AlertKey)
    ensures RulesAt(RowsOf(e, alert, rules), a) == if alert == a then rules else []
  {
    hide AlertsIn;
    if rules != [] {
      var init := rules[..|rules| - 1];
      RulesAtRows(e, alert, init, a);
      assert RowsOf(e, alert, rules)[..|RowsOf(e, alert, rules)| - 1] == RowsOf(e, alert, init);
      assert rules == init + [rules[|rules| - 1]];
    }
  }

  lemma StoreHitRules(db: Db, h: Hit, effective: map<string, string>, a: AlertKey)
    ensures RulesAt(StoreHit(db, h, effective).rules, a)
         == RulesAt(db.rules, a) + if AlertOf(h) == a then h.rules else []
  {
    hide Merge, FindEvent;
    var k := FindEvent(db.events, KeyOf(h));
    var e := Merge(if k.Some? then db.events[k.value] else NewEvent(db.nextId, h), h, effective);
    RulesAtConcat(db.rules, RowsFor(e, h), a);
    RulesAtRows(e, AlertOf(h), h.rules, a);
  }

  lemma {:induction false} StoreHitsRules(db: Db, hs: seq<Hit>, effective: map<string, string>, a: AlertKey)
    ensures RulesAt(StoreHits(db, hs, effective).rules, a) == RulesAt(db.rules, a) + RulesFrom(hs, a)
  {
    hide StoreHit, RulesAt;
    if hs == [] {
      assert RulesAt(db.rules, a) + [] == RulesAt(db.rules, a);
    } else {
      var init, h := hs[..|hs| - 1], hs[|hs| - 1];
      StoreHitsRules(db, init, effective, a);
      StoreHitRules(StoreHits(db, init, effective), h, effective, a);
      var last := if AlertOf(h) == a then h.rules else [];
      assert RulesAt(db.rules, a) + (RulesFrom(init, a) + last) == RulesAt(db.rules, a) + RulesFrom(init, a) + last;
    }
  }

  /** No two of the alerts have the same key. */
  predicate OnceEach(hs: seq<Hit>) {
    hs != [] ==> OnceEach(hs[..|hs| - 1]) && AlertOf(hs[|hs| - 1]) !in Alerts(hs[..|hs| - 1])
  }

  lemma {:induction false} FreshOnce(hits: seq<Hit>, seen: set<AlertKey>)
    ensures OnceEach(Fresh(hits, seen))
  {
    if hits != [] {
      var r := Fresh(hits[..|hits| - 1], seen);
      FreshOnce(hits[..|hits| - 1], seen);
      assert (r + [hits[|hits| - 1]])[..|r|] == r;
    }
  }

  lemma {:induction false} InsertOnce(hs: seq<Hit>, h: Hit)
    requires OnceEach(hs) && AlertOf(h) !in Alerts(hs)
    ensures OnceEach(Insert(hs, h)) && Alerts(Insert(hs, h)) == Alerts(hs) + {AlertOf(h)}
  {
    if hs == [] || hs[|hs| - 1].time <= h.time {
      assert (hs + [h])[..|hs|] == hs;
    } else {
      var init, last := hs[..|hs| - 1], hs[|hs| - 1];
      assert hs == init + [last];
      InsertOnce(init, h);
      assert (Insert(init, h) + [last])[..|Insert(init, h)|] == Insert(init, h);
      assert AlertOf(last) in Alerts(hs);
    }
  }

  lemma {:induction false} ByTimeOnce(hs: seq<Hit>)
    requires OnceEach(hs)
    ensures OnceEach(ByTime(hs)) && Alerts(ByTime(hs)) == Alerts(hs)
  {
    hide Insert, Alerts;
    if hs != [] {
      var init, h := hs[..|hs| - 1], hs[|hs| - 1];
      ByTimeOnce(init);
      InsertOnce(ByTime(init), h);
      assert hs == init + [h];
      AlertsMore(init, h);
    }
  }

  lemma AlertsMore(hs: seq<Hit>, h: Hit)
    ensures Alerts(hs + [h]) == Alerts(hs) + {AlertOf(h)}
  {
    assert h in hs + [h] && forall g :: g in hs ==> g in hs + [h];
  }

  lemma {:induction false} RulesFromOnce(hs: seq<Hit>, a: AlertKey)
    requires OnceEach(hs)
    ensures a !in Alerts(hs) ==> RulesFrom(hs, a) == []
    ensures forall h | h in hs && AlertOf(h) == a :: RulesFrom(hs, a) == h.rules
  {
    if hs != [] {
      var init, last := hs[..|hs| - 1], hs[|hs| - 1];
      assert hs == init + [last] && last in hs;
      assert forall h | h in init :: h in hs && AlertOf(h) in Alerts(init);
      RulesFromOnce(init, a);
    }
  }

  lemma {:induction false} UnseenHasNoRules(rows: seq<RuleRow>, a: AlertKey)
    ensures a in AlertsIn(rows) <==> RulesAt(rows, a) != []
  {
    if rows != [] {
      UnseenHasNoRules(rows[..|rows| - 1], a);
      assert rows == rows[..|rows| - 1] + [rows[|rows| - 1]];
    }
  }

  // ----- store -----

  lemma StoredGains(db: Db, hits: seq<Hit>, effective: map<string, string>)
    ensures var unseen, after := Fresh(hits, AlertsIn(db.rules)), Stored(db, hits, effective);
            && (forall key :: Gains(db, after, unseen, effective, key))
            && (forall h | h in unseen :: RulesAt(after.rules, AlertOf(h)) == h.rules)
            && (forall a | a !in Alerts(unseen) :: RulesAt(after.rules, a) == RulesAt(db.rules, a))
  {
    var seen := AlertsIn(db.rules);
    var unseen := Fresh(hits, seen);
    var hs := ByTime(unseen);
    FreshOnce(hits, seen);
    ByTimeOnce(unseen);
    forall key ensures Gains(db, StoreHits(db, hs, effective), unseen, effective, key) {
      StoreHitsGain(db, hs, effective, key);
      SameAlerts(db, StoreHits(db, hs, effective), hs, unseen, effective, key);
    }
    forall a ensures RulesAt(StoreHits(db, hs, effective).rules, a) == RulesAt(db.rules, a) + RulesFrom(hs, a) {
      StoreHitsRules(db, hs, effective, a);
    }
    forall h | h in unseen ensures RulesAt(StoreHits(db, hs, effective).rules, AlertOf(h)) == h.rules {
      RulesFromOnce(hs, AlertOf(h));
      UnseenHasNoRules(db.rules, AlertOf(h));
    }
    forall a | a !in Alerts(unseen) ensures RulesAt(StoreHits(db, hs, effective).rules, a) == RulesAt(db.rules, a) {
      RulesFromOnce(hs, a);
    }
  }

  /** The same alert: one id in one second. */
  predicate SameAlert(g: Hit, h: Hit) {
    g.id == h.id && g.time / 1000 == h.time / 1000
  }

  /** Some rule is stored for the alert. */
  predicate HasRows(db: Db, h: Hit) {
    exists r | r in db.rules :: r.alert.id == h.id && r.alert.second == h.time / 1000
  }

  /** These are the alerts that have no rows, each once. */
  ghost predicate Unseen(db: Db, hits: seq<Hit>, unseen: seq<Hit>) {
    && (forall h | h in unseen :: h in hits && !HasRows(db, h))
    && (forall h | h in hits :: HasRows(db, h) || exists g :: g in unseen && SameAlert(g, h))
    && forall i, j | 0 <= i < j < |unseen| :: !SameAlert(unseen[i], unseen[j])
  }

  lemma UnseenAre(db: Db, hits: seq<Hit>)
    ensures Unseen(db, hits, Fresh(hits, AlertsIn(db.rules)))
  {
    hide Fresh, HasRows, AlertsIn, OnceEach;
    var unseen := Fresh(hits, AlertsIn(db.rules));
    forall h ensures HasRows(db, h) <==> AlertOf(h) in AlertsIn(db.rules) { HasRowsIs(db, h); }
    forall h | h in hits && !HasRows(db, h) ensures exists g :: g in unseen && SameAlert(g, h) {
      var g :| g in unseen && AlertOf(g) == AlertOf(h);
      assert SameAlert(g, h);
    }
    FreshOnce(hits, AlertsIn(db.rules));
    OnceApart(unseen);
  }

  lemma HasRowsIs(db: Db, h: Hit)
    ensures HasRows(db, h) <==> AlertOf(h) in AlertsIn(db.rules)
  {
    if r :| r in db.rules && r.alert.id == h.id && r.alert.second == h.time / 1000 { assert r.alert == AlertOf(h); }
  }

  lemma {:induction false} OnceApart(hs: seq<Hit>)
    requires OnceEach(hs)
    ensures forall i, j | 0 <= i < j < |hs| :: !SameAlert(hs[i], hs[j])
  {
    if hs != [] {
      var init := hs[..|hs| - 1];
      OnceApart(init);
      forall i, j | 0 <= i < j < |hs| ensures !SameAlert(hs[i], hs[j]) {
        assert hs[i] == init[i] && init[i] in init && AlertOf(init[i]) in Alerts(init);
        if j < |init| { assert hs[j] == init[j]; }
      }
    }
  }

  /** What one call of store leaves: every distinct new alert merged into its request's event, its rules listed once. */
  lemma StoredIs(db: Db, hits: seq<Hit>, effective: map<string, string>)
    ensures var unseen, after := Fresh(hits, AlertsIn(db.rules)), Stored(db, hits, effective);
            && Unseen(db, hits, unseen)
            && (forall key :: Gains(db, after, unseen, effective, key))
            && (forall h | h in unseen :: RulesAt(after.rules, AlertKey(h.id, h.time / 1000)) == h.rules)
            && (forall a | a !in Alerts(unseen) :: RulesAt(after.rules, a) == RulesAt(db.rules, a))
  {
    hide Fresh, Unseen, Gains, RulesAt, Stored, Alerts, AlertsIn;
    StoredGains(db, hits, effective);
    UnseenAre(db, hits);
    var unseen, after := Fresh(hits, AlertsIn(db.rules)), Stored(db, hits, effective);
    forall h | h in unseen ensures RulesAt(after.rules, AlertKey(h.id, h.time / 1000)) == h.rules {
      assert AlertOf(h) == AlertKey(h.id, h.time / 1000);
    }
  }

  lemma SameAlerts(a: Db, b: Db, hs: seq<Hit>, gs: seq<Hit>, effective: map<string, string>, key: RequestKey)
    requires Gains(a, b, hs, effective, key) && forall h :: h in hs <==> h in gs
    ensures Gains(a, b, gs, effective, key)
  {
    hide Known, HasSource, HasCategory, Blocked, Stops, IsFrom;
  }

  lemma SeenAfter(db: Db, hits: seq<Hit>, effective: map<string, string>)
    requires forall h | h in hits :: h.rules != []
    ensures AlertsIn(Stored(db, hits, effective).rules) == AlertsIn(db.rules) + Alerts(Fresh(hits, AlertsIn(db.rules)))
  {
    hide Stored, RulesAt, Gains;
    var unseen, after := Fresh(hits, AlertsIn(db.rules)), Stored(db, hits, effective);
    StoredGains(db, hits, effective);
    forall a ensures a in AlertsIn(after.rules) <==> a in AlertsIn(db.rules) || a in Alerts(unseen) {
      UnseenHasNoRules(after.rules, a);
      UnseenHasNoRules(db.rules, a);
      if a in Alerts(unseen) {
        var h :| h in unseen && AlertOf(h) == a;
      }
    }
  }

  lemma {:induction false} NothingFresh(hits: seq<Hit>, seen: set<AlertKey>)
    requires forall h | h in hits :: AlertOf(h) in seen
    ensures Fresh(hits, seen) == []
  {
    if hits != [] {
      assert hits[|hits| - 1] in hits && forall h | h in hits[..|hits| - 1] :: h in hits;
      NothingFresh(hits[..|hits| - 1], seen);
    }
  }

  /** Storing the same alerts again changes nothing, whatever the rule settings have become. */
  lemma StoredTwice(db: Db, hits: seq<Hit>, effective: map<string, string>, later: map<string, string>)
    requires forall h | h in hits :: h.rules != []
    ensures Stored(Stored(db, hits, effective), hits, later) == Stored(db, hits, effective)
  {
    SeenAfter(db, hits, effective);
    NothingFresh(hits, AlertsIn(Stored(db, hits, effective).rules));
  }

  ghost predicate LooksAlike(a: Db, b: Db, key: RequestKey) {
    && Known(a, key) == Known(b, key)
    && Blocked(a, key) == Blocked(b, key)
    && (forall x :: HasSource(a, key, x) == HasSource(b, key, x))
    && (forall x :: HasCategory(a, key, x) == HasCategory(b, key, x))
  }

  /** The same events, as far as their alerts decide, and the same rules under every alert. */
  ghost predicate SameView(a: Db, b: Db) {
    && (forall key :: LooksAlike(a, b, key))
    && (forall alert :: RulesAt(a.rules, alert) == RulesAt(b.rules, alert))
  }

  lemma {:induction false} FreshConcat(a: seq<Hit>, b: seq<Hit>, seen: set<AlertKey>)
    ensures Fresh(a + b, seen) == Fresh(a, seen) + Fresh(b, seen + Alerts(Fresh(a, seen)))
  {
    var first := Fresh(a, seen);
    if b == [] {
      assert a + b == a;
      assert first + [] == first;
    } else {
      var init, h := b[..|b| - 1], b[|b| - 1];
      FreshConcat(a, init, seen);
      assert (a + b)[..|a + b| - 1] == a + init;
      var second := Fresh(init, seen + Alerts(first));
      assert Alerts(first + second) == Alerts(first) + Alerts(second);
      assert first + (second + [h]) == first + second + [h];
    }
  }

  lemma GainsTwice(a: Db, b: Db, c: Db, gs: seq<Hit>, hs: seq<Hit>, effective: map<string, string>, key: RequestKey)
    requires Gains(a, b, gs, effective, key) && Gains(b, c, hs, effective, key)
    ensures Gains(a, c, gs + hs, effective, key)
  {
    hide Known, HasSource, HasCategory, Blocked, Stops, IsFrom;
    var all := gs + hs;
    assert (forall g :: g in gs ==> g in all) && (forall h :: h in hs ==> h in all);
  }

  lemma GainsOnce(a: Db, b: Db, c: Db, hs: seq<Hit>, effective: map<string, string>, key: RequestKey)
    requires Gains(a, b, hs, effective, key) && Gains(a, c, hs, effective, key)
    ensures LooksAlike(b, c, key)
  {
    hide Known, HasSource, HasCategory, Blocked, Stops, IsFrom;
  }

  /** How a stream of alerts is cut into batches makes no difference to what is shown. */
  lemma BatchesIrrelevant(db: Db, a: seq<Hit>, b: seq<Hit>, effective: map<string, string>)
    requires forall h | h in a :: h.rules != []
    ensures SameView(Stored(db, a + b, effective), Stored(Stored(db, a, effective), b, effective))
  {
    hide Stored, Gains, RulesAt, Known, HasSource, HasCategory, Blocked;
    var seen := AlertsIn(db.rules);
    var middle := Stored(db, a, effective);
    var once, twice := Stored(db, a + b, effective), Stored(middle, b, effective);
    SeenAfter(db, a, effective);
    FreshConcat(a, b, seen);
    var first, second := Fresh(a, seen), Fresh(b, AlertsIn(middle.rules));
    StoredGains(db, a, effective);
    StoredGains(middle, b, effective);
    StoredGains(db, a + b, effective);
    forall key ensures LooksAlike(once, twice, key) {
      GainsTwice(db, middle, twice, first, second, effective, key);
      GainsOnce(db, once, twice, first + second, effective, key);
    }
    forall alert ensures RulesAt(once.rules, alert) == RulesAt(twice.rules, alert) {
      RulesAgree(first, second, alert);
    }
  }

  lemma RulesAgree(first: seq<Hit>, second: seq<Hit>, alert: AlertKey)
    ensures alert in Alerts(first + second) <==> alert in Alerts(first) || alert in Alerts(second)
    ensures forall h :: h in first + second <==> h in first || h in second
  {
    if h :| h in first && AlertOf(h) == alert { assert h in first + second; }
    if h :| h in second && AlertOf(h) == alert { assert h in first + second; }
  }
}
