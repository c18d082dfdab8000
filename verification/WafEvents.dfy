/**
 * WafEventService: alerts stored once each and merged into one event per request, and the clean-up that removes
 * events together with their rule rows. Times are epoch milliseconds.
 */
module WafEvents {
  import opened Text
  import opened WafPolicy
  import opened WafTuning

  datatype Fired = Fired(name: string, source: string, category: string, message: Option<string>)

  datatype Hit = Hit(id: string, time: int, ip: string, host: Option<string>, verb: Option<string>, uri: Option<string>,
                     userAgent: Option<string>, inBand: bool, rules: seq<Fired>)

  datatype RequestKey = RequestKey(ip: string, verb: string, uri: string, second: int)

  datatype AlertKey = AlertKey(id: string, second: int)

  datatype Result = Block | Log

  datatype Event = Event(id: nat, key: RequestKey, time: int, sources: seq<string>, categories: seq<string>,
                         action: Option<Result>, host: Option<string>, userAgent: Option<string>,
                         message: Option<string>)

  datatype RuleRow = RuleRow(eventId: nat, alert: AlertKey, time: int, fired: Fired)

  datatype Db = Db(events: seq<Event>, rules: seq<RuleRow>, nextId: nat)

  function OrEmpty(s: Option<string>): string {
    if s.None? then "" else s.value
  }

  function KeyOf(h: Hit): RequestKey {
    RequestKey(h.ip, OrEmpty(h.verb), OrEmpty(h.uri), h.time / 1000)
  }

  function AlertOf(h: Hit): AlertKey {
    AlertKey(h.id, h.time / 1000)
  }

  // ----- merging one alert into an event -----

  function MergedSources(sources: seq<string>, rules: seq<Fired>): (r: seq<string>)
    ensures forall x :: x in r <==> x in sources || exists f :: f in rules && f.source == x
  {
    if rules == [] then sources
    else
      assert rules == rules[..|rules| - 1] + [rules[|rules| - 1]];
      Add(MergedSources(sources, rules[..|rules| - 1]), rules[|rules| - 1].source)
  }

  function MergedCategories(categories: seq<string>, rules: seq<Fired>): (r: seq<string>)
    ensures forall x :: x in r <==> x in categories || exists f :: f in rules && f.category == x
  {
    if rules == [] then categories
    else
      assert rules == rules[..|rules| - 1] + [rules[|rules| - 1]];
      AddNew(MergedCategories(categories, rules[..|rules| - 1]), rules[|rules| - 1].category)
  }

  function Names(rules: seq<Fired>): seq<string> {
    seq(|rules|, k requires 0 <= k < |rules| => rules[k].name)
  }

  predicate IsBlank(m: Option<string>) {
    m.None? || Trim(m.value) == ""
  }

  function FirstMessage(rules: seq<Fired>): Option<string> {
    if rules == [] then None else if !IsBlank(rules[0].message) then rules[0].message else FirstMessage(rules[1..])
  }

  /** The alert counts as blocked under the rule settings in force: in band, and not log-only throughout. */
  predicate Blocks(h: Hit, effective: map<string, string>) {
    h.inBand && !PredictsLog(Names(h.rules), effective)
  }

  function Merge(e: Event, h: Hit, effective: map<string, string>): Event {
    e.(sources := MergedSources(e.sources, h.rules),
       categories := MergedCategories(e.categories, h.rules),
       action := if Blocks(h, effective) then Some(Block) else if e.action.None? then Some(Log) else e.action,
       host := if e.host.None? then h.host else e.host,
       userAgent := if e.userAgent.None? then h.userAgent else e.userAgent,
       message := if IsBlank(e.message) then FirstMessage(h.rules) else e.message)
  }

  method MergeHit(e: Event, h: Hit, effective: map<string, string>) returns (r: Event)
    ensures r == Merge(e, h, effective)
  {
    hide Add, IsBlank, PredictsLog, FirstMessage;
    var sources, categories := e.sources, e.categories;
    for k := 0 to |h.rules|
      invariant sources == MergedSources(e.sources, h.rules[..k])
      invariant categories == MergedCategories(e.categories, h.rules[..k])
    {
      assert h.rules[..k + 1][..k] == h.rules[..k];
      sources := Add(sources, h.rules[k].source);
      categories := AddNew(categories, h.rules[k].category);
    }
    assert h.rules[..|h.rules|] == h.rules;
    r := e.(sources := sources, categories := categories);
    var blocked := Judge(h, effective);
    if blocked { r := r.(action := Some(Block)); }
    else if r.action.None? { r := r.(action := Some(Log)); }
    if r.host.None? { r := r.(host := h.host); }
    if r.userAgent.None? { r := r.(userAgent := h.userAgent); }
    if IsBlank(r.message) { r := r.(message := FirstMessage(h.rules)); }
  }

  method Judge(h: Hit, effective: map<string, string>) returns (blocked: bool)
    ensures blocked == Blocks(h, effective)
  {
    if !h.inBand { return false; }
    var a := VpatchActionOf(Names(h.rules), effective);
    assert |"log"| == 3 && |"block"| == 5;
    blocked := a == "block";
  }

  // ----- storing alerts one after the other -----

  function NewEvent(id: nat, h: Hit): Event {
    Event(id, KeyOf(h), h.time, [], [], None, None, None, None)
  }

  function FindEvent(events: seq<Event>, key: RequestKey): (k: Option<nat>)
    ensures k.Some? ==> k.value < |events| && events[k.value].key == key
    ensures k.None? ==> forall e | e in events :: e.key != key
  {
    if events == [] then None
    else if events[0].key == key then Some(0)
    else
      var k := FindEvent(events[1..], key);
      if k.None? then None else Some(k.value + 1)
  }

  function RowsOf(e: Event, alert: AlertKey, rules: seq<Fired>): (rows: seq<RuleRow>)
    ensures forall r | r in rows :: r.eventId == e.id && r.alert == alert && r.time == e.time
  {
    if rules == [] then []
    else RowsOf(e, alert, rules[..|rules| - 1]) + [RuleRow(e.id, alert, e.time, rules[|rules| - 1])]
  }

  function RowsFor(e: Event, h: Hit): seq<RuleRow> {
    RowsOf(e, AlertOf(h), h.rules)
  }

  function StoreHit(db: Db, h: Hit, effective: map<string, string>): Db {
    var k := FindEvent(db.events, KeyOf(h));
    if k.None? then
      var e := Merge(NewEvent(db.nextId, h), h, effective);
      Db(db.events + [e], db.rules + RowsFor(e, h), db.nextId + 1)
    else
      var e := Merge(db.events[k.value], h, effective);
      Db(db.events[k.value := e], db.rules + RowsFor(e, h), db.nextId)
  }

  function StoreHits(db: Db, hs: seq<Hit>, effective: map<string, string>): Db {
    if hs == [] then db else StoreHit(StoreHits(db, hs[..|hs| - 1], effective), hs[|hs| - 1], effective)
  }

  function AlertsIn(rules: seq<RuleRow>): set<AlertKey> {
    set r | r in rules :: r.alert
  }

  function Alerts(hs: seq<Hit>): set<AlertKey> {
    set h | h in hs :: AlertOf(h)
  }

  /** The alerts not seen before, each at its first place. */
  function Fresh(hits: seq<Hit>, seen: set<AlertKey>): (r: seq<Hit>)
    ensures forall h | h in r :: h in hits && AlertOf(h) !in seen
    ensures forall h | h in hits :: AlertOf(h) in seen || AlertOf(h) in Alerts(r)
  {
    if hits == [] then []
    else
      var init, h := hits[..|hits| - 1], hits[|hits| - 1];
      var r := Fresh(init, seen);
      assert hits == init + [h];
      if AlertOf(h) in seen || AlertOf(h) in Alerts(r) then r else r + [h]
  }

  /** Stable sort by time. */
  function Insert(hs: seq<Hit>, h: Hit): (r: seq<Hit>)
    ensures forall x :: x in r <==> x == h || x in hs
  {
    if hs == [] || hs[|hs| - 1].time <= h.time then hs + [h]
    else Insert(hs[..|hs| - 1], h) + [hs[|hs| - 1]]
  }

  function ByTime(hs: seq<Hit>): (r: seq<Hit>)
    ensures forall x :: x in r <==> x in hs
  {
    if hs == [] then []
    else
      assert hs == hs[..|hs| - 1] + [hs[|hs| - 1]];
      Insert(ByTime(hs[..|hs| - 1]), hs[|hs| - 1])
  }

  /** store. */
  function Stored(db: Db, hits: seq<Hit>, effective: map<string, string>): Db {
    StoreHits(db, ByTime(Fresh(hits, AlertsIn(db.rules))), effective)
  }

  /** cleanup. */
  function KeptEvents(events: seq<Event>, cutoff: int): (r: seq<Event>)
    ensures forall e :: e in r <==> e in events && e.time >= cutoff
  {
    if events == [] then []
    else
      assert events == events[..|events| - 1] + [events[|events| - 1]];
      var r := KeptEvents(events[..|events| - 1], cutoff);
      if events[|events| - 1].time < cutoff then r else r + [events[|events| - 1]]
  }

  function KeptRows(rows: seq<RuleRow>, cutoff: int): (r: seq<RuleRow>)
    ensures forall x :: x in r <==> x in rows && x.time >= cutoff
  {
    if rows == [] then []
    else
      assert rows == rows[..|rows| - 1] + [rows[|rows| - 1]];
      var r := KeptRows(rows[..|rows| - 1], cutoff);
      if rows[|rows| - 1].time < cutoff then r else r + [rows[|rows| - 1]]
  }

  function Cleaned(db: Db, cutoff: int): Db {
    Db(KeptEvents(db.events, cutoff), KeptRows(db.rules, cutoff), db.nextId)
  }

  // ----- what every run of store and cleanup keeps -----

  predicate Apart(events: seq<Event>) {
    forall j, k :: 0 <= j < k < |events| ==> events[j].key != events[k].key && events[j].id != events[k].id
  }

  /** One event for a request, one id for an event. */
  ghost predicate OneEventEach(db: Db) {
    && Apart(db.events)
    && (forall e | e in db.events :: e.id < db.nextId && e.action.Some? && e.key.second == e.time / 1000)
  }

  /** The row belongs to this event and carries its time. */
  predicate Belongs(r: RuleRow, e: Event) {
    r.eventId == e.id && r.time == e.time && r.alert.second == e.key.second
  }

  /** Every rule row points to a stored event with the same time. */
  ghost predicate RowsLive(db: Db) {
    forall r | r in db.rules :: exists e :: e in db.events && Belongs(r, e)
  }

  ghost predicate Inv(db: Db) {
    OneEventEach(db) && RowsLive(db)
  }

  lemma StoreHitKeeps(db: Db, h: Hit, effective: map<string, string>)
    requires Inv(db)
    ensures Inv(StoreHit(db, h, effective))
  {
    hide Merge;
    var k := FindEvent(db.events, KeyOf(h));
    if k.None? {
      InsertKeeps(db, h, effective);
    } else {
      UpdateKeeps(db, h, effective, k.value);
    }
  }

  lemma MergeIs(e: Event, h: Hit, effective: map<string, string>)
    ensures var m := Merge(e, h, effective);
            m.id == e.id && m.key == e.key && m.time == e.time && m.action.Some?
  {
    hide MergedSources, MergedCategories, IsBlank, FirstMessage, PredictsLog;
  }

  lemma RowsBelong(e: Event, h: Hit, r: RuleRow)
    requires e.key == KeyOf(h) && r in RowsFor(e, h)
    ensures Belongs(r, e)
  {
  }

  lemma InsertKeeps(db: Db, h: Hit, effective: map<string, string>)
    requires Inv(db) && FindEvent(db.events, KeyOf(h)).None?
    ensures Inv(StoreHit(db, h, effective))
  {
    hide Merge;
    var e := Merge(NewEvent(db.nextId, h), h, effective);
    MergeIs(NewEvent(db.nextId, h), h, effective);
    var after := StoreHit(db, h, effective);
    assert after.events == db.events + [e] && e in after.events;
    forall r | r in after.rules ensures exists x :: x in after.events && Belongs(r, x) {
      if r in db.rules {
        var x :| x in db.events && Belongs(r, x);
        assert x in after.events;
      } else {
        RowsBelong(e, h, r);
      }
    }
  }

  lemma UpdateKeeps(db: Db, h: Hit, effective: map<string, string>, k: nat)
    requires Inv(db) && FindEvent(db.events, KeyOf(h)) == Some(k)
    ensures Inv(StoreHit(db, h, effective))
  {
    hide Merge;
    var e := Merge(db.events[k], h, effective);
    MergeIs(db.events[k], h, effective);
    var after := StoreHit(db, h, effective);
    assert after.events == db.events[k := e] && after.events[k] == e;
    assert db.events[k] in db.events;
    forall x | x in after.events ensures x == e || x in db.events {
      var j :| 0 <= j < |after.events| && after.events[j] == x;
    }
    forall r | r in after.rules ensures exists x :: x in after.events && Belongs(r, x) {
      if r in db.rules {
        var x :| x in db.events && Belongs(r, x);
        var j :| 0 <= j < |db.events| && db.events[j] == x;
        assert Belongs(r, after.events[j]);
      } else {
        RowsBelong(e, h, r);
      }
    }
  }

  lemma {:induction false} StoreHitsKeep(db: Db, hs: seq<Hit>, effective: map<string, string>)
    requires Inv(db)
    ensures Inv(StoreHits(db, hs, effective))
  {
    hide StoreHit, Inv;
    if hs != [] {
      StoreHitsKeep(db, hs[..|hs| - 1], effective);
      StoreHitKeeps(StoreHits(db, hs[..|hs| - 1], effective), hs[|hs| - 1], effective);
    }
  }

  lemma ApartMore(events: seq<Event>, e: Event)
    requires Apart(events) && forall x | x in events :: x.key != e.key && x.id != e.id
    ensures Apart(events + [e])
  {
    forall j | 0 <= j < |events| ensures events[j].key != e.key && events[j].id != e.id { assert events[j] in events; }
  }

  lemma ApartLess(events: seq<Event>)
    requires Apart(events) && events != []
    ensures Apart(events[..|events| - 1])
    ensures forall x | x in events[..|events| - 1] ::
              x.key != events[|events| - 1].key && x.id != events[|events| - 1].id
  {
  }

  lemma {:induction false} KeptApart(events: seq<Event>, cutoff: int)
    requires Apart(events)
    ensures Apart(KeptEvents(events, cutoff))
  {
    hide Apart;
    if events != [] {
      ApartLess(events);
      KeptApart(events[..|events| - 1], cutoff);
      ApartMore(KeptEvents(events[..|events| - 1], cutoff), events[|events| - 1]);
    } else {
      NoneApart();
    }
  }

  lemma NoneApart()
    ensures Apart([])
  {
  }

  /** Clean-up removes an event and all its rows together. */
  lemma CleanedKeeps(db: Db, cutoff: int)
    requires Inv(db)
    ensures Inv(Cleaned(db, cutoff))
    ensures forall e :: e in Cleaned(db, cutoff).events <==> e in db.events && e.time >= cutoff
    ensures forall r | r in db.rules :: r in Cleaned(db, cutoff).rules <==>
              exists e :: e in Cleaned(db, cutoff).events && Belongs(r, e)
  {
    hide Apart;
    KeptApart(db.events, cutoff);
    forall r | r in db.rules
      ensures r.time >= cutoff <==> exists e :: e in KeptEvents(db.events, cutoff) && Belongs(r, e) {
      var e :| e in db.events && Belongs(r, e);
    }
  }

  datatype Op = Store(hits: seq<Hit>, effective: map<string, string>) | CleanUp(cutoff: int)

  function Apply(db: Db, op: Op): Db {
    match op
    case Store(hits, effective) => Stored(db, hits, effective)
    case CleanUp(cutoff) => Cleaned(db, cutoff)
  }

  function Run(db: Db, ops: seq<Op>): Db {
    if ops == [] then db else Apply(Run(db, ops[..|ops| - 1]), ops[|ops| - 1])
  }

  const EMPTY := Db([], [], 0)

  /** After any run there is one event per request, and every rule row points to a stored event with its time. */
  lemma {:induction false} RunKeeps(ops: seq<Op>)
    ensures Inv(Run(EMPTY, ops))
  {
    if ops != [] {
      var db := Run(EMPTY, ops[..|ops| - 1]);
      RunKeeps(ops[..|ops| - 1]);
      match ops[|ops| - 1]
      case Store(hits, effective) => StoreHitsKeep(db, ByTime(Fresh(hits, AlertsIn(db.rules))), effective);
      case CleanUp(cutoff) => CleanedKeeps(db, cutoff);
    }
  }
}
