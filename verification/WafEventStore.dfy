/**
 * WafEventService.store as it works: the events concerned are read once, changed in memory, and written back.
 *
 * The tables end up as if every alert had been stored on its own.
 */
module WafEventStore {
  import opened Text
  import opened Numbers
  import opened WafEvents

  const ID_CHUNK: nat := 500

  // ----- the work in progress -----

  /** The tables, the events held in memory, and which of those the tables do not show yet. */
  datatype Work = Work(events: seq<Event>, rules: seq<RuleRow>, nextId: nat, byKey: map<RequestKey, Event>,
    dirty: seq<RequestKey>)

  /** The table as it will be when everything in memory is written back. */
  function Overlay(events: seq<Event>, byKey: map<RequestKey, Event>): (r: seq<Event>)
    ensures |r| == |events|
  {
    seq(|events|, k requires 0 <= k < |events| => if events[k].key in byKey then byKey[events[k].key] else events[k])
  }

  function Meant(w: Work): Db {
    Db(Overlay(w.events, w.byKey), w.rules, w.nextId)
  }

  /** The body of the main loop. */
  function WorkStep(w: Work, h: Hit, effective: map<string, string>): Work {
    var key := KeyOf(h);
    if key in w.byKey then
      var e := Merge(w.byKey[key], h, effective);
      Work(w.events, w.rules + RowsFor(e, h), w.nextId, w.byKey[key := e], AddNew(w.dirty, key))
    else
      var e := Merge(NewEvent(w.nextId, h), h, effective);
      Work(w.events + [e], w.rules + RowsFor(e, h), w.nextId + 1, w.byKey[key := e], w.dirty)
  }

  /** An event in memory is that of a row in the table. */
  predicate Held(w: Work, key: RequestKey)
    requires key in w.byKey
  {
    w.byKey[key].key == key && exists e :: e in w.events && e.key == key && e.id == w.byKey[key].id
  }

  ghost predicate Sound(w: Work, hs: seq<Hit>) {
    && Apart(w.events)
    && (forall e | e in w.events :: e.id < w.nextId)
    && (forall key | key in w.byKey :: Held(w, key))
    && (forall h, e | h in hs && e in w.events && e.key == KeyOf(h) :: KeyOf(h) in w.byKey)
    && (forall e | e in w.events && e.key in w.byKey && e != w.byKey[e.key] :: e.key in w.dirty)
  }

  lemma {:induction false} FindByKeys(a: seq<Event>, b: seq<Event>, key: RequestKey)
    requires |a| == |b| && forall k :: 0 <= k < |a| ==> a[k].key == b[k].key
    ensures FindEvent(a, key) == FindEvent(b, key)
  {
    if a != [] {
      assert forall k :: 0 <= k < |a| - 1 ==> a[1..][k] == a[k + 1] && b[1..][k] == b[k + 1];
      FindByKeys(a[1..], b[1..], key);
    }
  }

  lemma OverlayKeys(w: Work, hs: seq<Hit>, key: RequestKey)
    requires Sound(w, hs)
    ensures FindEvent(Overlay(w.events, w.byKey), key) == FindEvent(w.events, key)
  {
    var o := Overlay(w.events, w.byKey);
    forall k | 0 <= k < |o| ensures o[k].key == w.events[k].key {
      if w.events[k].key in w.byKey { assert Held(w, w.events[k].key); }
    }
    FindByKeys(o, w.events, key);
  }

  lemma InsertMeans(w: Work, hs: seq<Hit>, h: Hit, effective: map<string, string>)
    requires Sound(w, hs) && h in hs && KeyOf(h) !in w.byKey
    ensures Meant(WorkStep(w, h, effective)) == StoreHit(Meant(w), h, effective)
  {
    hide Merge, Overlay, Held;
    var key := KeyOf(h);
    MergeIs(NewEvent(w.nextId, h), h, effective);
    OverlayKeys(w, hs, key);
    assert forall x | x in w.events :: x.key != key;
    OverlayInsert(w.events, w.byKey, Merge(NewEvent(w.nextId, h), h, effective));
  }

  lemma InsertSound(w: Work, hs: seq<Hit>, h: Hit, effective: map<string, string>)
    requires Sound(w, hs) && h in hs && KeyOf(h) !in w.byKey
    ensures Sound(WorkStep(w, h, effective), hs)
  {
    hide Merge;
    var key := KeyOf(h);
    var e := Merge(NewEvent(w.nextId, h), h, effective);
    MergeIs(NewEvent(w.nextId, h), h, effective);
    var next := WorkStep(w, h, effective);
    forall k | k in next.byKey ensures Held(next, k) {
      if k == key { assert e in next.events; } else { assert Held(w, k); }
    }
    forall x, y | 0 <= x < y < |next.events|
      ensures next.events[x].key != next.events[y].key && next.events[x].id != next.events[y].id {
      assert next.events[x] in w.events;
    }
  }

  lemma OverlayInsert(events: seq<Event>, byKey: map<RequestKey, Event>, e: Event)
    requires forall x | x in events :: x.key != e.key
    ensures Overlay(events + [e], byKey[e.key := e]) == Overlay(events, byKey) + [e]
  {
    assert forall k :: 0 <= k < |events| ==> events[k] in events;
  }

  lemma UpdateMeans(w: Work, hs: seq<Hit>, h: Hit, effective: map<string, string>)
    requires Sound(w, hs) && h in hs && KeyOf(h) in w.byKey
    ensures Meant(WorkStep(w, h, effective)) == StoreHit(Meant(w), h, effective)
    ensures Sound(WorkStep(w, h, effective), hs)
  {
    hide Merge;
    var key := KeyOf(h);
    var e := Merge(w.byKey[key], h, effective);
    MergeIs(w.byKey[key], h, effective);
    assert Held(w, key);
    OverlayKeys(w, hs, key);
    var k := FindEvent(w.events, key).value;
    OverlayUpdate(w.events, w.byKey, k, e);
    var next := WorkStep(w, h, effective);
    forall x | x in next.byKey ensures Held(next, x) { assert Held(w, x); }
  }

  lemma OverlayUpdate(events: seq<Event>, byKey: map<RequestKey, Event>, k: nat, e: Event)
    requires Apart(events) && k < |events| && events[k].key == e.key && e.key in byKey
    ensures Overlay(events, byKey[e.key := e]) == Overlay(events, byKey)[k := e]
    ensures Overlay(events, byKey)[k] == byKey[e.key]
  {
    forall i | 0 <= i < |events| ensures events[i].key == e.key <==> i == k {
      assert i < k ==> events[i].key != events[k].key;
      assert k < i ==> events[k].key != events[i].key;
    }
  }

  lemma StepMeans(w: Work, hs: seq<Hit>, h: Hit, effective: map<string, string>)
    requires Sound(w, hs) && h in hs
    ensures Meant(WorkStep(w, h, effective)) == StoreHit(Meant(w), h, effective)
    ensures Sound(WorkStep(w, h, effective), hs)
  {
    hide WorkStep, StoreHit, Meant, Sound;
    if KeyOf(h) in w.byKey {
      UpdateMeans(w, hs, h, effective);
    } else {
      InsertMeans(w, hs, h, effective);
      InsertSound(w, hs, h, effective);
    }
  }

  // ----- writing back -----

  /** UPDATE … WHERE id. */
  function UpdatedById(events: seq<Event>, e: Event): (r: seq<Event>)
    ensures |r| == |events|
  {
    seq(|events|, k requires 0 <= k < |events| => if events[k].id == e.id then e else events[k])
  }

  /** These keys written back. */
  function Written(events: seq<Event>, byKey: map<RequestKey, Event>, keys: seq<RequestKey>): (r: seq<Event>)
    ensures |r| == |events|
  {
    seq(|events|, k requires 0 <= k < |events| =>
          if events[k].key in keys && events[k].key in byKey then byKey[events[k].key] else events[k])
  }

  lemma WriteOneMore(w: Work, hs: seq<Hit>, keys: seq<RequestKey>, key: RequestKey)
    requires Sound(w, hs) && key in w.byKey
    ensures UpdatedById(Written(w.events, w.byKey, keys), w.byKey[key]) == Written(w.events, w.byKey, keys + [key])
  {
    hide Sound;
    var was := Written(w.events, w.byKey, keys);
    forall k | 0 <= k < |w.events|
      ensures was[k].id == w.events[k].id
      ensures w.events[k].id == w.byKey[key].id <==> w.events[k].key == key
    {
      if w.events[k].key in w.byKey { SameId(w, hs, k); }
      IdNamesKey(w, hs, key, k);
    }
  }

  lemma IdNamesKey(w: Work, hs: seq<Hit>, key: RequestKey, k: nat)
    requires Sound(w, hs) && key in w.byKey && k < |w.events|
    ensures w.events[k].id == w.byKey[key].id <==> w.events[k].key == key
  {
    assert Held(w, key);
    var e :| e in w.events && e.key == key && e.id == w.byKey[key].id;
    var j :| 0 <= j < |w.events| && w.events[j] == e;
    if k != j { ApartAt(w.events, k, j); }
  }

  lemma ApartAt(events: seq<Event>, j: nat, k: nat)
    requires Apart(events) && j < |events| && k < |events| && j != k
    ensures events[j].key != events[k].key && events[j].id != events[k].id
  {
  }

  lemma SameId(w: Work, hs: seq<Hit>, k: nat)
    requires Sound(w, hs) && k < |w.events| && w.events[k].key in w.byKey
    ensures w.byKey[w.events[k].key].id == w.events[k].id
  {
    var key := w.events[k].key;
    assert Held(w, key);
    var e :| e in w.events && e.key == key && e.id == w.byKey[key].id;
    var j :| 0 <= j < |w.events| && w.events[j] == e;
  }

  lemma AllWritten(w: Work, hs: seq<Hit>)
    requires Sound(w, hs)
    ensures Written(w.events, w.byKey, w.dirty) == Overlay(w.events, w.byKey)
  {
    assert forall k :: 0 <= k < |w.events| ==> w.events[k] in w.events;
  }

  lemma NothingWritten(events: seq<Event>, byKey: map<RequestKey, Event>)
    ensures Written(events, byKey, []) == events
  {
  }

  // ----- the service -----

  /** The events of these requests that the table holds. */
  ghost predicate Loaded(byKey: map<RequestKey, Event>, events: seq<Event>, hs: seq<Hit>) {
    forall key ::
      (key in byKey <==> (exists h :: h in hs && KeyOf(h) == key) && exists e :: e in events && e.key == key)
                  && (key in byKey ==> byKey[key] in events && byKey[key].key == key)
  }

  lemma LoadedMeans(db: Db, byKey: map<RequestKey, Event>, hs: seq<Hit>)
    requires Inv(db) && Loaded(byKey, db.events, hs)
    ensures Sound(Work(db.events, db.rules, db.nextId, byKey, []), hs)
    ensures Meant(Work(db.events, db.rules, db.nextId, byKey, [])) == db
  {
    forall e | e in db.events && e.key in byKey ensures byKey[e.key] == e {
      var j :| 0 <= j < |db.events| && db.events[j] == e;
      var k :| 0 <= k < |db.events| && db.events[k] == byKey[e.key];
      assert j == k;
    }
    assert forall k :: 0 <= k < |db.events| ==> db.events[k] in db.events;
    assert Overlay(db.events, byKey) == db.events;
  }

  function Keys(hs: seq<Hit>): (r: seq<RequestKey>)
    ensures forall key :: key in r <==> exists h :: h in hs && KeyOf(h) == key
  {
    if hs == [] then []
    else
      assert hs == hs[..|hs| - 1] + [hs[|hs| - 1]];
      AddNew(Keys(hs[..|hs| - 1]), KeyOf(hs[|hs| - 1]))
  }

  function Ids(hs: seq<Hit>): (r: seq<AlertKey>)
    ensures forall a :: a in r <==> a in Alerts(hs)
  {
    if hs == [] then []
    else
      assert hs == hs[..|hs| - 1] + [hs[|hs| - 1]];
      var r := Ids(hs[..|hs| - 1]);
      if AlertOf(hs[|hs| - 1]) in r then r else r + [AlertOf(hs[|hs| - 1])]
  }

  class WafEventService {
    var events: seq<Event>
    var rules: seq<RuleRow>
    var nextId: nat

    ghost function Abs(): Db
      reads this
    {
      Db(events, rules, nextId)
    }

    constructor ()
      ensures Abs() == EMPTY
    {
      events, rules, nextId := [], [], 0;
    }

    /** existingAlertIds: which of the alerts have rule rows, asked for in chunks. */
    method ExistingAlerts(hits: seq<Hit>) returns (found: set<AlertKey>)
      ensures found == AlertsIn(rules) * Alerts(hits)
    {
      var ids := Ids(hits);
      found := {};
      var i := 0;
      while i < |ids|
        invariant i <= |ids|
        invariant forall a :: a in found <==> a in AlertsIn(rules) && a in ids[..i]
      {
        var next := Least(i + ID_CHUNK, |ids|);
        var chunk := ids[i..next];
        assert ids[..next] == ids[..i] + chunk;
        found := found + set r | r in rules && r.alert in chunk :: r.alert;
        i := next;
      }
      assert ids[..|ids|] == ids;
    }

    /** The events of these requests that are already stored, asked for in chunks. */
    method LoadEvents(hs: seq<Hit>) returns (byKey: map<RequestKey, Event>)
      ensures Loaded(byKey, events, hs)
    {
      var keys := Keys(hs);
      byKey := map[];
      var i := 0;
      while i < |keys|
        invariant i <= |keys|
        invariant Holds(byKey, keys[..i])
      {
        var next := Least(i + ID_CHUNK, |keys|);
        byKey := LoadChunk(byKey, keys[..i], keys[i..next]);
        assert keys[..next] == keys[..i] + keys[i..next];
        i := next;
      }
      assert keys[..|keys|] == keys;
    }

    /** byKey holds an event for each of the keys that has one. */
    ghost predicate Holds(byKey: map<RequestKey, Event>, keys: seq<RequestKey>)
      reads this
    {
      forall key :: (key in byKey <==> key in keys && exists e :: e in events && e.key == key)
                    && (key in byKey ==> byKey[key] in events && byKey[key].key == key)
    }

    method LoadChunk(before: map<RequestKey, Event>, keys: seq<RequestKey>, chunk: seq<RequestKey>)
      returns (byKey: map<RequestKey, Event>)
      requires Holds(before, keys)
      ensures Holds(byKey, keys + chunk)
    {
      byKey := before;
      for k := 0 to |events|
        invariant forall key | key in byKey :: byKey[key] in events && byKey[key].key == key
        invariant forall key :: key in byKey <==>
                  key in before || (key in chunk && exists e :: e in events[..k] && e.key == key)
      {
        var e := events[k];
        assert events[..k + 1] == events[..k] + [e];
        if e.key in chunk && e.key !in byKey { byKey := byKey[e.key := e]; }
      }
      assert events[..|events|] == events;
    }

    /** store: the number of events added. */
    method Store(hits: seq<Hit>, effective: map<string, string>) returns (added: nat)
      requires Inv(Abs())
      modifies this
      ensures Abs() == Stored(old(Abs()), hits, effective) && Inv(Abs())
      ensures added == |events| - |old(events)|
    {
      hide Inv, StoreHit;
      var seen := ExistingAlerts(hits);
      var unseen := DropSeen(hits, seen);
      var hs := ByTime(unseen);
      var byKey := LoadEvents(hs);
      LoadedMeans(Abs(), byKey, hs);
      StoreHitsKeep(Abs(), hs, effective);
      added, byKey := StoreInMemory(hs, byKey, effective);
    }

    method DropSeen(hits: seq<Hit>, existing: set<AlertKey>) returns (unseen: seq<Hit>)
      requires existing == AlertsIn(rules) * Alerts(hits)
      ensures unseen == Fresh(hits, AlertsIn(rules))
    {
      var seen := existing;
      unseen := [];
      for k := 0 to |hits|
        invariant unseen == Fresh(hits[..k], AlertsIn(rules)) && seen == existing + Alerts(unseen)
      {
        var h := hits[k];
        assert hits[..k + 1][..k] == hits[..k] && AlertOf(h) in Alerts(hits);
        if AlertOf(h) !in seen {
          AlertsGrow(unseen, h);
          seen := seen + {AlertOf(h)};
          unseen := unseen + [h];
        }
      }
      assert hits[..|hits|] == hits;
    }

    /** The main loop and the updates behind it. */
    method StoreInMemory(hs: seq<Hit>, loaded: map<RequestKey, Event>, effective: map<string, string>)
      returns (added: nat, byKey: map<RequestKey, Event>)
      requires Sound(Work(events, rules, nextId, loaded, []), hs)
      requires Meant(Work(events, rules, nextId, loaded, [])) == Abs()
      modifies this
      ensures Abs() == StoreHits(old(Abs()), hs, effective)
      ensures added == |events| - |old(events)|
    {
      hide Sound, StoreHit, Merge, Overlay, RowsFor;
      byKey := loaded;
      var dirty: seq<RequestKey> := [];
      added := 0;
      for k := 0 to |hs|
        invariant Sound(Work(events, rules, nextId, byKey, dirty), hs)
        invariant Meant(Work(events, rules, nextId, byKey, dirty)) == StoreHits(old(Abs()), hs[..k], effective)
        invariant |events| == |old(events)| + added
        invariant forall key | key in dirty :: key in byKey
      {
        var h := hs[k];
        assert hs[..k + 1][..k] == hs[..k];
        StepMeans(Work(events, rules, nextId, byKey, dirty), hs, h, effective);
        var key := KeyOf(h);
        var e;
        if key !in byKey {
          e := Merge(NewEvent(nextId, h), h, effective);
          events := events + [e];
          nextId := nextId + 1;
          added := added + 1;
        } else {
          e := Merge(byKey[key], h, effective);
          dirty := AddNew(dirty, key);
        }
        byKey := byKey[key := e];
        rules := rules + RowsFor(e, h);
      }
      assert hs[..|hs|] == hs;
      WriteBack(hs, byKey, dirty);
    }

    method WriteBack(ghost hs: seq<Hit>, byKey: map<RequestKey, Event>, dirty: seq<RequestKey>)
      requires Sound(Work(events, rules, nextId, byKey, dirty), hs) && forall key | key in dirty :: key in byKey
      modifies this`events
      ensures events == Overlay(old(events), byKey)
    {
      hide Sound, Overlay, UpdatedById, Written;
      ghost var w := Work(events, rules, nextId, byKey, dirty);
      NothingWritten(events, byKey);
      for k := 0 to |dirty|
        invariant events == Written(w.events, byKey, dirty[..k])
      {
        assert dirty[..k + 1] == dirty[..k] + [dirty[k]];
        WriteOneMore(w, hs, dirty[..k], dirty[k]);
        events := UpdatedById(events, byKey[dirty[k]]);
      }
      assert dirty[..|dirty|] == dirty;
      AllWritten(w, hs);
    }

    /** cleanup: the number of events removed. */
    method CleanUp(cutoff: int) returns (removed: nat)
      requires Inv(Abs())
      modifies this
      ensures Abs() == Cleaned(old(Abs()), cutoff) && Inv(Abs())
      ensures removed == |old(events)| - |events|
    {
      hide Inv;
      CleanedKeeps(Abs(), cutoff);
      KeptAndOld(events, cutoff);
      removed := CountOld(events, cutoff);
      rules := KeptRows(rules, cutoff);
      events := KeptEvents(events, cutoff);
    }
  }

  function CountOld(events: seq<Event>, cutoff: int): nat {
    if events == [] then 0
    else CountOld(events[..|events| - 1], cutoff) + if events[|events| - 1].time < cutoff then 1 else 0
  }

  lemma {:induction false} KeptAndOld(events: seq<Event>, cutoff: int)
    ensures |KeptEvents(events, cutoff)| + CountOld(events, cutoff) == |events|
  {
    if events != [] { KeptAndOld(events[..|events| - 1], cutoff); }
  }

  lemma AlertsGrow(hs: seq<Hit>, h: Hit)
    ensures Alerts(hs + [h]) == Alerts(hs) + {AlertOf(h)}
  {
    assert h in hs + [h] && forall g :: g in hs ==> g in hs + [h];
  }
}
