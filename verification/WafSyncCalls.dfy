/**
 * WafEventSyncService, call by call: the store every way of ending an attempt leaves behind is one the protocol can
 * reach, after any number of calls.
 */
module WafSyncCalls {
  import opened Text
  import opened WafFetch
  import opened WafSync

  /** How an attempt past the gate ends; done counts the writes before the failing one. */
  datatype Ending = FetchFails | ProbeFails | GapFails(done: nat)
                  | WriteFails(done: nat, partly: set<Alert>) | Completes

  function WithHits(s: Store, l: Local): Store {
    s.(stored := s.stored + l.hits)
  }

  function WithSync(s: Store, l: Local): Store {
    s.(syncedUntil := Some(l.now), syncs := s.syncs + [Sync(s.syncedUntil, l.now, l.end, l.days)])
  }

  /** The store after the writes behind the gap check. */
  function Written(s: Store, l: Local, e: Ending): Store {
    var noted := WithAlertTime(WithHits(s, l), l);
    match e
    case WriteFails(done, partly) =>
      (if done == 0 then s.(stored := s.stored + partly)
       else if done == 1 then WithHits(s, l)
       else if done == 2 then noted
       else WithSync(noted, l)).(lastError := true)
    case _ => WithSync(noted, l).(lastError := false)
  }

  /** The store an attempt leaves behind. */
  function Attempted(s: Store, l: Local, probe: Option<int>, e: Ending): Store {
    var g := GapOf(l, probe);
    match e
    case FetchFails => s.(lastError := true)
    case ProbeFails => s.(lastError := true)
    case GapFails(done) => (if done > 0 && g.Some? then WithGapFrom(s, g.value) else s).(lastError := true)
    case WriteFails(_, _) => Written(WithGap(s, g), l, e)
    case Completes => Written(WithGap(s, g), l, e)
  }

  function CleanedUp(s: Store, cutoff: int, gone: set<Alert>): Store {
    s.(stored := s.stored - gone,
       cleaned := if s.cleaned.Some? && s.cleaned.value > cutoff then s.cleaned else Some(cutoff))
  }

  /** What a clean-up may remove; the time of an event may lack the milliseconds of its alert. */
  predicate Removable(s: Store, cutoff: int, gone: set<Alert>) {
    gone <= s.stored && forall a | a in gone :: a.time < cutoff + 1000
  }

  /** The fetch took at least a second less than the overlap. */
  predicate Quick(l: Local) {
    l.end <= l.now + OVERLAP_MS - 1000 && l.days >= 1
  }

  /** The local variables of an attempt on this store, and the way it ended, as far as they were reached. */
  predicate Faithful(alerts: set<Alert>, s: Store, l: Local, probe: Option<int>, e: Ending) {
    && l.now <= l.end && l.before == s.syncedUntil && l.lastAlertAt == s.lastAlertAt &&
         l.from == FetchFrom(l.now, l.days, l.before)
    && (!e.FetchFails? ==> Honest(alerts, l.now, l.from, l.end, l.fetched, l.hits))
    && (e.GapFails? ==> e.done < 2 && GapOf(l, probe).Some?)
    && (e.WriteFails? ==> e.partly <= l.hits)
  }

  // ----- every call of sync is a run of the protocol -----

  /** The actions behind the gap check. */
  function WriteActions(e: Ending): seq<Action> {
    match e
    case WriteFails(done, partly) =>
      if done == 0 then [Fail(0, partly)]
      else if done == 1 then [StoreHits(0), Fail(0, {})]
      else if done == 2 then [StoreHits(0), NoteAlert(0), Fail(0, {})]
      else [StoreHits(0), NoteAlert(0), Commit(0), Fail(0, {})]
    case _ => [StoreHits(0), NoteAlert(0), Commit(0), Finish(0)]
  }

  function GapActions(l: Local, probe: Option<int>): seq<Action> {
    [CheckGap(0, probe)] + if GapOf(l, probe).None? then [] else [EndGap(0)]
  }

  /** The actions behind the fetch. */
  function RestActions(l: Local, probe: Option<int>, e: Ending): seq<Action> {
    match e
    case GapFails(done) => (if done == 0 then [] else [CheckGap(0, probe)]) + [Fail(0, {})]
    case WriteFails(_, _) => GapActions(l, probe) + WriteActions(e)
    case Completes => GapActions(l, probe) + WriteActions(e)
    case _ => [Fail(0, {})]
  }

  function Actions(l: Local, probe: Option<int>, e: Ending): seq<Action> {
    [Attempt(0, l.now)] +
    if e.FetchFails? then [Fail(0, {})] else [DoFetch(0, l.days, l.end, l.fetched, l.hits)] + RestActions(l, probe, e)
  }

  /** acts leads from w to w'. */
  predicate Leads(alerts: set<Alert>, w: World, acts: seq<Action>, w': World) {
    Possible(alerts, w, acts) && After(w, acts) == w'
  }

  lemma LeadsFirst(alerts: set<Alert>, w: World, a: Action, rest: seq<Action>, w': World)
    requires Enabled(alerts, w, a) && Leads(alerts, Do(w, a), rest, w')
    ensures Leads(alerts, w, [a] + rest, w')
  {
    assert ([a] + rest)[1..] == rest;
  }

  lemma {:induction false} LeadsOn(alerts: set<Alert>, w: World, a: seq<Action>, u: World, b: seq<Action>, v: World)
    requires Leads(alerts, w, a, u) && Leads(alerts, u, b, v)
    ensures Leads(alerts, w, a + b, v)
    decreases |a|
  {
    hide Enabled, Do;
    if a == [] {
      assert a + b == b;
    } else {
      LeadsOn(alerts, Do(w, a[0]), a[1..], u, b, v);
      assert (a + b)[1..] == a[1..] + b;
    }
  }

  lemma LeadsNowhere(alerts: set<Alert>, w: World)
    ensures Leads(alerts, w, [], w)
  {
  }

  /** The attempt at this phase, with the gate shut; ps: the phases before it began. */
  function Inside(ps: map<nat, Phase>, s: Store, p: Phase): World {
    World(s, true, ps[0 := p])
  }

  function Outside(ps: map<nat, Phase>, s: Store): World {
    World(s, false, ps[0 := Idle])
  }

  lemma SamePhases(ps: map<nat, Phase>)
    ensures forall p, q {:trigger ps[0 := p][0 := q]} :: ps[0 := p][0 := q] == ps[0 := q]
  {
  }

  lemma FailLeads(alerts: set<Alert>, ps: map<nat, Phase>, s: Store, p: Phase, partly: set<Alert>)
    requires Enabled(alerts, Inside(ps, s, p), Fail(0, partly))
    ensures Leads(alerts, Inside(ps, s, p), [Fail(0, partly)],
              Outside(ps, s.(lastError := true, stored := s.stored + partly)))
  {
    var w' := Outside(ps, s.(lastError := true, stored := s.stored + partly));
    assert Do(Inside(ps, s, p), Fail(0, partly)) == w';
    LeadsNowhere(alerts, w');
    LeadsFirst(alerts, Inside(ps, s, p), Fail(0, partly), [], w');
    assert [Fail(0, partly)] + [] == [Fail(0, partly)];
  }

  lemma CommittedLeads(alerts: set<Alert>, ps: map<nat, Phase>, s: Store, l: Local, e: Ending)
    requires e.Completes? || (e.WriteFails? && e.done > 2)
    ensures Leads(alerts, Inside(ps, s, HasNoted(l)), [Commit(0), if e.Completes? then Finish(0) else Fail(0, {})],
                  Outside(ps, WithSync(s, l).(lastError := !e.Completes?)))
  {
    var last := if e.Completes? then Finish(0) else Fail(0, {});
    var w := Inside(ps, WithSync(s, l), Committed(l));
    var w' := Outside(ps, WithSync(s, l).(lastError := !e.Completes?));
    assert Do(Inside(ps, s, HasNoted(l)), Commit(0)) == w && Do(w, last) == w';
    LeadsNowhere(alerts, w');
    LeadsFirst(alerts, w, last, [], w');
    LeadsFirst(alerts, Inside(ps, s, HasNoted(l)), Commit(0), [last] + [], w');
    assert [Commit(0)] + ([last] + []) == [Commit(0), last];
  }

  lemma WritesLead(alerts: set<Alert>, ps: map<nat, Phase>, s: Store, l: Local, e: Ending)
    requires e.Completes? || (e.WriteFails? && e.partly <= l.hits)
    ensures Leads(alerts, Inside(ps, s, HasGap(l)), WriteActions(e), Outside(ps, Written(s, l, e)))
  {
    hide Leads;
    var w' := Outside(ps, Written(s, l, e));
    var s1 := WithHits(s, l);
    var s2 := WithAlertTime(s1, l);
    var noted, stored := Inside(ps, s2, HasNoted(l)), Inside(ps, s1, HasStored(l));
    assert Do(Inside(ps, s, HasGap(l)), StoreHits(0)) == stored && Do(stored, NoteAlert(0)) == noted;
    if e.WriteFails? && e.done == 0 {
      FailLeads(alerts, ps, s, HasGap(l), e.partly);
    } else if e.WriteFails? && e.done == 1 {
      FailLeads(alerts, ps, s1, HasStored(l), {});
      assert [StoreHits(0)] + [Fail(0, {})] == WriteActions(e);
      assert s1.stored + {} == s1.stored;
      LeadsFirst(alerts, Inside(ps, s, HasGap(l)), StoreHits(0), [Fail(0, {})], w');
    } else if e.WriteFails? && e.done == 2 {
      FailLeads(alerts, ps, s2, HasNoted(l), {});
      assert [StoreHits(0)] + ([NoteAlert(0)] + [Fail(0, {})]) == WriteActions(e);
      assert s2.stored + {} == s2.stored;
      LeadsFirst(alerts, stored, NoteAlert(0), [Fail(0, {})], w');
      LeadsFirst(alerts, Inside(ps, s, HasGap(l)), StoreHits(0), [NoteAlert(0)] + [Fail(0, {})], w');
    } else {
      CommittedLeads(alerts, ps, s2, l, e);
      var tail := [Commit(0), if e.Completes? then Finish(0) else Fail(0, {})];
      LeadsFirst(alerts, stored, NoteAlert(0), tail, w');
      LeadsFirst(alerts, Inside(ps, s, HasGap(l)), StoreHits(0), [NoteAlert(0)] + tail, w');
      assert [StoreHits(0)] + ([NoteAlert(0)] + tail) == WriteActions(e);
    }
  }

  lemma GapLeads(alerts: set<Alert>, ps: map<nat, Phase>, s: Store, l: Local, probe: Option<int>)
    ensures Leads(alerts, Inside(ps, s, HasFetched(l)), GapActions(l, probe),
              Inside(ps, WithGap(s, GapOf(l, probe)), HasGap(l)))
  {
    hide GapOf, Leads;
    SamePhases(ps);
    var w, w' := Inside(ps, s, HasFetched(l)), Inside(ps, WithGap(s, GapOf(l, probe)), HasGap(l));
    LeadsNowhere(alerts, w');
    if GapOf(l, probe).None? {
      assert Do(w, CheckGap(0, probe)) == w';
      LeadsFirst(alerts, w, CheckGap(0, probe), [], w');
    } else {
      var g := GapOf(l, probe).value;
      var u := Inside(ps, WithGapFrom(s, g), HasGapFrom(l, g));
      assert Do(w, CheckGap(0, probe)) == u && Do(u, EndGap(0)) == w';
      LeadsFirst(alerts, u, EndGap(0), [], w');
      LeadsFirst(alerts, w, CheckGap(0, probe), [EndGap(0)] + [], w');
      assert [EndGap(0)] + [] == [EndGap(0)];
    }
  }

  lemma RestLeads(alerts: set<Alert>, ps: map<nat, Phase>, s: Store, l: Local, probe: Option<int>, e: Ending)
    requires !e.FetchFails? && Faithful(alerts, s, l, probe, e)
    ensures Leads(alerts, Inside(ps, s, HasFetched(l)), RestActions(l, probe, e),
              Outside(ps, Attempted(s, l, probe, e)))
  {
    hide GapOf, Leads, Honest, WriteActions, Written;
    SamePhases(ps);
    var w, w' := Inside(ps, s, HasFetched(l)), Outside(ps, Attempted(s, l, probe, e));
    if e.ProbeFails? || (e.GapFails? && e.done == 0) {
      FailLeads(alerts, ps, s, HasFetched(l), {});
      assert s.stored + {} == s.stored && [] + [Fail(0, {})] == [Fail(0, {})];
    } else if e.GapFails? {
      var g := GapOf(l, probe).value;
      var u := Inside(ps, WithGapFrom(s, g), HasGapFrom(l, g));
      FailLeads(alerts, ps, WithGapFrom(s, g), HasGapFrom(l, g), {});
      assert s.stored + {} == s.stored && Do(w, CheckGap(0, probe)) == u;
      LeadsFirst(alerts, w, CheckGap(0, probe), [Fail(0, {})], w');
    } else {
      var gapped := WithGap(s, GapOf(l, probe));
      GapLeads(alerts, ps, s, l, probe);
      WritesLead(alerts, ps, gapped, l, e);
      LeadsOn(alerts, w, GapActions(l, probe), Inside(ps, gapped, HasGap(l)), WriteActions(e), w');
    }
  }

  /**
   * Whatever an attempt past the gate does to the store is a possible run of the protocol, if its fetch was quick
   * enough.
   */
  lemma AttemptIsRun(alerts: set<Alert>, ps: map<nat, Phase>, s: Store, l: Local, probe: Option<int>, e: Ending)
    requires 0 in ps ==> ps[0].Idle?
    requires Quick(l) && Faithful(alerts, s, l, probe, e)
    ensures Leads(alerts, World(s, false, ps), Actions(l, probe, e), Outside(ps, Attempted(s, l, probe, e)))
  {
    hide Leads, RestActions, GapOf, Honest;
    SamePhases(ps);
    var w0, w1 := World(s, false, ps), Inside(ps, s, Entered(l.now));
    var w' := Outside(ps, Attempted(s, l, probe, e));
    assert Do(w0, Attempt(0, l.now)) == w1 && s.stored + {} == s.stored;
    if e.FetchFails? {
      FailLeads(alerts, ps, s, Entered(l.now), {});
      LeadsFirst(alerts, w0, Attempt(0, l.now), [Fail(0, {})], w');
    } else {
      var fetch := DoFetch(0, l.days, l.end, l.fetched, l.hits);
      assert Do(w1, fetch) == Inside(ps, s, HasFetched(l)) && Enabled(alerts, w1, fetch);
      RestLeads(alerts, ps, s, l, probe, e);
      LeadsFirst(alerts, w1, fetch, RestActions(l, probe, e), w');
      LeadsFirst(alerts, w0, Attempt(0, l.now), [fetch] + RestActions(l, probe, e), w');
    }
  }

  // ----- any number of calls -----

  /** Some run of the protocol from the empty store ends with this store and with no attempt on its way. */
  ghost predicate Reachable(alerts: set<Alert>, s: Store) {
    exists acts, ps :: Leads(alerts, START, acts, World(s, false, ps)) && NoneInside(ps)
  }

  predicate NoneInside(ps: map<nat, Phase>) {
    forall t | t in ps :: ps[t].Idle?
  }

  lemma StartReaches(alerts: set<Alert>)
    ensures Reachable(alerts, START.store)
  {
    LeadsNowhere(alerts, START);
    assert START == World(START.store, false, map[]) && NoneInside(map[]);
  }

  lemma AttemptReaches(alerts: set<Alert>, s: Store, l: Local, probe: Option<int>, e: Ending)
    requires Reachable(alerts, s) && Quick(l) && Faithful(alerts, s, l, probe, e)
    ensures Reachable(alerts, Attempted(s, l, probe, e))
  {
    hide Leads, Attempted, Faithful, Actions;
    var acts, ps :| Leads(alerts, START, acts, World(s, false, ps)) && NoneInside(ps);
    AttemptIsRun(alerts, ps, s, l, probe, e);
    LeadsOn(alerts, START, acts, World(s, false, ps), Actions(l, probe, e), Outside(ps, Attempted(s, l, probe, e)));
    assert NoneInside(ps[0 := Idle]);
  }

  lemma CleanUpReaches(alerts: set<Alert>, s: Store, cutoff: int, gone: set<Alert>)
    requires Reachable(alerts, s) && Removable(s, cutoff, gone)
    ensures Reachable(alerts, CleanedUp(s, cutoff, gone))
  {
    var acts, ps :| Leads(alerts, START, acts, World(s, false, ps)) && NoneInside(ps);
    var w, w' := World(s, false, ps), World(CleanedUp(s, cutoff, gone), false, ps);
    assert Do(w, Cleanup(cutoff, gone)) == w' && Enabled(alerts, w, Cleanup(cutoff, gone));
    hide Leads;
    LeadsNowhere(alerts, w');
    LeadsFirst(alerts, w, Cleanup(cutoff, gone), [], w');
    LeadsOn(alerts, START, acts, w, [Cleanup(cutoff, gone)] + [], w');
  }

  /** A call of sync past the gate, one that is turned away, or a call of cleanup. */
  datatype Call = Synced(l: Local, probe: Option<int>, e: Ending) | TurnedAway | CleanUp(cutoff: int, gone: set<Alert>)

  predicate CallOk(alerts: set<Alert>, s: Store, c: Call) {
    match c
    case Synced(l, probe, e) => Quick(l) && Faithful(alerts, s, l, probe, e)
    case TurnedAway => true
    case CleanUp(cutoff, gone) => Removable(s, cutoff, gone)
  }

  function AfterCall(s: Store, c: Call): Store {
    match c
    case Synced(l, probe, e) => Attempted(s, l, probe, e)
    case TurnedAway => s
    case CleanUp(cutoff, gone) => CleanedUp(s, cutoff, gone)
  }

  predicate CallsOk(alerts: set<Alert>, s: Store, calls: seq<Call>)
    decreases |calls|
  {
    calls == [] || (CallOk(alerts, s, calls[0]) && CallsOk(alerts, AfterCall(s, calls[0]), calls[1..]))
  }

  function AfterCalls(s: Store, calls: seq<Call>): Store
    decreases |calls|
  {
    if calls == [] then s else AfterCalls(AfterCall(s, calls[0]), calls[1..])
  }

  lemma {:induction false} CallsReach(alerts: set<Alert>, s: Store, calls: seq<Call>)
    requires Reachable(alerts, s) && CallsOk(alerts, s, calls)
    ensures Reachable(alerts, AfterCalls(s, calls))
    decreases |calls|
  {
    hide Reachable, Faithful, Attempted, CleanedUp, Removable, Quick;
    if calls != [] {
      match calls[0] {
        case Synced(l, probe, e) => AttemptReaches(alerts, s, l, probe, e);
        case TurnedAway =>
        case CleanUp(cutoff, gone) => CleanUpReaches(alerts, s, cutoff, gone);
      }
      CallsReach(alerts, AfterCall(s, calls[0]), calls[1..]);
    }
  }

  /** What can be reached accounts for every alert that is old enough. */
  lemma ReachableIsSafe(alerts: set<Alert>, s: Store)
    requires Reachable(alerts, s)
    ensures forall a | a in alerts && a.hit && s.syncedUntil.Some? && a.time <= s.syncedUntil.value - 1000 ::
              Covered(s, a) || exists y :: y in s.syncs && Excused(y, a)
    ensures Chained(s)
  {
    hide Covered, Excused, Possible, After;
    var acts, ps :| Leads(alerts, START, acts, World(s, false, ps)) && NoneInside(ps);
    NoSilentLoss(alerts, acts);
    OnlyCommitsAdvance(alerts, acts);
  }

  /** After any sequence of calls of the service, whichever way each ends, no alert is lost in silence. */
  lemma ServiceLosesNothing(alerts: set<Alert>, calls: seq<Call>)
    requires CallsOk(alerts, START.store, calls)
    ensures var s := AfterCalls(START.store, calls);
            forall a | a in alerts && a.hit && s.syncedUntil.Some? && a.time <= s.syncedUntil.value - 1000 ::
              Covered(s, a) || exists y :: y in s.syncs && Excused(y, a)
  {
    hide *;
    StartReaches(alerts);
    CallsReach(alerts, START.store, calls);
    ReachableIsSafe(alerts, AfterCalls(START.store, calls));
  }

  // ----- a torn gap -----

  /** A fetch that gave up at `oldest`. */
  function GaveUp(now: int, oldest: int): Local {
    Local(now, 1, now - DAY_MS, None, None, now, Fetched(Some(oldest), None, true), {})
  }

  /** Two attempts that gave up: the first fails behind its gap, the second between the two writes of its own. */
  const TORN := [Synced(GaveUp(0, -1000), None, WriteFails(0, {})), Synced(GaveUp(5000, 2000), None, GapFails(1))]

  /** The settings then hold the start of the second gap and the end of the first: no gap that any sync recorded. */
  lemma TornGap()
    ensures CallsOk({}, START.store, TORN) && Reachable({}, AfterCalls(START.store, TORN))
    ensures var s := AfterCalls(START.store, TORN);
            && s.gapFrom == Some(5000 - DAY_MS) && s.gapTo == Some(-1000)
            && Gap(5000 - DAY_MS, -1000) !in s.gaps
  {
    var s0 := START.store;
    var s1 := AfterCall(s0, TORN[0]);
    TornStep(s0, 0, -1000, WriteFails(0, {}));
    TornStep(s1, 5000, 2000, GapFails(1));
    StartReaches({});
    assert TORN[1..] == [TORN[1]] && [TORN[1]][1..] == [];
    hide Reachable, CallOk, AfterCall;
    CallsReach({}, s0, TORN);
  }

  lemma TornStep(s: Store, now: int, oldest: int, e: Ending)
    requires s.syncedUntil == None && s.lastAlertAt == None && (e == GapFails(1) || e == WriteFails(0, {}))
    ensures CallOk({}, s, Synced(GaveUp(now, oldest), None, e))
    ensures var g, s' := Gap(now - DAY_MS, oldest), AfterCall(s, Synced(GaveUp(now, oldest), None, e));
            && s'.syncedUntil == None && s'.lastAlertAt == None && s'.gapFrom == Some(g.from)
            && s'.gapTo == (if e.WriteFails? then Some(g.to) else s.gapTo)
            && s'.gaps == (if e.WriteFails? then s.gaps + {g} else s.gaps)
  {
  }
}
