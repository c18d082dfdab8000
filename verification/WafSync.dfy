/** WafEventSyncService.sync as a protocol: attempts interleave, every write is one step and may be the last. */
module WafSync {
  import opened Text
  import opened WafFetch

  const DAY_MS := 86_400_000
  const OVERLAP_MS := 5 * 60_000
  const GAP_CHECK_AFTER_MS := 10 * 60_000
  const CROWDSEC_MAX_AGE_MS := 7 * DAY_MS

  datatype Gap = Gap(from: int, to: int)

  /** The persisted settings and the stored alerts; gaps and syncs are the history the settings overwrite. */
  datatype Store = Store(
    syncedUntil: Option<int>, lastAlertAt: Option<int>, gapFrom: Option<int>, gapTo: Option<int>, lastError: bool,
    stored: set<Alert>, cleaned: Option<int>, gaps: set<Gap>, syncs: seq<Sync>)

  /** A sync that moved syncedUntil from `before` to `now`; its fetch began at `now` and ended at `end`. */
  datatype Sync = Sync(before: Option<int>, now: int, end: int, days: int)

  /** What an attempt holds in local variables after its fetch. */
  datatype Local = Local(now: int, days: int, from: int, before: Option<int>, lastAlertAt: Option<int>, end: int,
    fetched: Fetched, hits: set<Alert>)

  /** Where an attempt stands: not running, past the gate, or behind its fetch or one of the writes that follow. */
  datatype Phase =
    | Idle
    | Entered(now: int)
    | HasFetched(l: Local)
    | HasGapFrom(l: Local, g: Gap)
    | HasGap(l: Local)
    | HasStored(l: Local)
    | HasNoted(l: Local)
    | Committed(l: Local)

  datatype World = World(store: Store, running: bool, phases: map<nat, Phase>)

  const START := World(Store(None, None, None, None, false, {}, None, {}, []), false, map[])

  function PhaseOf(w: World, t: nat): Phase {
    if t in w.phases then w.phases[t] else Idle
  }

  // ----- the decisions of the source -----

  function FetchFrom(now: int, days: int, syncedUntil: Option<int>): int {
    var retentionStart := now - days * DAY_MS;
    if syncedUntil.None? then retentionStart else Max(retentionStart, syncedUntil.value - OVERLAP_MS)
  }

  /** detectGap; probe is the oldest alert CrowdSec reports from before the last sync. */
  function DetectGap(now: int, syncedUntil: int, lastAlertAt: int, oldest: Option<int>, probe: Option<int>)
    : Option<Gap>
  {
    if now - syncedUntil > CROWDSEC_MAX_AGE_MS then Some(Gap(syncedUntil, now - CROWDSEC_MAX_AGE_MS))
    else if lastAlertAt <= now - CROWDSEC_MAX_AGE_MS || oldest.None? || oldest.value <= syncedUntil then None
    else if probe.Some? && probe.value <= syncedUntil then None
    else Some(Gap(syncedUntil, oldest.value))
  }

  function GapOf(l: Local, probe: Option<int>): Option<Gap> {
    if l.fetched.truncated then
      if l.fetched.oldest.Some? then Some(Gap(l.from, l.fetched.oldest.value)) else None
    else if l.before.Some? && l.lastAlertAt.Some? && l.now - l.before.value > GAP_CHECK_AFTER_MS then
      DetectGap(l.now, l.before.value, l.lastAlertAt.value, l.fetched.oldest, probe)
    else None
  }

  /** recordGap writes the start of the gap, and then its end. */
  function WithGapFrom(s: Store, g: Gap): Store {
    s.(gapFrom := Some(g.from))
  }

  function WithGap(s: Store, g: Option<Gap>): Store {
    if g.None? then s else WithGapFrom(s, g.value).(gapTo := Some(g.value.to), gaps := s.gaps + {g.value})
  }

  function WithAlertTime(s: Store, l: Local): Store {
    if l.fetched.newest.Some? && (l.lastAlertAt.None? || l.fetched.newest.value > l.lastAlertAt.value)
    then s.(lastAlertAt := l.fetched.newest) else s
  }

  // ----- steps -----

  datatype Action =
    | Attempt(t: nat, now: int)
    | DoFetch(t: nat, days: int, end: int, fetched: Fetched, hits: set<Alert>)
    | CheckGap(t: nat, probe: Option<int>)
    | EndGap(t: nat)
    | StoreHits(t: nat)
    | NoteAlert(t: nat)
    | Commit(t: nat)
    | Finish(t: nat)
    | Fail(t: nat, partly: set<Alert>)
    | Cleanup(cutoff: int, gone: set<Alert>)

  /** When a step can happen, in a world where the server holds these alerts. */
  predicate Enabled(alerts: set<Alert>, w: World, a: Action) {
    match a
    case Attempt(t, now) => PhaseOf(w, t).Idle?
    case DoFetch(t, days, end, f, hits) =>
      && PhaseOf(w, t).Entered? && days >= 1
      && var now := PhaseOf(w, t).now;
      && now <= end <= now + OVERLAP_MS - 1000
      && Honest(alerts, now, FetchFrom(now, days, w.store.syncedUntil), end, f, hits)
    case CheckGap(t, _) => PhaseOf(w, t).HasFetched?
    case EndGap(t) => PhaseOf(w, t).HasGapFrom?
    case StoreHits(t) => PhaseOf(w, t).HasGap?
    case NoteAlert(t) => PhaseOf(w, t).HasStored?
    case Commit(t) => PhaseOf(w, t).HasNoted?
    case Finish(t) => PhaseOf(w, t).Committed?
    case Fail(t, partly) =>
      !PhaseOf(w, t).Idle? && (partly == {} || (PhaseOf(w, t).HasGap? && partly <= PhaseOf(w, t).l.hits))
    case Cleanup(cutoff, gone) => gone <= w.store.stored && forall x | x in gone :: x.time < cutoff + 1000
  }

  function Do(w: World, a: Action): World {
    match a
    case Attempt(t, now) =>
      // compareAndSet(false, true); a busy attempt returns at once
      if w.running then w else w.(running := true, phases := w.phases[t := Entered(now)])
    case DoFetch(t, days, end, f, hits) =>
      var p := PhaseOf(w, t);
      var now := if p.Entered? then p.now else 0;
      var s := w.store;
      var l := Local(now, days, FetchFrom(now, days, s.syncedUntil), s.syncedUntil, s.lastAlertAt, end, f, hits);
      w.(phases := w.phases[t := HasFetched(l)])
    case CheckGap(t, probe) =>
      var p := PhaseOf(w, t);
      if !p.HasFetched? then w
      else if GapOf(p.l, probe).None? then w.(phases := w.phases[t := HasGap(p.l)])
      else
        var g := GapOf(p.l, probe).value;
        World(WithGapFrom(w.store, g), w.running, w.phases[t := HasGapFrom(p.l, g)])
    case EndGap(t) =>
      var p := PhaseOf(w, t);
      if p.HasGapFrom? then World(WithGap(w.store, Some(p.g)), w.running, w.phases[t := HasGap(p.l)]) else w
    case StoreHits(t) =>
      var p := PhaseOf(w, t);
      if p.HasGap?
      then World(w.store.(stored := w.store.stored + p.l.hits), w.running, w.phases[t := HasStored(p.l)])
      else w
    case NoteAlert(t) =>
      var p := PhaseOf(w, t);
      if p.HasStored? then World(WithAlertTime(w.store, p.l), w.running, w.phases[t := HasNoted(p.l)]) else w
    case Commit(t) =>
      var p := PhaseOf(w, t);
      if p.HasNoted? then
        var s := w.store.(syncedUntil := Some(p.l.now),
                          syncs := w.store.syncs + [Sync(w.store.syncedUntil, p.l.now, p.l.end, p.l.days)]);
        World(s, w.running, w.phases[t := Committed(p.l)])
      else w
    case Finish(t) =>
      World(w.store.(lastError := false), false, w.phases[t := Idle])
    case Fail(t, partly) =>
      World(w.store.(lastError := true, stored := w.store.stored + partly), false, w.phases[t := Idle])
    case Cleanup(cutoff, gone) =>
      var c := if w.store.cleaned.Some? && w.store.cleaned.value > cutoff then w.store.cleaned else Some(cutoff);
      w.(store := w.store.(stored := w.store.stored - gone, cleaned := c))
  }

  function After(w: World, acts: seq<Action>): World
    decreases |acts|
  {
    if acts == [] then w else After(Do(w, acts[0]), acts[1..])
  }

  predicate Possible(alerts: set<Alert>, w: World, acts: seq<Action>)
    decreases |acts|
  {
    acts == [] || (Enabled(alerts, w, acts[0]) && Possible(alerts, Do(w, acts[0]), acts[1..]))
  }

  // ----- what every step keeps -----

  /** The gate is shut exactly while one attempt is inside, and no two are. */
  predicate SingleFlight(w: World) {
    && (forall t, u | t in w.phases && u in w.phases && !w.phases[t].Idle? && !w.phases[u].Idle? :: t == u)
    && (w.running <==> exists t :: t in w.phases && !w.phases[t].Idle?)
  }

  /** Stored, inside a gap that some sync recorded, or older than a cleanup allowed. */
  predicate Covered(s: Store, a: Alert) {
    || a in s.stored
    || (exists g :: g in s.gaps && g.from <= a.time <= g.to)
    || (s.cleaned.Some? && a.time < s.cleaned.value + 1000)
  }

  /** The sync that first had to bring the alert, and did not have to because it was no longer there to be had. */
  predicate Excused(y: Sync, a: Alert) {
    && a.time <= y.now - 1000 && (y.before.Some? ==> a.time > y.before.value - 1000)
    && (a.gone <= y.end || a.time < y.now - y.days * DAY_MS + (y.end - y.now))
  }

  predicate Safe(alerts: set<Alert>, s: Store) {
    forall a | a in alerts && a.hit && s.syncedUntil.Some? && a.time <= s.syncedUntil.value - 1000 ::
      Covered(s, a) || exists y :: y in s.syncs && Excused(y, a)
  }

  /** What an attempt behind its fetch knows: its fetch was honest and started from the settings that still hold. */
  predicate LocalOk(alerts: set<Alert>, l: Local) {
    && l.now <= l.end <= l.now + OVERLAP_MS - 1000
    && l.from == FetchFrom(l.now, l.days, l.before)
    && Honest(alerts, l.now, l.from, l.end, l.fetched, l.hits)
  }

  predicate HitsCovered(s: Store, l: Local) {
    forall a | a in l.hits :: Covered(s, a)
  }

  predicate GapRecorded(s: Store, l: Local) {
    l.fetched.truncated && l.fetched.oldest.Some? ==> Gap(l.from, l.fetched.oldest.value) in s.gaps
  }

  /** The gap whose start is written is the one that pages left unread, if there is such a one. */
  predicate GapStarted(l: Local, g: Gap) {
    l.fetched.truncated && l.fetched.oldest.Some? ==> g == Gap(l.from, l.fetched.oldest.value)
  }

  predicate PhaseOk(alerts: set<Alert>, s: Store, p: Phase) {
    match p
    case Idle => true
    case Entered(_) => true
    case HasFetched(l) => LocalOk(alerts, l) && l.before == s.syncedUntil
    case HasGapFrom(l, g) => LocalOk(alerts, l) && l.before == s.syncedUntil && GapStarted(l, g)
    case HasGap(l) => LocalOk(alerts, l) && l.before == s.syncedUntil && GapRecorded(s, l)
    case HasStored(l) => LocalOk(alerts, l) && l.before == s.syncedUntil && GapRecorded(s, l) && HitsCovered(s, l)
    case HasNoted(l) => LocalOk(alerts, l) && l.before == s.syncedUntil && GapRecorded(s, l) && HitsCovered(s, l)
    case Committed(l) => s.syncedUntil == Some(l.now)
  }

  predicate Inv(alerts: set<Alert>, w: World) {
    && SingleFlight(w)
    && Safe(alerts, w.store)
    && forall t | t in w.phases :: PhaseOk(alerts, w.store, w.phases[t])
  }

  /** s' holds at least what s covers. */
  predicate Grows(s: Store, s': Store) {
    && s.gaps <= s'.gaps && s'.syncs == s.syncs && s'.syncedUntil == s.syncedUntil
    && (s.cleaned.Some? ==> s'.cleaned.Some? && s.cleaned.value <= s'.cleaned.value)
    && (forall a | a in s.stored :: a in s'.stored || (s'.cleaned.Some? && a.time < s'.cleaned.value + 1000))
  }

  lemma GrowsCovered(s: Store, s': Store, a: Alert)
    requires Grows(s, s') && Covered(s, a)
    ensures Covered(s', a)
  {
    if g :| g in s.gaps && g.from <= a.time <= g.to { assert g in s'.gaps; }
  }

  lemma GrowsKeeps(alerts: set<Alert>, s: Store, s': Store, p: Phase)
    requires Grows(s, s')
    ensures Safe(alerts, s) ==> Safe(alerts, s')
    ensures PhaseOk(alerts, s, p) ==> PhaseOk(alerts, s', p)
  {
    forall a | Covered(s, a) ensures Covered(s', a) { GrowsCovered(s, s', a); }
  }

  /** A step that only adds to the store and moves one attempt on. */
  lemma StepKeeps(alerts: set<Alert>, w: World, w': World, t: nat, p: Phase)
    requires Inv(alerts, w) && t in w.phases && !w.phases[t].Idle?
    requires Grows(w.store, w'.store) && PhaseOk(alerts, w'.store, p)
    requires w'.phases == w.phases[t := p] && w'.running == !p.Idle?
    ensures Inv(alerts, w')
  {
    GrowsKeeps(alerts, w.store, w'.store, p);
    forall u | u in w'.phases ensures PhaseOk(alerts, w'.store, w'.phases[u]) {
      if u != t { GrowsKeeps(alerts, w.store, w'.store, w.phases[u]); }
    }
    assert t in w'.phases;
  }

  /** Only the committing attempt is inside, so no other attempt's knowledge depends on syncedUntil. */
  lemma OthersIdle(w: World, t: nat)
    requires SingleFlight(w) && t in w.phases && !w.phases[t].Idle?
    ensures w.running && forall u | u in w.phases && u != t :: w.phases[u].Idle?
  {
  }

  /** An alert that only this sync could owe is covered by it, or this sync is the reason it need not be. */
  lemma CommitOwes(alerts: set<Alert>, s: Store, l: Local, a: Alert)
    requires LocalOk(alerts, l) && GapRecorded(s, l) && HitsCovered(s, l)
    requires a in alerts && a.hit && a.time <= l.now - 1000
    requires l.before.Some? ==> a.time > l.before.value - 1000
    ensures Covered(s, a) || Excused(Sync(l.before, l.now, l.end, l.days), a)
  {
    if !Excused(Sync(l.before, l.now, l.end, l.days), a) {
      assert Owed(a, l.now, l.from, l.end);
      if a !in l.hits {
        var g := Gap(l.from, l.fetched.oldest.value);
        assert g in s.gaps && g.from <= a.time <= g.to;
      }
    }
  }

  lemma CommitSafe(alerts: set<Alert>, w: World, t: nat)
    requires Inv(alerts, w) && PhaseOf(w, t).HasNoted?
    ensures Safe(alerts, Do(w, Commit(t)).store)
  {
    var s, s' := w.store, Do(w, Commit(t)).store;
    var l := PhaseOf(w, t).l;
    var y := Sync(s.syncedUntil, l.now, l.end, l.days);
    assert s'.syncs[|s.syncs|] == y;
    forall a | a in alerts && a.hit && a.time <= l.now - 1000
      ensures Covered(s', a) || exists z :: z in s'.syncs && Excused(z, a)
    {
      if s.syncedUntil.Some? && a.time <= s.syncedUntil.value - 1000 {
        if z :| z in s.syncs && Excused(z, a) { assert z in s'.syncs; }
      } else {
        CommitOwes(alerts, s, l, a);
        assert y in s'.syncs;
      }
    }
  }

  lemma CommitKeeps(alerts: set<Alert>, w: World, t: nat)
    requires Inv(alerts, w) && PhaseOf(w, t).HasNoted?
    ensures Inv(alerts, Do(w, Commit(t)))
  {
    var w' := Do(w, Commit(t));
    CommitSafe(alerts, w, t);
    OthersIdle(w, t);
    assert t in w'.phases && !w'.phases[t].Idle?;
  }

  lemma InvStep(alerts: set<Alert>, w: World, a: Action)
    requires Inv(alerts, w) && Enabled(alerts, w, a)
    ensures Inv(alerts, Do(w, a))
  {
    var w' := Do(w, a);
    match a
    case Attempt(t, now) =>
      if !w.running {
        assert t in w'.phases && !w'.phases[t].Idle?;
      }
    case DoFetch(t, days, end, f, hits) =>
      StepKeeps(alerts, w, w', t, w'.phases[t]);
      OthersIdle(w, t);
    case CheckGap(t, probe) =>
      OthersIdle(w, t);
      StepKeeps(alerts, w, w', t, w'.phases[t]);
    case EndGap(t) =>
      OthersIdle(w, t);
      StepKeeps(alerts, w, w', t, w'.phases[t]);
    case StoreHits(t) =>
      OthersIdle(w, t);
      StepKeeps(alerts, w, w', t, w'.phases[t]);
    case NoteAlert(t) =>
      OthersIdle(w, t);
      NoteGrows(w.store, PhaseOf(w, t).l);
      GrowsKeeps(alerts, w.store, w'.store, PhaseOf(w, t));
      StepKeeps(alerts, w, w', t, w'.phases[t]);
    case Commit(t) =>
      CommitKeeps(alerts, w, t);
    case Finish(t) =>
      StepKeeps(alerts, w, w', t, Idle);
    case Fail(t, partly) =>
      StepKeeps(alerts, w, w', t, Idle);
    case Cleanup(cutoff, gone) =>
      CleanupGrows(w, cutoff, gone);
      forall u | u in w.phases ensures PhaseOk(alerts, w'.store, w.phases[u]) {
        GrowsKeeps(alerts, w.store, w'.store, w.phases[u]);
      }
      GrowsKeeps(alerts, w.store, w'.store, Idle);
  }

  lemma NoteGrows(s: Store, l: Local)
    ensures Grows(s, WithAlertTime(s, l))
  {
  }

  lemma CleanupGrows(w: World, cutoff: int, gone: set<Alert>)
    requires Enabled({}, w, Cleanup(cutoff, gone))
    ensures Grows(w.store, Do(w, Cleanup(cutoff, gone)).store)
  {
  }

  // ----- over whole runs -----

  lemma {:induction false} RunKeeps(alerts: set<Alert>, w: World, acts: seq<Action>)
    requires Inv(alerts, w) && Possible(alerts, w, acts)
    ensures Inv(alerts, After(w, acts))
    decreases |acts|
  {
    if acts != [] {
      InvStep(alerts, w, acts[0]);
      RunKeeps(alerts, Do(w, acts[0]), acts[1..]);
    }
  }

  /**
   * After any run from an empty store: at most one attempt is past the gate, and every WAF alert at least a
   * second older than syncedUntil is stored, or in a recorded gap, or cleaned up, or was no longer held by
   * CrowdSec or no longer inside the retention window when the first sync that owed it ended.
   */
  lemma NoSilentLoss(alerts: set<Alert>, acts: seq<Action>)
    requires Possible(alerts, START, acts)
    ensures var w := After(START, acts);
            && SingleFlight(w)
            && var until := w.store.syncedUntil;
               forall a | a in alerts && a.hit && until.Some? && a.time <= until.value - 1000 ::
                 Covered(w.store, a) || exists y :: y in w.store.syncs && Excused(y, a)
  {
    RunKeeps(alerts, START, acts);
  }

  // ----- what failed and busy attempts do -----

  /** How many of these steps write syncedUntil. */
  function Commits(acts: seq<Action>): nat {
    if acts == [] then 0 else (if acts[0].Commit? then 1 else 0) + Commits(acts[1..])
  }

  /** When the last of the first k syncs began. */
  function Until(syncs: seq<Sync>, k: nat): Option<int>
    requires k <= |syncs|
  {
    if k == 0 then None else Some(syncs[k - 1].now)
  }

  /** syncedUntil is when the last sync began, and every sync went on from the one before it. */
  predicate Chained(s: Store) {
    s.syncedUntil == Until(s.syncs, |s.syncs|) &&
      forall k | 0 <= k < |s.syncs| :: s.syncs[k].before == Until(s.syncs, k)
  }

  lemma OneMoreSync(s: Store, s': Store, y: Sync)
    requires Chained(s) && y.before == s.syncedUntil && s'.syncs == s.syncs + [y] && s'.syncedUntil == Some(y.now)
    ensures Chained(s')
  {
    forall k | 0 <= k < |s'.syncs| ensures s'.syncs[k].before == Until(s'.syncs, k) {
      if k < |s.syncs| { assert s'.syncs[k] == s.syncs[k]; }
    }
  }

  lemma StepChained(alerts: set<Alert>, w: World, a: Action)
    requires Enabled(alerts, w, a) && Chained(w.store)
    ensures Chained(Do(w, a).store)
    ensures |Do(w, a).store.syncs| == |w.store.syncs| + if a.Commit? then 1 else 0
  {
    hide GapOf, DetectGap, Honest;
    var s, s' := w.store, Do(w, a).store;
    if a.Commit? {
      var y := Sync(s.syncedUntil, PhaseOf(w, a.t).l.now, PhaseOf(w, a.t).l.end, PhaseOf(w, a.t).l.days);
      assert s'.syncs == s.syncs + [y] && s'.syncedUntil == Some(y.now);
      hide Do, Enabled;
      OneMoreSync(s, s', y);
    } else {
      assert s'.syncs == s.syncs && s'.syncedUntil == s.syncedUntil;
    }
  }

  lemma {:induction false} ChainedFrom(alerts: set<Alert>, w: World, acts: seq<Action>)
    requires Possible(alerts, w, acts) && Chained(w.store)
    ensures Chained(After(w, acts).store) && |After(w, acts).store.syncs| == |w.store.syncs| + Commits(acts)
    decreases |acts|
  {
    hide Chained, Enabled, Do;
    if acts != [] {
      StepChained(alerts, w, acts[0]);
      ChainedFrom(alerts, Do(w, acts[0]), acts[1..]);
    }
  }

  /**
   * In any run syncedUntil is moved by commits and nothing else: busy attempts, failures and clean-ups leave no trace
   * in it, and each commit goes on from the time the one before it started.
   */
  lemma OnlyCommitsAdvance(alerts: set<Alert>, acts: seq<Action>)
    requires Possible(alerts, START, acts)
    ensures var s := After(START, acts).store;
            && |s.syncs| == Commits(acts)
            && s.syncedUntil == Until(s.syncs, |s.syncs|)
            && forall k | 0 <= k < |s.syncs| :: s.syncs[k].before == Until(s.syncs, k)
  {
    ChainedFrom(alerts, START, acts);
  }

  // ----- the gap in the settings -----

  datatype GapWrite = From(g: Gap) | To(g: Gap)

  /** The writes of recordGap among one step's effects. */
  function Wrote(w: World, a: Action): seq<GapWrite> {
    match a
    case CheckGap(t, probe) =>
      var p := PhaseOf(w, t);
      if p.HasFetched? && GapOf(p.l, probe).Some? then [From(GapOf(p.l, probe).value)] else []
    case EndGap(t) => if PhaseOf(w, t).HasGapFrom? then [To(PhaseOf(w, t).g)] else []
    case _ => []
  }

  function GapWrites(w: World, acts: seq<Action>): seq<GapWrite>
    decreases |acts|
  {
    if acts == [] then [] else Wrote(w, acts[0]) + GapWrites(Do(w, acts[0]), acts[1..])
  }

  /** The start of the last gap whose start was written. */
  function LastFrom(writes: seq<GapWrite>): Option<int> {
    if writes == [] then None
    else if writes[|writes| - 1].From? then Some(writes[|writes| - 1].g.from)
    else LastFrom(writes[..|writes| - 1])
  }

  /** The end of the last gap whose end was written. */
  function LastTo(writes: seq<GapWrite>): Option<int> {
    if writes == [] then None
    else if writes[|writes| - 1].To? then Some(writes[|writes| - 1].g.to)
    else LastTo(writes[..|writes| - 1])
  }

  /** An end is written only directly behind the start of the same gap. */
  predicate Paired(writes: seq<GapWrite>) {
    forall k | 0 <= k < |writes| && writes[k].To? :: k > 0 && writes[k - 1] == From(writes[k].g)
  }

  /** What the settings and the history say after these writes. */
  ghost predicate GapsSay(s: Store, writes: seq<GapWrite>) {
    && s.gapFrom == LastFrom(writes) && s.gapTo == LastTo(writes) && Paired(writes)
    && forall g :: g in s.gaps <==> To(g) in writes
  }

  /** An attempt between the two writes has made the last of them. */
  predicate InsideGap(w: World, writes: seq<GapWrite>) {
    forall t | t in w.phases && w.phases[t].HasGapFrom? :: writes != [] && writes[|writes| - 1] == From(w.phases[t].g)
  }

  lemma MoreWrites(writes: seq<GapWrite>, x: GapWrite)
    ensures LastFrom(writes + [x]) == if x.From? then Some(x.g.from) else LastFrom(writes)
    ensures LastTo(writes + [x]) == if x.To? then Some(x.g.to) else LastTo(writes)
  {
    assert (writes + [x])[..|writes|] == writes;
  }

  lemma GapStarts(s: Store, writes: seq<GapWrite>, g: Gap)
    requires GapsSay(s, writes)
    ensures GapsSay(WithGapFrom(s, g), writes + [From(g)])
  {
    MoreWrites(writes, From(g));
    hide LastFrom, LastTo;
  }

  lemma GapEnds(s: Store, writes: seq<GapWrite>, g: Gap)
    requires GapsSay(s, writes) && writes != [] && writes[|writes| - 1] == From(g)
    ensures GapsSay(WithGap(s, Some(g)), writes + [To(g)])
  {
    MoreWrites(writes, To(g));
    assert writes == writes[..|writes| - 1] + [From(g)];
    hide LastTo;
  }

  lemma GapStep(alerts: set<Alert>, w: World, a: Action, writes: seq<GapWrite>)
    requires Inv(alerts, w) && Enabled(alerts, w, a) && GapsSay(w.store, writes) && InsideGap(w, writes)
    ensures GapsSay(Do(w, a).store, writes + Wrote(w, a)) && InsideGap(Do(w, a), writes + Wrote(w, a))
  {
    hide GapOf, Safe, PhaseOk, Honest, GapsSay, WithAlertTime;
    assert writes + [] == writes;
    match a
    case CheckGap(t, probe) =>
      OthersIdle(w, t);
      if GapOf(PhaseOf(w, t).l, probe).Some? { GapStarts(w.store, writes, GapOf(PhaseOf(w, t).l, probe).value); }
    case EndGap(t) =>
      OthersIdle(w, t);
      GapEnds(w.store, writes, PhaseOf(w, t).g);
    case StoreHits(t) => SameGaps(w.store, Do(w, a).store, writes);
    case NoteAlert(t) =>
      NoteLeavesGaps(w.store, PhaseOf(w, t).l);
      SameGaps(w.store, Do(w, a).store, writes);
    case _ => SameGaps(w.store, Do(w, a).store, writes);
  }

  lemma NoteLeavesGaps(s: Store, l: Local)
    ensures var s' := WithAlertTime(s, l); s'.gapFrom == s.gapFrom && s'.gapTo == s.gapTo && s'.gaps == s.gaps
  {
  }

  lemma SameGaps(s: Store, s': Store, writes: seq<GapWrite>)
    requires GapsSay(s, writes) && s'.gapFrom == s.gapFrom && s'.gapTo == s.gapTo && s'.gaps == s.gaps
    ensures GapsSay(s', writes)
  {
  }

  lemma {:induction false} GapRun(alerts: set<Alert>, w: World, acts: seq<Action>, writes: seq<GapWrite>)
    requires Inv(alerts, w) && Possible(alerts, w, acts) && GapsSay(w.store, writes) && InsideGap(w, writes)
    ensures GapsSay(After(w, acts).store, writes + GapWrites(w, acts))
    decreases |acts|
  {
    hide Inv, Enabled, Do, Wrote, GapsSay, InsideGap;
    if acts == [] {
      assert writes + [] == writes;
    } else {
      var a := acts[0];
      GapStep(alerts, w, a, writes);
      InvStep(alerts, w, a);
      GapRun(alerts, Do(w, a), acts[1..], writes + Wrote(w, a));
      assert writes + Wrote(w, a) + GapWrites(Do(w, a), acts[1..]) == writes + GapWrites(w, acts);
    }
  }

  /**
   * In any run the settings hold the start of the last gap that was started and the end of the last that was finished;
   * recorded are the finished ones. So the settings are a recorded gap if the last gap that was started is finished.
   */
  lemma GapIsTheLast(alerts: set<Alert>, acts: seq<Action>)
    requires Possible(alerts, START, acts)
    ensures var s, writes := After(START, acts).store, GapWrites(START, acts);
            && s.gapFrom == LastFrom(writes) && s.gapTo == LastTo(writes)
            && (forall g :: g in s.gaps <==> To(g) in writes)
            && (writes != [] && writes[|writes| - 1].To? ==>
                  s.gapFrom.Some? && s.gapTo.Some? && Gap(s.gapFrom.value, s.gapTo.value) in s.gaps)
  {
    NoGapsYet();
    hide LastFrom, LastTo, Possible, After, GapWrites, Inv, InsideGap;
    GapRun(alerts, START, acts, []);
    var writes := GapWrites(START, acts);
    assert [] + writes == writes;
    if writes != [] && writes[|writes| - 1].To? { LastPair(writes); }
  }

  lemma NoGapsYet()
    ensures GapsSay(START.store, []) && InsideGap(START, []) && forall alerts :: Inv(alerts, START)
  {
  }

  lemma LastPair(writes: seq<GapWrite>)
    requires Paired(writes) && writes != [] && writes[|writes| - 1].To?
    ensures var g := writes[|writes| - 1].g;
            LastFrom(writes) == Some(g.from) && LastTo(writes) == Some(g.to) && To(g) in writes
  {
    var init := writes[..|writes| - 1];
    assert init[|init| - 1] == From(writes[|writes| - 1].g);
  }

  /**
   * A failing attempt leaves syncedUntil as it found it exactly if it fails before its commit, or commits the same
   * time.
   */
  lemma FailureAfterFetch(alerts: set<Alert>, w: World, t: nat, partly: set<Alert>)
    requires Inv(alerts, w) && Enabled(alerts, w, Fail(t, partly)) && !PhaseOf(w, t).Entered?
    ensures var p := PhaseOf(w, t);
            Do(w, Fail(t, partly)).store.syncedUntil == p.l.before <==> !p.Committed? || p.l.before == Some(p.l.now)
  {
    assert PhaseOk(alerts, w.store, PhaseOf(w, t));
  }

  const NOTHING := Fetched(None, None, false)

  /** The run in which the write after the commit fails: the attempt fails, yet syncedUntil has moved. */
  const LATE_FAILURE := [
    Attempt(0, 5000), DoFetch(0, 30, 5000, NOTHING, {}), CheckGap(0, None), StoreHits(0), NoteAlert(0), Commit(0),
      Fail(0, {})]

  const LATE_LOCAL := Local(5000, 30, FetchFrom(5000, 30, None), None, None, 5000, NOTHING, {})

  lemma LateFailureAdvances()
    ensures Possible({}, START, LATE_FAILURE)
    ensures After(START, LATE_FAILURE).store.lastError && After(START, LATE_FAILURE).store.syncedUntil == Some(5000)
  {
    var l := LATE_LOCAL;
    var w1, w2, w3 := LateWorld(Entered(5000)), LateWorld(HasFetched(l)), LateWorld(HasGap(l));
    var w4, w5 := LateWorld(HasStored(l)), LateWorld(HasNoted(l));
    var w6 := Do(w5, Commit(0));
    LateFetch();
    LateWrites();
    LateCommit();
    hide Do, Enabled, Possible, After, LateWorld;
    RunFrom({}, START, LATE_FAILURE, 0, [START, w1, w2, w3, w4, w5, w6, Do(w6, Fail(0, {}))]);
  }

  lemma LateFetch()
    ensures Enabled({}, START, Attempt(0, 5000)) && Do(START, Attempt(0, 5000)) == LateWorld(Entered(5000))
    ensures Enabled({}, LateWorld(Entered(5000)), DoFetch(0, 30, 5000, NOTHING, {}))
    ensures Do(LateWorld(Entered(5000)), DoFetch(0, 30, 5000, NOTHING, {})) == LateWorld(HasFetched(LATE_LOCAL))
  {
  }

  lemma LateWrites()
    ensures var l := LATE_LOCAL;
            && Enabled({}, LateWorld(HasFetched(l)), CheckGap(0, None)) &&
                 Do(LateWorld(HasFetched(l)), CheckGap(0, None)) == LateWorld(HasGap(l))
            && Enabled({}, LateWorld(HasGap(l)), StoreHits(0)) &&
                 Do(LateWorld(HasGap(l)), StoreHits(0)) == LateWorld(HasStored(l))
            && Enabled({}, LateWorld(HasStored(l)), NoteAlert(0)) &&
                 Do(LateWorld(HasStored(l)), NoteAlert(0)) == LateWorld(HasNoted(l))
  {
  }

  lemma LateCommit()
    ensures var w := Do(LateWorld(HasNoted(LATE_LOCAL)), Commit(0));
            && Enabled({}, LateWorld(HasNoted(LATE_LOCAL)), Commit(0)) && Enabled({}, w, Fail(0, {}))
            && Do(w, Fail(0, {})).store.lastError && Do(w, Fail(0, {})).store.syncedUntil == Some(5000)
  {
  }

  function LateWorld(p: Phase): World {
    World(START.store, true, map[0 := p])
  }

  /** A run given world by world. */
  lemma {:induction false} RunFrom(alerts: set<Alert>, w: World, acts: seq<Action>, k: nat, ws: seq<World>)
    requires k <= |acts| && |ws| == |acts| + 1 && ws[k] == w
    requires forall i | k <= i < |acts| :: Enabled(alerts, ws[i], acts[i]) && Do(ws[i], acts[i]) == ws[i + 1]
    ensures Possible(alerts, w, acts[k..]) && After(w, acts[k..]) == ws[|acts|]
    decreases |acts| - k
  {
    if k < |acts| {
      assert acts[k..][1..] == acts[k + 1..];
      RunFrom(alerts, ws[k + 1], acts, k + 1, ws);
    }
  }
}
