/** WafEventSyncService: which gap a sync has to record, in milliseconds, and what the store holds after a sync. */
module WafGaps {
  import opened Text
  import opened WafFetch
  import opened WafSync
  import opened WafSyncCalls

  /**
   * The probe is asked: the last sync was at most seven days ago, the last alert is within the seven days CrowdSec
   * keeps, and the oldest alert read is later than the last sync.
   */
  predicate Asked(now: int, before: int, lastAlert: int, oldest: Option<int>) {
    now - before <= 7 * 86_400_000 && lastAlert > now - 7 * 86_400_000 && oldest.Some? && oldest.value > before
  }

  /** Alerts may be lost: over seven days went by, or the probe finds nothing from before the last sync. */
  predicate IsLoss(now: int, before: int, lastAlert: int, oldest: Option<int>, probe: Option<int>, g: Gap) {
    || (now - before > 7 * 86_400_000 && g.from == before && g.to == now - 7 * 86_400_000)
    || (Asked(now, before, lastAlert, oldest) && (probe.None? || probe.value > before) &&
        g.from == before && g.to == oldest.value)
  }

  /** Everything was read, there is a last sync over ten minutes ago, and some alert was seen before. */
  predicate Checks(l: Local) {
    !l.fetched.truncated && l.before.Some? && l.lastAlertAt.Some? && l.now - l.before.value > 10 * 60_000
  }

  predicate Asks(l: Local) {
    Checks(l) && Asked(l.now, l.before.value, l.lastAlertAt.value, l.fetched.oldest)
  }

  /** Where the fetch begins: five minutes before the last sync, but not before the days that are kept. */
  predicate Begins(l: Local, from: int) {
    var kept := l.now - l.days * 86_400_000;
    if l.before.Some? && l.before.value - 5 * 60_000 > kept then from == l.before.value - 5 * 60_000 else from == kept
  }

  /** The gap to record. */
  predicate IsGap(l: Local, probe: Option<int>, g: Gap) {
    || (l.fetched.truncated && l.fetched.oldest.Some? && Begins(l, g.from) && g.to == l.fetched.oldest.value)
    || (Checks(l) && IsLoss(l.now, l.before.value, l.lastAlertAt.value, l.fetched.oldest, probe, g))
  }

  /** The gap check of an attempt finds this gap exactly if it is the one to record. */
  lemma GapIs(l: Local, probe: Option<int>, g: Gap)
    requires l.from == FetchFrom(l.now, l.days, l.before)
    ensures GapOf(l, probe) == Some(g) <==> IsGap(l, probe, g)
  {
  }

  /** In a run: behind the fetch, the start of a gap is written exactly if that gap is to record. */
  lemma RunFindsGap(alerts: set<Alert>, w: World, t: nat, probe: Option<int>, g: Gap)
    requires Inv(alerts, w) && PhaseOf(w, t).HasFetched?
    ensures var l := PhaseOf(w, t).l;
            PhaseOf(Do(w, CheckGap(t, probe)), t) == HasGapFrom(l, g) <==> IsGap(l, probe, g)
    ensures var l := PhaseOf(w, t).l;
            PhaseOf(Do(w, CheckGap(t, probe)), t) == HasGap(l) <==> forall x :: !IsGap(l, probe, x)
  {
    hide SingleFlight, Safe, Honest, IsGap, GapOf;
    var l := PhaseOf(w, t).l;
    assert PhaseOk(alerts, w.store, w.phases[t]);
    forall x ensures GapOf(l, probe) == Some(x) <==> IsGap(l, probe, x) { GapIs(l, probe, x); }
    if GapOf(l, probe).Some? { assert IsGap(l, probe, GapOf(l, probe).value); }
  }

  /** What a sync that got through leaves, field by field. */
  ghost predicate WentThrough(s: Store, s': Store, l: Local, probe: Option<int>) {
    && Begins(l, l.from) && s'.syncedUntil == Some(l.now) && !s'.lastError && s'.stored == s.stored + l.hits
    && (forall g | IsGap(l, probe, g) ::
          s'.gapFrom == Some(g.from) && s'.gapTo == Some(g.to) && s'.gaps == s.gaps + {g})
    && ((forall g :: !IsGap(l, probe, g)) ==>
          s'.gapFrom == s.gapFrom && s'.gapTo == s.gapTo && s'.gaps == s.gaps)
    && (match l.fetched.newest
        case None => s'.lastAlertAt == s.lastAlertAt
        case Some(newest) =>
          if s.lastAlertAt.Some? && s.lastAlertAt.value >= newest then s'.lastAlertAt == s.lastAlertAt
          else s'.lastAlertAt == Some(newest))
    && s'.cleaned == s.cleaned && s'.syncs == s.syncs + [Sync(s.syncedUntil, l.now, l.end, l.days)]
  }

  lemma BeginsAt(l: Local)
    requires l.from == FetchFrom(l.now, l.days, l.before)
    ensures forall from :: Begins(l, from) <==> from == l.from
  {
  }

  lemma CompletedIsSynced(alerts: set<Alert>, s: Store, l: Local, probe: Option<int>, e: Ending)
    requires e.Completes? && Faithful(alerts, s, l, probe, e)
    ensures WentThrough(s, Attempted(s, l, probe, e), l, probe)
  {
    hide Honest, FetchFrom, IsGap, GapOf, Begins;
    BeginsAt(l);
    forall g ensures GapOf(l, probe) == Some(g) <==> IsGap(l, probe, g) { GapIs(l, probe, g); }
    if GapOf(l, probe).Some? { assert IsGap(l, probe, GapOf(l, probe).value); }
  }

  /** The gap check fails at the probe or at a write, or not at all. */
  ghost predicate CheckEnds(asks: bool, due: bool, reply: Option<Option<int>>, writes: nat, failed: Option<Ending>) {
    failed == if asks && reply.None? then Some(ProbeFails)
              else if due && writes < 2 then Some(GapFails(writes))
              else None
  }

  /** How the attempt ends, given the probe's answer and how many writes of the gap and behind it succeed. */
  ghost predicate Ends(l: Local, reply: Option<Option<int>>, gapWrites: nat, writes: nat, partly: set<Alert>,
    e: Ending) {
    var due := exists g :: IsGap(l, Answer(reply), g);
    if Asks(l) && reply.None? then e == ProbeFails
    else if due && gapWrites < 2 then e == GapFails(gapWrites)
    else if writes < 4 then e == WriteFails(writes, partly * l.hits)
    else e == Completes
  }

  function Answer(reply: Option<Option<int>>): Option<int> {
    if reply.Some? then reply.value else None
  }

  lemma LossIs(now: int, before: int, lastAlert: int, oldest: Option<int>, probe: Option<int>)
    ensures forall g :: DetectGap(now, before, lastAlert, oldest, probe) == Some(g) <==>
                        IsLoss(now, before, lastAlert, oldest, probe, g)
    ensures DetectGap(now, before, lastAlert, oldest, probe).Some? <==>
            exists g :: IsLoss(now, before, lastAlert, oldest, probe, g)
  {
    var found := DetectGap(now, before, lastAlert, oldest, probe);
    if found.Some? { assert IsLoss(now, before, lastAlert, oldest, probe, found.value); }
  }

  lemma DueIs(l: Local, probe: Option<int>)
    requires l.from == FetchFrom(l.now, l.days, l.before)
    ensures GapOf(l, probe).Some? <==> exists g :: IsGap(l, probe, g)
  {
    hide IsGap, GapOf;
    forall g ensures GapOf(l, probe) == Some(g) <==> IsGap(l, probe, g) { GapIs(l, probe, g); }
    if GapOf(l, probe).Some? { assert IsGap(l, probe, GapOf(l, probe).value); }
  }
}
