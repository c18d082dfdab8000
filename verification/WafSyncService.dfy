/** WafEventSyncService: the service object whose sync method runs one attempt from the gate to its last write. */
module WafSyncService {
  import opened Text
  import opened WafFetch
  import opened WafSync
  import opened WafSyncCalls
  import opened WafGaps

  datatype Outcome = NotConfigured | Busy | Succeeded | Failed

  class WafEventSyncService {
    var running: bool
    var syncedUntil: Option<int>
    var lastAlertAt: Option<int>
    var gapFrom: Option<int>
    var gapTo: Option<int>
    var lastError: bool
    var stored: set<Alert>
    ghost var cleaned: Option<int>
    ghost var gaps: set<Gap>
    ghost var syncs: seq<Sync>

    ghost function Abs(): Store
      reads this
    {
      Store(syncedUntil, lastAlertAt, gapFrom, gapTo, lastError, stored, cleaned, gaps, syncs)
    }

    constructor ()
      ensures !running && Abs() == START.store
    {
      running, syncedUntil, lastAlertAt, gapFrom, gapTo, lastError, stored := false, None, None, None, None, false, {};
      cleaned, gaps, syncs := None, {}, [];
    }

    /**
     * The answer is None, or how the attempt fails; writes says after how many of the two writes the next one fails.
     */
    method RecordGap(from: int, to: int, writes: nat) returns (failed: Option<Ending>)
      modifies this`gapFrom, this`gapTo, this`gaps
      ensures failed == if writes < 2 then Some(GapFails(writes)) else None
      ensures Abs() == if writes == 0 then old(Abs())
                       else if writes == 1 then WithGapFrom(old(Abs()), Gap(from, to))
                       else WithGap(old(Abs()), Some(Gap(from, to)))
    {
      if writes == 0 { return Some(GapFails(0)); }
      gapFrom := Some(from);
      if writes == 1 { return Some(GapFails(1)); }
      gapTo := Some(to);
      gaps := gaps + {Gap(from, to)};
      failed := None;
    }

    /** What the gap check leaves, whichever way it ends. */
    ghost predicate Checked(s: Store, g: Option<Gap>, failed: Option<Ending>)
      reads this
    {
      match failed
      case None => Abs() == WithGap(s, g)
      case Some(e) =>
        || (e.ProbeFails? && Abs() == s)
        || (e.GapFails? && e.done < 2 && g.Some? && Abs() == if e.done == 0 then s else WithGapFrom(s, g.value))
    }

    /** detectGap; reply is the answer to the probe request, None if the request fails. */
    method DetectAndRecordGap(now: int, before: int, lastAlert: int, oldest: Option<int>, reply: Option<Option<int>>,
      writes: nat)
      returns (failed: Option<Ending>)
      modifies this`gapFrom, this`gapTo, this`gaps
      ensures Checked(old(Abs()),
                DetectGap(now, before, lastAlert, oldest, Answer(reply)), failed)
      ensures CheckEnds(Asked(now, before, lastAlert, oldest),
                exists g :: IsLoss(now, before, lastAlert, oldest, Answer(reply), g), reply, writes, failed)
      ensures failed.None? ==> forall g | IsLoss(now, before, lastAlert, oldest, Answer(reply), g) ::
                  gapFrom == Some(g.from) && gapTo == Some(g.to) && gaps == old(gaps) + {g}
      ensures failed.None? && (forall g :: !IsLoss(now, before, lastAlert, oldest, Answer(reply), g)) ==>
                Abs() == old(Abs())
    {
      hide IsLoss;
      LossIs(now, before, lastAlert, oldest, Answer(reply));
      var gapTo;
      if now - before > CROWDSEC_MAX_AGE_MS {
        gapTo := now - CROWDSEC_MAX_AGE_MS;
      } else {
        if lastAlert <= now - CROWDSEC_MAX_AGE_MS || oldest.None? || oldest.value <= before { return None; }
        if reply.None? { return Some(ProbeFails); }
        var probe := reply.value;
        if probe.Some? && probe.value <= before { return None; }
        gapTo := oldest.value;
      }
      failed := RecordGap(before, gapTo, writes);
    }

    /**
     * sync. The input holds what the surroundings contribute: the server's answers, the probe's answer, after how
     * many of the two writes of a gap and of the four that follow (hits, alert time, syncedUntil, sync time) one
     * fails; partly is what a failing write of hits has stored. l and e tell which attempt of the protocol it was.
     */
    method Sync(now: int, configured: bool, days: int, ghost alerts: set<Alert>, rounds: seq<Round>,
                reply: Option<Option<int>>, gapWrites: nat, writes: nat, partly: set<Alert>)
      returns (outcome: Outcome, ghost l: Local, ghost e: Ending, ghost seen: seq<Alert>, ghost bounds: seq<int>)
      requires Server(now, alerts, rounds) && days >= 1
      modifies this
      ensures !configured <==> outcome.NotConfigured?
      ensures outcome.Busy? <==> configured && old(running)
      ensures outcome.NotConfigured? || outcome.Busy? ==> Abs() == old(Abs()) && running == old(running)
      ensures outcome.Succeeded? || outcome.Failed? ==>
                && !running
                && Abs() == Attempted(old(Abs()), l, Answer(reply), e)
                && (outcome.Succeeded? <==> e.Completes?)
                && l.now == now && l.days == days
                && Faithful(alerts, old(Abs()), l, Answer(reply), e)
      ensures outcome.Succeeded? ==> WentThrough(old(Abs()), Abs(), l, Answer(reply))
      ensures outcome.Succeeded? || outcome.Failed? ==>
                e.FetchFails? ||
                (Ends(l, reply, gapWrites, writes, partly, e) && HasRead(l, rounds, seen, bounds))
      ensures old(Reachable(alerts, Abs())) && l.end <= now + OVERLAP_MS - 1000 ==> Reachable(alerts, Abs())
    {
      hide WentThrough, Ends, HasRead;
      l := Local(now, days, FetchFrom(now, days, syncedUntil), syncedUntil, lastAlertAt, now, NOTHING, {});
      e, seen, bounds := FetchFails, [], [];
      if !configured { return NotConfigured, l, e, seen, bounds; }
      if running { return Busy, l, e, seen, bounds; }
      running := true;
      outcome, l, e, seen, bounds := Guarded(now, days, alerts, rounds, reply, gapWrites, writes, partly);
      if outcome.Failed? { lastError := true; }
      running := false;
      if outcome.Succeeded? { CompletedIsSynced(alerts, old(Abs()), l, Answer(reply), e); }
      if old(Reachable(alerts, Abs())) && l.end <= now + OVERLAP_MS - 1000 {
        AttemptReaches(alerts, old(Abs()), l, Answer(reply), e);
      }
    }

    /** The gap check between fetching and storing. */
    method CheckGaps(now: int, from: int, before: Option<int>, lastAlert: Option<int>, fetched: Fetched,
                     reply: Option<Option<int>>, writes: nat, ghost l: Local)
      returns (failed: Option<Ending>)
      requires fetched.truncated ==> fetched.oldest.Some?
      requires l.now == now && l.from == from && l.before == before && l.lastAlertAt == lastAlert &&
                l.fetched == fetched
      modifies this`gapFrom, this`gapTo, this`gaps
      ensures Checked(old(Abs()), GapOf(l, Answer(reply)), failed)
      ensures CheckEnds(Asks(l), GapOf(l, Answer(reply)).Some?, reply, writes, failed)
    {
      hide Asked, IsLoss, DetectGap;
      failed := None;
      if before.Some? && lastAlert.Some? {
        LossIs(now, before.value, lastAlert.value, fetched.oldest, Answer(reply));
      }
      if fetched.truncated {
        failed := RecordGap(from, fetched.oldest.value, writes);
      } else if before.Some? && lastAlert.Some? && now - before.value > GAP_CHECK_AFTER_MS {
        failed := DetectAndRecordGap(now, before.value, lastAlert.value, fetched.oldest, reply, writes);
      }
    }

    /** The times are those of the alerts on the pages read, and the hits are the WAF alerts among them. */
    ghost predicate HasRead(l: Local, rounds: seq<Round>, seen: seq<Alert>, bounds: seq<int>) {
      && |bounds| <= |rounds| == 120 && ReadPages(l.now, l.from, rounds, bounds, seen, l.fetched)
      && l.hits == set a | a in seen && a.hit
    }

    /** The settings read and the alerts fetched; None: a request failed. */
    method FetchHits(now: int, days: int, ghost alerts: set<Alert>, rounds: seq<Round>)
      returns (fetched: Option<Fetched>, from: int, hits: set<Alert>, ghost l: Local, ghost seen: seq<Alert>,
        ghost bounds: seq<int>)
      requires Server(now, alerts, rounds)
      ensures l.now == now && l.days == days && l.before == syncedUntil && l.lastAlertAt == lastAlertAt
      ensures l.from == from == FetchFrom(now, days, syncedUntil) && now <= l.end && l.hits == hits
      ensures fetched.Some? ==> l.fetched == fetched.value && Honest(alerts, now, from, l.end, l.fetched, hits)
      ensures fetched.Some? ==> HasRead(l, rounds, seen, bounds)
      ensures fetched.Some? && fetched.value.truncated ==> fetched.value.oldest.Some?
    {
      hide Server, ReadPages;
      var retentionStart := now - days * DAY_MS;
      from := if syncedUntil.None? then retentionStart else Max(retentionStart, syncedUntil.value - OVERLAP_MS);
      var out, end;
      fetched, out, end, seen, bounds := Fetch(now, from, alerts, rounds);
      hits := set a | a in out;
      var found := if fetched.Some? then fetched.value else NOTHING;
      l := Local(now, days, from, syncedUntil, lastAlertAt, end, found, hits);
    }

    /** The guarded part of sync; what its handler does is left to the caller. */
    method Guarded(now: int, days: int, ghost alerts: set<Alert>, rounds: seq<Round>,
                   reply: Option<Option<int>>, gapWrites: nat, writes: nat, partly: set<Alert>)
      returns (outcome: Outcome, ghost l: Local, ghost e: Ending, ghost seen: seq<Alert>, ghost bounds: seq<int>)
      requires Server(now, alerts, rounds)
      modifies this
      ensures running == old(running) && (outcome.Succeeded? || outcome.Failed?)
      ensures Abs().(lastError := outcome.Failed?) ==
                Attempted(old(Abs()), l, Answer(reply), e)
      ensures outcome.Succeeded? <==> e.Completes?
      ensures outcome.Succeeded? ==> !lastError
      ensures l.now == now && l.days == days
      ensures Faithful(alerts, old(Abs()), l, Answer(reply), e)
      ensures e.FetchFails? ||
                (Ends(l, reply, gapWrites, writes, partly, e) && HasRead(l, rounds, seen, bounds))
    {
      hide Asks, IsGap, HasRead, Server, GapOf, Written, Honest, FetchFrom;
      var before, lastAlert := syncedUntil, lastAlertAt;
      var fetched, from, hits;
      fetched, from, hits, l, seen, bounds := FetchHits(now, days, alerts, rounds);
      if fetched.None? { return Failed, l, FetchFails, seen, bounds; }
      var failed := CheckGaps(now, from, before, lastAlert, fetched.value, reply, gapWrites, l);
      DueIs(l, Answer(reply));
      if failed.Some? { return Failed, l, failed.value, seen, bounds; }
      outcome, e := Writes(now, lastAlert, fetched.value.newest, hits, l, writes, partly);
    }

    /** The writes behind the gap check. */
    method Writes(now: int, lastAlert: Option<int>, newest: Option<int>, hits: set<Alert>, ghost l: Local, writes: nat,
      partly: set<Alert>)
      returns (outcome: Outcome, ghost e: Ending)
      requires l.now == now && l.lastAlertAt == lastAlert && l.fetched.newest == newest && l.hits == hits
      modifies this
      ensures running == old(running)
      ensures e == if writes > 3 then Completes else WriteFails(writes, partly * hits)
      ensures outcome == if writes > 3 then Succeeded else Failed
      ensures Abs().(lastError := outcome.Failed?) == Written(old(Abs()), l, e)
      ensures outcome.Succeeded? ==> !lastError
    {
      e := if writes > 3 then Completes else WriteFails(writes, partly * hits);
      outcome := Failed;
      if writes == 0 {
        stored := stored + partly * hits;
        return;
      }
      stored := stored + hits;
      if writes == 1 { return; }
      if newest.Some? && (lastAlert.None? || newest.value > lastAlert.value) { lastAlertAt := newest; }
      if writes == 2 { return; }
      syncs := syncs + [WafSync.Sync.Sync(syncedUntil, now, l.end, l.days)];
      syncedUntil := Some(now);
      if writes == 3 { return; }
      lastError := false;
      outcome := Succeeded;
    }

    /** cleanup; eventTime is the time of an alert's event, which may lack the alert's milliseconds. */
    method CleanUp(now: int, days: int, eventTime: Alert -> int, ghost alerts: set<Alert>)
      requires forall a: Alert :: a.time - 1000 < eventTime(a)
      modifies this`stored, this`cleaned
      ensures Abs() == CleanedUp(old(Abs()), now - days * DAY_MS,
                                 set a | a in old(stored) && eventTime(a) < now - days * DAY_MS)
      ensures running == old(running)
      ensures old(Reachable(alerts, Abs())) ==> Reachable(alerts, Abs())
    {
      var cutoff := now - days * DAY_MS;
      ghost var gone := set a | a in stored && eventTime(a) < cutoff;
      if cleaned.None? || cleaned.value <= cutoff { cleaned := Some(cutoff); }
      stored := set a | a in stored && eventTime(a) >= cutoff;
      assert stored == old(stored) - gone;
      if old(Reachable(alerts, Abs())) { CleanUpReaches(alerts, old(Abs()), cutoff, gone); }
    }
  }
}
