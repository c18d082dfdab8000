/** WafEventSyncService.fetch: reading every alert since a time from a server that answers newest first, in pages. */
module WafFetch {
  import opened Text

  const PAGE_SIZE: nat := 500
  const MAX_PAGES: nat := 120

  /** An alert; hit: it parses as a WAF event; gone: from this time on the server no longer holds it. */
  datatype Alert = Alert(id: string, time: int, hit: bool, gone: int)

  function EpochSecond(t: int): int {
    t / 1000
  }

  function Max(a: int, b: int): int {
    if a >= b then a else b
  }

  function CeilSeconds(ms: int): (s: int)
    ensures s >= 1 && s * 1000 >= ms
  {
    Max(1, (ms + 999) / 1000)
  }

  // ----- the server -----

  /**
   * One request: the client's clock when it was sent, the server's when it arrived, the order in which the
   * server lists its alerts, and whether it answered at all.
   */
  datatype Round = Round(clock: int, arrival: int, listing: seq<Alert>, answered: bool)

  predicate NewestFirst(listing: seq<Alert>) {
    forall i, j | 0 <= i < j < |listing| :: listing[i].time >= listing[j].time
  }

  /** The server lists just these alerts, newest first, and is asked no earlier than `after`. */
  ghost predicate RoundOk(alerts: set<Alert>, after: int, r: Round) {
    NewestFirst(r.listing) && (forall a :: a in r.listing <==> a in alerts) && after <= r.clock <= r.arrival
  }

  /** Time passes from request to request. */
  ghost predicate Server(now: int, alerts: set<Alert>, rounds: seq<Round>) {
    && |rounds| == MAX_PAGES
    && forall k | 0 <= k < |rounds| :: RoundOk(alerts, ArrivalBefore(now, rounds, k), rounds[k])
  }

  function ArrivalBefore(now: int, rounds: seq<Round>, k: nat): int
    requires k <= |rounds|
  {
    if k == 0 then now else rounds[k - 1].arrival
  }

  /** The alert exists at this time and lies between the bounds, given in seconds before it. */
  predicate Matches(a: Alert, at: int, since: int, until: Option<int>) {
    && a.time <= at < a.gone
    && at - since * 1000 <= a.time
    && (until.Some? ==> a.time <= at - until.value * 1000)
  }

  function Matching(listing: seq<Alert>, at: int, since: int, until: Option<int>): (r: seq<Alert>)
    ensures forall a :: a in r <==> a in listing && Matches(a, at, since, until)
  {
    if listing == [] then []
    else
      assert listing == [listing[0]] + listing[1..];
      var rest := Matching(listing[1..], at, since, until);
      if Matches(listing[0], at, since, until) then [listing[0]] + rest else rest
  }

  lemma {:induction false} MatchingKeepsOrder(listing: seq<Alert>, at: int, since: int, until: Option<int>)
    requires NewestFirst(listing)
    ensures NewestFirst(Matching(listing, at, since, until))
  {
    hide Matches;
    if listing != [] {
      var rest := Matching(listing[1..], at, since, until);
      MatchingKeepsOrder(listing[1..], at, since, until);
      forall a | a in rest ensures a.time <= listing[0].time {
        var k :| 0 <= k < |listing[1..]| && listing[1..][k] == a;
        assert listing[k + 1] == a;
      }
    }
  }

  /** GET /v1/alerts: the newest matching alerts, at most `limit` of them. */
  function Page(listing: seq<Alert>, at: int, since: int, until: Option<int>, limit: nat): (r: seq<Alert>)
    ensures |r| <= limit
    ensures forall a :: a in r ==> a in listing && Matches(a, at, since, until)
  {
    var all := Matching(listing, at, since, until);
    if |all| <= limit then all else all[..limit]
  }

  /** The smaller and the larger of two times, either of which may be missing. */
  function Earlier(a: Option<int>, b: Option<int>): Option<int> {
    if b.Some? && (a.None? || b.value < a.value) then b else a
  }

  function Later(a: Option<int>, b: Option<int>): Option<int> {
    if b.Some? && (a.None? || b.value > a.value) then b else a
  }

  function Oldest(page: seq<Alert>): Option<int> {
    if page == [] then None else Earlier(Some(page[0].time), Oldest(page[1..]))
  }

  function Newest(page: seq<Alert>): Option<int> {
    if page == [] then None else Later(Some(page[0].time), Newest(page[1..]))
  }

  lemma {:induction false} ExtremesAre(page: seq<Alert>)
    requires page != []
    ensures Oldest(page).Some? && Newest(page).Some?
    ensures forall a :: a in page ==> Oldest(page).value <= a.time <= Newest(page).value
    ensures exists a :: a in page && a.time == Oldest(page).value
    ensures exists a :: a in page && a.time == Newest(page).value
  {
    assert page == [page[0]] + page[1..];
    if page[1..] != [] {
      ExtremesAre(page[1..]);
    } else {
      assert page[0].time == Oldest(page).value == Newest(page).value;
    }
  }

  function Hits(page: seq<Alert>): (r: seq<Alert>)
    ensures forall a :: a in r <==> a in page && a.hit
  {
    if page == [] then []
    else
      assert page == [page[0]] + page[1..];
      if page[0].hit then [page[0]] + Hits(page[1..]) else Hits(page[1..])
  }

  lemma {:induction false} HitsConcat(a: seq<Alert>, b: seq<Alert>)
    ensures Hits(a + b) == Hits(a) + Hits(b)
  {
    if a == [] {
      assert a + b == b;
    } else {
      assert (a + b)[1..] == a[1..] + b;
      HitsConcat(a[1..], b);
    }
  }

  lemma {:induction false} ExtremesConcat(a: seq<Alert>, b: seq<Alert>)
    ensures Oldest(a + b) == Earlier(Oldest(a), Oldest(b))
    ensures Newest(a + b) == Later(Newest(a), Newest(b))
  {
    if a == [] {
      assert a + b == b;
    } else {
      assert (a + b)[1..] == a[1..] + b;
      ExtremesConcat(a[1..], b);
    }
  }

  /** A matching alert that is not on the page is no newer than the oldest alert on it, and the page is full. */
  lemma PageOrder(listing: seq<Alert>, at: int, since: int, until: Option<int>, limit: nat, a: Alert)
    requires NewestFirst(listing) && a in listing && Matches(a, at, since, until) && limit > 0
    ensures var page := Page(listing, at, since, until, limit);
            a in page || (|page| == limit && a.time <= Oldest(page).value)
  {
    var all := Matching(listing, at, since, until);
    var page := Page(listing, at, since, until, limit);
    MatchingKeepsOrder(listing, at, since, until);
    hide Matches, Matching;
    if a !in page {
      ExtremesAre(page);
      var i :| 0 <= i < |all| && all[i] == a;
      assert i >= limit;
      var b :| b in page && b.time == Oldest(page).value;
      var j :| 0 <= j < |page| && page[j] == b;
      assert all[j] == b && j < i;
    }
  }

  // ----- the client -----

  datatype Fetched = Fetched(oldest: Option<int>, newest: Option<int>, truncated: bool)

  /**
   * What a fetch that ended at time `end` must account for: WAF alerts in its window, allowing for the time
   * the fetch took, at least a second old when it started, and held by the server until it ended.
   */
  predicate Owed(a: Alert, now: int, from: int, end: int) {
    a.hit && from + (end - now) <= a.time <= now - 1000 && end < a.gone
  }

  /** Complete, or honest about what may be missing. */
  predicate Honest(alerts: set<Alert>, now: int, from: int, end: int, f: Fetched, out: set<Alert>) {
    && (f.truncated ==> f.oldest.Some?)
    && (forall a | a in out :: a in alerts && a.hit)
    && (forall a | a in alerts && Owed(a, now, from, end) ::
          a in out || (f.truncated && from <= a.time <= f.oldest.value))
  }

  /** The bounds of one request admit everything owed that is not newer than the last page's oldest alert. */
  lemma BoundsAdmit(a: Alert, now: int, from: int, boundary: Option<int>, r: Round, end: int)
    requires now <= r.clock <= r.arrival <= end && Owed(a, now, from, end)
    requires boundary.Some? ==> a.time <= boundary.value
    ensures Matches(a, r.arrival, CeilSeconds(now - from), UntilFor(r.clock, boundary))
  {
  }

  /** The parameters of the request for the next page. */
  function UntilFor(clock: int, boundary: Option<int>): Option<int> {
    if boundary.None? then None else Some(Max(1, (clock - boundary.value) / 1000))
  }

  /** What is owed at this time has been seen, or is no newer than the bound. */
  predicate Accounted(alerts: set<Alert>, now: int, from: int, end: int, seen: seq<Alert>, bound: Option<int>) {
    forall a | a in alerts && Owed(a, now, from, end) :: a in seen || (bound.Some? && a.time <= bound.value)
  }

  lemma RoundAccounts(alerts: set<Alert>, now: int, from: int, seen: seq<Alert>, boundary: Option<int>, r: Round,
    end: int)
    requires RoundOk(alerts, end, r) && now <= end
    requires boundary.None? || Accounted(alerts, now, from, end, seen, boundary)
    ensures var batch := Page(r.listing, r.arrival, CeilSeconds(now - from), UntilFor(r.clock, boundary), PAGE_SIZE);
            && (forall a | a in batch :: a in alerts)
            && Accounted(alerts, now, from, r.arrival, seen + batch, Oldest(batch))
            && (boundary.Some? ==> Accounted(alerts, now, from, r.arrival, seen + batch, boundary))
            && (|batch| < PAGE_SIZE ==> Accounted(alerts, now, from, r.arrival, seen + batch, None))
  {
    var since, until := CeilSeconds(now - from), UntilFor(r.clock, boundary);
    var batch := Page(r.listing, r.arrival, since, until, PAGE_SIZE);
    forall a | a in alerts && Owed(a, now, from, r.arrival)
      ensures a in seen || a in batch ||
                (|batch| == PAGE_SIZE && a.time <= Oldest(batch).value && (boundary.Some? ==> a.time <= boundary.value))
    {
      if a !in seen {
        assert Owed(a, now, from, end);
        BoundsAdmit(a, now, from, boundary, r, r.arrival);
        PageOrder(r.listing, r.arrival, since, until, PAGE_SIZE, a);
      }
    }
  }

  lemma AccountedIsHonest(alerts: set<Alert>, now: int, from: int, end: int, seen: seq<Alert>, bound: Option<int>,
    f: Fetched)
    requires now <= end && Accounted(alerts, now, from, end, seen, bound) && forall a | a in seen :: a in alerts
    requires bound.Some? ==> f.truncated && f.oldest == bound
    requires f.truncated ==> f.oldest.Some?
    ensures Honest(alerts, now, from, end, f, set a | a in Hits(seen))
  {
  }

  /** What has been read so far and what was kept of it. */
  predicate Read(seen: seq<Alert>, out: seq<Alert>, oldest: Option<int>, newest: Option<int>) {
    out == Hits(seen) && oldest == Oldest(seen) && newest == Newest(seen)
  }

  lemma ReadMore(seen: seq<Alert>, out: seq<Alert>, oldest: Option<int>, newest: Option<int>, batch: seq<Alert>)
    requires Read(seen, out, oldest, newest)
    ensures Read(seen + batch, out + Hits(batch), Earlier(oldest, Oldest(batch)), Later(newest, Newest(batch)))
    ensures batch != [] ==> Oldest(batch).Some?
  {
    HitsConcat(seen, batch);
    ExtremesConcat(seen, batch);
  }

  /** The page boundaries strictly decrease in whole seconds. */
  predicate Descending(bounds: seq<int>) {
    forall i, j | 0 <= i < j < |bounds| :: EpochSecond(bounds[j]) < EpochSecond(bounds[i])
  }

  lemma DescendingMore(bounds: seq<int>, b: int)
    requires Descending(bounds) && (bounds != [] ==> EpochSecond(b) < EpochSecond(bounds[|bounds| - 1]))
    ensures Descending(bounds + [b])
  {
  }

  /** The loop's variables. */
  datatype Cursor = Cursor(boundary: Option<int>, oldest: Option<int>, newest: Option<int>, out: seq<Alert>, end: int)

  /** Between pages: everything seen is kept, and what is owed but not seen is no newer than the boundary. */
  predicate Between(now: int, from: int, alerts: set<Alert>, c: Cursor, seen: seq<Alert>) {
    && now <= c.end && c.boundary == c.oldest
    && Read(seen, c.out, c.oldest, c.newest)
    && (forall a | a in seen :: a in alerts)
    && (c.boundary.Some? ==> Accounted(alerts, now, from, c.end, seen, c.boundary))
  }

  lemma BetweenStart(now: int, from: int, alerts: set<Alert>)
    ensures Between(now, from, alerts, Cursor(None, None, None, [], now), [])
  {
  }

  /** The page a request gets, at most 500 alerts. */
  function PageAt(now: int, from: int, round: Round, boundary: Option<int>): seq<Alert> {
    Page(round.listing, round.arrival, CeilSeconds(now - from), UntilFor(round.clock, boundary), 500)
  }

  /** The boundary the request for page k is made with. */
  function BoundBefore(bounds: seq<int>, k: nat): Option<int>
    requires k <= |bounds|
  {
    if k == 0 then None else Some(bounds[k - 1])
  }

  /** The first n pages, one behind the other. */
  function PagesTo(now: int, from: int, rounds: seq<Round>, bounds: seq<int>, n: nat): seq<Alert>
    requires n <= |rounds| && n <= |bounds| + 1
  {
    if n == 0 then []
    else PagesTo(now, from, rounds, bounds, n - 1) + PageAt(now, from, rounds[n - 1], BoundBefore(bounds, n - 1))
  }

  /** The pages behind these bounds were full, and each bound is the time of the oldest alert on its page. */
  predicate FullPages(now: int, from: int, rounds: seq<Round>, bounds: seq<int>)
    requires |bounds| <= |rounds|
  {
    forall k | 0 <= k < |bounds| ::
      var page := PageAt(now, from, rounds[k], BoundBefore(bounds, k));
      |page| == 500 && Oldest(page) == Some(bounds[k])
  }

  /**
   * What was read: after 120 full pages, or with a full page that does not get behind the second of the last bound,
   * there is more; after a page that is not full there is not.
   */
  ghost predicate ReadPages(now: int, from: int, rounds: seq<Round>, bounds: seq<int>, seen: seq<Alert>, f: Fetched)
    requires |bounds| <= |rounds| == 120
  {
    && FullPages(now, from, rounds, bounds) && f.oldest == Oldest(seen) && f.newest == Newest(seen)
    && if |bounds| == 120 then f.truncated && seen == PagesTo(now, from, rounds, bounds, 120)
       else
         var page := PageAt(now, from, rounds[|bounds|], BoundBefore(bounds, |bounds|));
         && seen == PagesTo(now, from, rounds, bounds, |bounds| + 1)
         && if f.truncated
            then |page| == 500 && bounds != [] && Oldest(page).Some? &&
                 EpochSecond(Oldest(page).value) >= EpochSecond(bounds[|bounds| - 1])
            else |page| < 500
  }

  lemma {:induction false} PagesMore(now: int, from: int, rounds: seq<Round>, bounds: seq<int>, b: int, n: nat)
    requires n <= |bounds| + 1 && n <= |rounds|
    ensures PagesTo(now, from, rounds, bounds + [b], n) == PagesTo(now, from, rounds, bounds, n)
  {
    hide PageAt;
    if n > 0 { PagesMore(now, from, rounds, bounds, b, n - 1); }
  }

  lemma FullPagesMore(now: int, from: int, rounds: seq<Round>, bounds: seq<int>, b: int)
    requires |bounds| < |rounds| && FullPages(now, from, rounds, bounds)
    requires var page := PageAt(now, from, rounds[|bounds|], BoundBefore(bounds, |bounds|));
             |page| == 500 && Oldest(page) == Some(b)
    ensures FullPages(now, from, rounds, bounds + [b])
  {
    hide PageAt, Oldest;
    var more := bounds + [b];
    forall k | 0 <= k < |more|
      ensures var page := PageAt(now, from, rounds[k], BoundBefore(more, k));
              |page| == 500 && Oldest(page) == Some(more[k])
    {
      assert BoundBefore(more, k) == BoundBefore(bounds, k);
    }
  }

  lemma NoPages(now: int, from: int, rounds: seq<Round>)
    ensures PagesTo(now, from, rounds, [], 0) == [] && FullPages(now, from, rounds, [])
  {
  }

  lemma PagesNext(now: int, from: int, rounds: seq<Round>, bounds: seq<int>, n: nat)
    requires n < |rounds| && n <= |bounds|
    ensures PagesTo(now, from, rounds, bounds, n + 1) ==
            PagesTo(now, from, rounds, bounds, n) + PageAt(now, from, rounds[n], BoundBefore(bounds, n))
  {
    hide PageAt;
  }

  datatype PageOutcome = More | Last | Stuck | NoAnswer

  /** One request and its answer: bounds are chosen so that nothing owed falls between two pages. */
  method RequestPage(now: int, from: int, ghost alerts: set<Alert>, round: Round, boundary: Option<int>,
                     ghost end: int, ghost seen: seq<Alert>)
    returns (batch: seq<Alert>)
    requires RoundOk(alerts, end, round) && now <= end
    requires boundary.None? || Accounted(alerts, now, from, end, seen, boundary)
    ensures batch ==
              Page(round.listing, round.arrival, CeilSeconds(now - from), UntilFor(round.clock, boundary), PAGE_SIZE)
    ensures forall a | a in batch :: a in alerts
    ensures Accounted(alerts, now, from, round.arrival, seen + batch, Oldest(batch))
    ensures boundary.Some? ==> Accounted(alerts, now, from, round.arrival, seen + batch, boundary)
    ensures |batch| < PAGE_SIZE ==> Accounted(alerts, now, from, round.arrival, seen + batch, None)
  {
    hide Accounted, RoundOk, Matching, Matches, Page, Oldest, CeilSeconds;
    var since := CeilSeconds(now - from);
    var until := if boundary.None? then None else Some(Max(1, (round.clock - boundary.value) / 1000));
    RoundAccounts(alerts, now, from, seen, boundary, round, end);
    batch := Page(round.listing, round.arrival, since, until, PAGE_SIZE);
  }

  /** The body of the loop. */
  method TakePage(now: int, from: int, ghost alerts: set<Alert>, round: Round, c: Cursor, ghost seen: seq<Alert>)
    returns (outcome: PageOutcome, next: Cursor, ghost more: seq<Alert>)
    requires RoundOk(alerts, c.end, round) && Between(now, from, alerts, c, seen)
    ensures outcome.NoAnswer? <==> !round.answered
    ensures next.end == round.arrival && more == seen + PageAt(now, from, round, c.boundary)
    ensures var page := PageAt(now, from, round, c.boundary);
            match outcome
            case NoAnswer => true
            case Last => |page| < 500
            case Stuck =>
              |page| == 500 && c.boundary.Some? && Oldest(page).Some? &&
              EpochSecond(Oldest(page).value) >= EpochSecond(c.boundary.value)
            case More => |page| == 500 && next.boundary == Oldest(page)
    ensures !outcome.NoAnswer? ==> Read(more, next.out, next.oldest, next.newest) && forall a | a in more :: a in alerts
    ensures outcome.More? ==> next.boundary.Some? && Between(now, from, alerts, next, more)
    ensures outcome.More? && c.boundary.Some? ==> EpochSecond(next.boundary.value) < EpochSecond(c.boundary.value)
    ensures outcome.Last? ==> Accounted(alerts, now, from, next.end, more, None)
    ensures outcome.Stuck? ==> next.oldest.Some? && Accounted(alerts, now, from, next.end, more, next.oldest)
  {
    var batch := RequestPage(now, from, alerts, round, c.boundary, c.end, seen);
    ReadMore(seen, c.out, c.oldest, c.newest, batch);
    more := seen + batch;
    next := c.(end := round.arrival);
    if !round.answered { return NoAnswer, next, more; }
    var oldest := Oldest(batch);
    next := next.(out := c.out + Hits(batch), oldest := Earlier(c.oldest, oldest),
                  newest := Later(c.newest, Newest(batch)));
    if |batch| < PAGE_SIZE || oldest.None? { return Last, next, more; }
    if c.boundary.Some? && EpochSecond(oldest.value) >= EpochSecond(c.boundary.value) { return Stuck, next, more; }
    next := next.(boundary := oldest);
    outcome := More;
  }

  /**
   * fetch, with the answers it gets as input. None: a request failed. end is the arrival of the last
   * request; seen, everything received; bounds, the page boundaries in the order they were used.
   */
  method Fetch(now: int, from: int, ghost alerts: set<Alert>, rounds: seq<Round>)
    returns (r: Option<Fetched>, out: seq<Alert>, end: int, ghost seen: seq<Alert>, ghost bounds: seq<int>)
    requires Server(now, alerts, rounds)
    ensures now <= end
    ensures r.Some? ==> Honest(alerts, now, from, end, r.value, set a | a in out)
    ensures r.Some? ==> Read(seen, out, r.value.oldest, r.value.newest)
    ensures |bounds| <= |rounds| == 120
    ensures r.Some? ==> ReadPages(now, from, rounds, bounds, seen, r.value)
    ensures r.None? ==> exists k | 0 <= k < |rounds| :: !rounds[k].answered
    ensures |bounds| <= MAX_PAGES && Descending(bounds)
  {
    hide Honest, Accounted, NewestFirst, Hits, Oldest, Newest, PageAt, PagesTo, FullPages;
    var c := Cursor(None, None, None, [], now);
    seen := [];
    bounds := [];
    BetweenStart(now, from, alerts);
    NoPages(now, from, rounds);
    var page := 0;
    while page < MAX_PAGES
      invariant page <= MAX_PAGES && |bounds| == page && Descending(bounds)
      invariant c.boundary == if page == 0 then None else Some(bounds[page - 1])
      invariant FullPages(now, from, rounds, bounds) && seen == PagesTo(now, from, rounds, bounds, page)
      invariant c.end == ArrivalBefore(now, rounds, page) && Between(now, from, alerts, c, seen)
    {
      var outcome, next;
      PagesNext(now, from, rounds, bounds, page);
      outcome, next, seen := TakePage(now, from, alerts, rounds[page], c, seen);
      out, end := next.out, next.end;
      match outcome
      case NoAnswer =>
        return None, out, end, seen, bounds;
      case Last =>
        r := Some(Fetched(next.oldest, next.newest, false));
        AccountedIsHonest(alerts, now, from, end, seen, None, r.value);
        return;
      case Stuck =>
        r := Some(Fetched(next.oldest, next.newest, true));
        AccountedIsHonest(alerts, now, from, end, seen, next.oldest, r.value);
        return;
      case More =>
        DescendingMore(bounds, next.boundary.value);
        PagesMore(now, from, rounds, bounds, next.boundary.value, page + 1);
        FullPagesMore(now, from, rounds, bounds, next.boundary.value);
        bounds := bounds + [next.boundary.value];
        c := next;
        page := page + 1;
    }
    out, end := c.out, c.end;
    r := Some(Fetched(c.oldest, c.newest, true));
    AccountedIsHonest(alerts, now, from, end, seen, c.oldest, r.value);
  }
}
