/** CrowdSecClient.deleteMatching: ids are collected page by page, then each is deleted once. */
module DecisionCleanup {
  import opened Text
  import opened Numbers

  const PAGE_SIZE: nat := 100
  const MAX_PAGES: nat := 100

  datatype Decision = Decision(id: Option<string>, scenario: string)

  /** matchDecisionIds by prefix: rows without an id are passed over. */
  function MatchIds(rows: seq<Decision>, prefix: string): seq<string> {
    if rows == [] then []
    else
      var r := rows[|rows| - 1];
      MatchIds(rows[..|rows| - 1], prefix) +
      if r.id.Some? && r.id.value != "" && prefix <= r.scenario then [r.id.value] else []
  }

  function ToSet(ids: seq<string>): set<string> {
    set id | id in ids
  }

  /** One answer of the list request: None if the body is no JSON array. */
  type Pages = nat -> Option<seq<Decision>>

  function Rows(page: Option<seq<Decision>>): seq<Decision> {
    if page.None? then [] else page.value
  }

  /** The paging loop from this page on. */
  function Collected(pages: Pages, page: nat, prefix: string, ids: seq<string>, seen: set<string>): seq<string>
    decreases MAX_PAGES - page
  {
    if page >= MAX_PAGES then ids
    else
      var rows := Rows(pages(page));
      var all := ToSet(MatchIds(rows, ""));
      var found := AddEach(ids, MatchIds(rows, prefix));
      if all <= seen || pages(page).None? || |rows| < PAGE_SIZE then found
      else Collected(pages, page + 1, prefix, found, seen + all)
  }

  method CollectIds(pages: Pages, prefix: string) returns (ids: seq<string>)
    ensures ids == Collected(pages, 0, prefix, [], {})
  {
    hide MatchIds, AddEach;
    ids := [];
    var seen: set<string> := {};
    var page := 0;
    while page < MAX_PAGES
      invariant Collected(pages, page, prefix, ids, seen) == Collected(pages, 0, prefix, [], {})
    {
      var body := pages(page);
      ids := AddEach(ids, MatchIds(Rows(body), prefix));
      var all := ToSet(MatchIds(Rows(body), ""));
      if all <= seen { break; }
      seen := seen + all;
      if body.None? || |body.value| < PAGE_SIZE { break; }
      page := page + 1;
    }
  }

  datatype Reply = Deleted | Refused | Aborts

  /** The places of the requests that were answered with success. */
  function Successes(requested: seq<string>, reply: string -> Reply): set<nat> {
    set k: nat | k < |requested| && reply(requested[k]).Deleted?
  }

  lemma SuccessesMore(ids: seq<string>, k: nat, reply: string -> Reply)
    requires k < |ids|
    ensures |Successes(ids[..k + 1], reply)| ==
            |Successes(ids[..k], reply)| + if reply(ids[k]).Deleted? then 1 else 0
  {
    var before, now := ids[..k], ids[..k + 1];
    assert now[k] == ids[k] && forall i :: 0 <= i < k ==> now[i] == before[i];
    assert Successes(now, reply) == Successes(before, reply) + if reply(ids[k]).Deleted? then {k} else {};
    assert k !in Successes(before, reply);
  }

  lemma NoSuccesses(reply: string -> Reply)
    ensures Successes([], reply) == {}
  {
  }

  /** The second loop: refused deletions are passed over, a lost connection or login ends it. */
  method DeleteAll(ids: seq<string>, reply: string -> Reply)
    returns (requested: seq<string>, deleted: nat, aborted: bool)
    ensures requested <= ids
    ensures !aborted ==> requested == ids && forall id | id in ids :: !reply(id).Aborts?
    ensures aborted ==> requested != [] && reply(requested[|requested| - 1]).Aborts?
    ensures deleted == |Successes(requested, reply)|
  {
    hide Successes;
    requested, deleted, aborted := [], 0, false;
    NoSuccesses(reply);
    assert ids[..0] == [];
    for k := 0 to |ids|
      invariant requested == ids[..k] && deleted == |Successes(ids[..k], reply)|
      invariant forall id | id in ids[..k] :: !reply(id).Aborts?
    {
      assert ids[..k + 1] == ids[..k] + [ids[k]];
      SuccessesMore(ids, k, reply);
      requested := requested + [ids[k]];
      match reply(ids[k])
      case Deleted => deleted := deleted + 1;
      case Refused =>
      case Aborts =>
        aborted := true;
        return;
    }
    assert ids[..|ids|] == ids;
  }

  /** deleteMatching: collect first, then delete, so that deleting moves no page. */
  method DeleteMatching(pages: Pages, prefix: string, reply: string -> Reply)
    returns (requested: seq<string>, deleted: nat, aborted: bool)
    ensures requested <= Collected(pages, 0, prefix, [], {})
    ensures !aborted ==> requested == Collected(pages, 0, prefix, [], {})
    ensures aborted ==> requested != [] && reply(requested[|requested| - 1]).Aborts?
    ensures !aborted ==> forall id | id in requested :: !reply(id).Aborts?
    ensures deleted == |Successes(requested, reply)|
  {
    var ids := CollectIds(pages, prefix);
    requested, deleted, aborted := DeleteAll(ids, reply);
  }

  // ----- which ids are collected -----

  predicate Distinct(rows: seq<Decision>) {
    && (forall r | r in rows :: r.id.Some? && r.id.value != "")
    && (forall j, k :: 0 <= j < k < |rows| ==> rows[j].id != rows[k].id)
  }

  lemma {:induction false} MatchConcat(a: seq<Decision>, b: seq<Decision>, prefix: string)
    ensures MatchIds(a + b, prefix) == MatchIds(a, prefix) + MatchIds(b, prefix)
  {
    hide MatchIds;
    if b == [] {
      assert a + b == a;
      MatchNone(prefix);
    } else {
      var init, last := b[..|b| - 1], b[|b| - 1];
      MatchConcat(a, init, prefix);
      MatchOneMore(a + init, last, prefix);
      MatchOneMore(init, last, prefix);
      assert a + b == a + init + [last] && b == init + [last];
    }
  }

  lemma MatchNone(prefix: string)
    ensures MatchIds([], prefix) == []
  {
  }

  lemma MatchOneMore(rows: seq<Decision>, r: Decision, prefix: string)
    ensures MatchIds(rows + [r], prefix)
         == MatchIds(rows, prefix) + if r.id.Some? && r.id.value != "" && prefix <= r.scenario then [r.id.value] else []
  {
    assert (rows + [r])[..|rows|] == rows;
  }

  lemma {:induction false} MatchedAre(rows: seq<Decision>, prefix: string, id: string)
    ensures id in MatchIds(rows, prefix) <==>
              exists r :: r in rows && r.id == Some(id) && id != "" && prefix <= r.scenario
  {
    hide MatchIds;
    if rows == [] {
      MatchNone(prefix);
    } else {
      var init, last := rows[..|rows| - 1], rows[|rows| - 1];
      MatchedAre(init, prefix, id);
      MatchOneMore(init, last, prefix);
      assert rows == init + [last];
    }
  }

  /** Nothing in the second list is in the first, nor twice in itself. */
  predicate AllNew(ids: seq<string>, more: seq<string>) {
    && (forall x | x in more :: x !in ids)
    && (forall j, k :: 0 <= j < k < |more| ==> more[j] != more[k])
  }

  lemma {:induction false} AddFresh(ids: seq<string>, more: seq<string>)
    requires AllNew(ids, more)
    ensures AddEach(ids, more) == ids + more
  {
    if more == [] {
      assert ids + more == ids;
    } else {
      var init, last := more[..|more| - 1], more[|more| - 1];
      assert forall x :: x in init ==> x in more;
      AddFresh(ids, init);
      assert last in more && last !in init;
      assert ids + init + [last] == ids + more;
    }
  }

  lemma {:induction false} AddOld(ids: seq<string>, more: seq<string>)
    requires forall x | x in more :: x in ids
    ensures AddEach(ids, more) == ids
  {
    if more != [] {
      assert more[|more| - 1] in more && forall x :: x in more[..|more| - 1] ==> x in more;
      AddOld(ids, more[..|more| - 1]);
    }
  }

  lemma {:induction false} MatchesApart(rows: seq<Decision>, prefix: string)
    requires Distinct(rows)
    ensures AllNew([], MatchIds(rows, prefix))
  {
    if rows != [] {
      var init, last := rows[..|rows| - 1], rows[|rows| - 1];
      assert rows == init + [last];
      assert forall r :: r in init ==> r in rows;
      MatchesApart(init, prefix);
      forall id | id in MatchIds(init, prefix) ensures Some(id) != last.id {
        MatchedAre(init, prefix, id);
        var r :| r in init && r.id == Some(id);
        var j :| 0 <= j < |init| && init[j] == r;
        assert rows[j].id != rows[|rows| - 1].id;
      }
    }
  }

  lemma SplitApart(a: seq<Decision>, b: seq<Decision>, prefix: string)
    requires Distinct(a + b)
    ensures AllNew(MatchIds(a, prefix), MatchIds(b, prefix))
  {
    MatchesApart(a + b, prefix);
    MatchConcat(a, b, prefix);
    var x, y := MatchIds(a, prefix), MatchIds(b, prefix);
    ConcatApart(x, y);
  }

  lemma ConcatApart(x: seq<string>, y: seq<string>)
    requires AllNew([], x + y)
    ensures AllNew(x, y)
  {
    var all := x + y;
    assert forall k :: 0 <= k < |y| ==> all[|x| + k] == y[k];
    forall k, j | 0 <= k < |y| && 0 <= j < |x| ensures y[k] != x[j] {
      assert all[j] == x[j] && all[|x| + k] == y[k];
    }
  }

  lemma IdsOfRows(rows: seq<Decision>)
    requires Distinct(rows)
    ensures rows != [] ==> MatchIds(rows, "") != []
  {
    if rows != [] {
      assert rows[0] in rows && "" <= rows[0].scenario;
      MatchedAre(rows, "", rows[0].id.value);
    }
  }

  /** A server that honours limit and offset. */
  ghost predicate Paged(pages: Pages, list: seq<Decision>) {
    forall k: nat :: pages(k) == Some(list[Least(PAGE_SIZE * k, |list|)..Least(PAGE_SIZE * k + PAGE_SIZE, |list|)])
  }

  lemma {:induction false} PagedFrom(pages: Pages, list: seq<Decision>, page: nat, prefix: string)
    requires Paged(pages, list) && Distinct(list) && page <= MAX_PAGES && PAGE_SIZE * page <= |list|
    ensures var done := list[..PAGE_SIZE * page];
            Collected(pages, page, prefix, MatchIds(done, prefix), ToSet(MatchIds(done, ""))) ==
            MatchIds(list[..Least(|list|, PAGE_SIZE * MAX_PAGES)], prefix)
    decreases MAX_PAGES - page
  {
    hide MatchIds, AddEach, Distinct, Paged;
    var from := PAGE_SIZE * page;
    var to := Least(from + PAGE_SIZE, |list|);
    var done, rows := list[..from], list[from..to];
    if page < MAX_PAGES {
      PageIs(pages, list, page);
      assert list[..to] == done + rows;
      PrefixDistinct(list, to);
      OnePage(done, rows, prefix);
      if |rows| == PAGE_SIZE {
        PagedFrom(pages, list, page + 1, prefix);
      }
    }
  }

  lemma PageIs(pages: Pages, list: seq<Decision>, page: nat)
    requires Paged(pages, list) && PAGE_SIZE * page <= |list|
    ensures pages(page) == Some(list[PAGE_SIZE * page..Least(PAGE_SIZE * page + PAGE_SIZE, |list|)])
  {
  }

  lemma PrefixDistinct(list: seq<Decision>, n: nat)
    requires Distinct(list) && n <= |list|
    ensures Distinct(list[..n])
  {
    assert forall r :: r in list[..n] ==> r in list;
  }

  /** What one page of new rows adds. */
  lemma OnePage(done: seq<Decision>, rows: seq<Decision>, prefix: string)
    requires Distinct(done + rows)
    ensures AddEach(MatchIds(done, prefix), MatchIds(rows, prefix)) == MatchIds(done + rows, prefix)
    ensures ToSet(MatchIds(done, "")) + ToSet(MatchIds(rows, "")) == ToSet(MatchIds(done + rows, ""))
    ensures ToSet(MatchIds(rows, "")) <= ToSet(MatchIds(done, "")) <==> rows == []
  {
    hide MatchIds, AddEach, Distinct;
    SplitApart(done, rows, prefix);
    SplitApart(done, rows, "");
    AddFresh(MatchIds(done, prefix), MatchIds(rows, prefix));
    MatchConcat(done, rows, prefix);
    MatchConcat(done, rows, "");
    SuffixDistinct(done, rows);
    IdsOfRows(rows);
    var all := MatchIds(rows, "");
    if rows != [] {
      assert all[0] in all && all[0] in ToSet(all);
    } else {
      NoMatches("");
    }
  }

  lemma NoMatches(prefix: string)
    ensures MatchIds([], prefix) == []
  {
  }

  lemma SuffixDistinct(done: seq<Decision>, rows: seq<Decision>)
    requires Distinct(done + rows)
    ensures Distinct(rows)
  {
    var all := done + rows;
    assert forall k :: 0 <= k < |rows| ==> rows[k] == all[|done| + k];
    assert forall r :: r in rows ==> r in all;
  }

  /** With paging, the matching rows among the first ten thousand are collected, each once and in order. */
  lemma PagedIsExact(pages: Pages, list: seq<Decision>, prefix: string)
    requires Paged(pages, list) && Distinct(list)
    ensures Collected(pages, 0, prefix, [], {}) == MatchIds(list[..Least(|list|, PAGE_SIZE * MAX_PAGES)], prefix)
    ensures AllNew([], Collected(pages, 0, prefix, [], {}))
  {
    assert list[..0] == [] && ToSet([]) == {};
    PagedFrom(pages, list, 0, prefix);
    PrefixDistinct(list, Least(|list|, PAGE_SIZE * MAX_PAGES));
    MatchesApart(list[..Least(|list|, PAGE_SIZE * MAX_PAGES)], prefix);
  }

  /** So every matching row is collected exactly if none stands behind the ten thousandth. */
  lemma PagedIsComplete(pages: Pages, list: seq<Decision>, prefix: string)
    requires Paged(pages, list) && Distinct(list)
    ensures (forall r | r in list && prefix <= r.scenario :: r.id.value in Collected(pages, 0, prefix, [], {})) <==>
            forall k | PAGE_SIZE * MAX_PAGES <= k < |list| :: !(prefix <= list[k].scenario)
  {
    hide Collected, MatchIds;
    PagedIsExact(pages, list, prefix);
    var n := Least(|list|, PAGE_SIZE * MAX_PAGES);
    assert forall k | 0 <= k < |list| :: list[k] in list;
    forall k | 0 <= k < |list| && prefix <= list[k].scenario
      ensures list[k].id.value in MatchIds(list[..n], prefix) <==> k < n
    {
      InFront(list, n, k, prefix);
    }
    forall r | r in list && prefix <= r.scenario ensures exists k :: 0 <= k < |list| && list[k] == r {
    }
    assert forall k | n <= k < |list| :: list[k] in list;
  }

  lemma InFront(list: seq<Decision>, n: nat, k: nat, prefix: string)
    requires Distinct(list) && n <= |list| && k < |list| && prefix <= list[k].scenario
    ensures list[k].id.Some? && (list[k].id.value in MatchIds(list[..n], prefix) <==> k < n)
  {
    hide MatchIds;
    assert list[k] in list;
    MatchedAre(list[..n], prefix, list[k].id.value);
    if k < n { assert list[..n][k] in list[..n]; }
  }

  /** A server that repeats its whole list. */
  ghost predicate Repeating(pages: Pages, list: seq<Decision>) {
    forall k: nat :: pages(k) == Some(list)
  }

  /** Without paging, all matching rows are collected after at most two requests, however many there are. */
  lemma RepeatingIsExact(pages: Pages, list: seq<Decision>, prefix: string)
    requires Repeating(pages, list) && Distinct(list)
    ensures Collected(pages, 0, prefix, [], {}) == MatchIds(list, prefix)
    ensures AllNew([], Collected(pages, 0, prefix, [], {}))
  {
    hide MatchIds, AddEach, Distinct;
    var all, found := ToSet(MatchIds(list, "")), MatchIds(list, prefix);
    assert pages(0) == Some(list) && pages(1) == Some(list);
    MatchesApart(list, prefix);
    AddFresh([], found);
    assert [] + found == found && {} + all == all;
    AddOld(found, found);
    assert Collected(pages, 1, prefix, found, all) == found;
  }
}
