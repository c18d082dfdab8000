/**
 * NginxDocService.editDistance: two rows instead of a table, and what the number means.
 *
 * The two rows hold a row of the table of the recursive definition. That definition is then shown to be the
 * least number of insertions, deletions and replacements that turn one text into the other: no chain of
 * edits is shorter, and one of that length exists.
 */
module EditDistance {
  import opened Numbers

  function Init(s: string): string
    requires s != ""
  {
    s[..|s| - 1]
  }

  function Last(s: string): char
    requires s != ""
  {
    s[|s| - 1]
  }

  /** The recurrence, on whole texts. */
  function Levenshtein(a: string, b: string): nat
    decreases |a| + |b|
  {
    if a == "" then |b|
    else if b == "" then |a|
    else
      Least(Least(Levenshtein(a, Init(b)) + 1, Levenshtein(Init(a), b) + 1),
          Levenshtein(Init(a), Init(b)) + if Last(a) == Last(b) then 0 else 1)
  }

  /** The cell for the first i and the first j characters. */
  function Cell(a: string, b: string, i: nat, j: nat): nat
    requires i <= |a| && j <= |b|
  {
    Levenshtein(a[..i], b[..j])
  }

  lemma CellStep(a: string, b: string, i: nat, j: nat)
    requires 0 < i <= |a| && 0 < j <= |b|
    ensures Cell(a, b, i, j) ==
            Least(Least(Cell(a, b, i, j - 1) + 1, Cell(a, b, i - 1, j) + 1),
                Cell(a, b, i - 1, j - 1) + if a[i - 1] == b[j - 1] then 0 else 1)
  {
    assert Init(a[..i]) == a[..i - 1] && Init(b[..j]) == b[..j - 1];
  }

  lemma CellEdge(a: string, b: string)
    ensures forall j | 0 <= j <= |b| :: Cell(a, b, 0, j) == j
    ensures forall i | 0 <= i <= |a| :: Cell(a, b, i, 0) == i
  {
  }

  /** editDistance: prev holds row i - 1 while cur is filled with row i; then the two are swapped. */
  method Distance(a: string, b: string) returns (d: nat)
    ensures d == Levenshtein(a, b)
  {
    hide Levenshtein, Cell;
    var prev := new nat[|b| + 1];
    var cur := new nat[|b| + 1];
    CellEdge(a, b);
    for j := 0 to |b| + 1
      invariant forall k | 0 <= k < j :: prev[k] == Cell(a, b, 0, k)
    {
      prev[j] := j;
    }
    for i := 1 to |a| + 1
      invariant prev != cur && prev.Length == cur.Length == |b| + 1 && fresh(prev) && fresh(cur)
      invariant forall k | 0 <= k <= |b| :: prev[k] == Cell(a, b, i - 1, k)
    {
      FillRow(a, b, i, prev, cur);
      var t := prev;
      prev := cur;
      cur := t;
    }
    d := prev[|b|];
    LastCell(a, b);
  }

  lemma LastCell(a: string, b: string)
    ensures Cell(a, b, |a|, |b|) == Levenshtein(a, b)
  {
    assert a[..|a|] == a && b[..|b|] == b;
  }

  method FillRow(a: string, b: string, i: nat, prev: array<nat>, cur: array<nat>)
    requires 0 < i <= |a| && prev != cur && prev.Length == cur.Length == |b| + 1
    requires forall k | 0 <= k <= |b| :: prev[k] == Cell(a, b, i - 1, k)
    modifies cur
    ensures forall k | 0 <= k <= |b| :: cur[k] == Cell(a, b, i, k)
  {
    hide Cell;
    CellEdge(a, b);
    cur[0] := i;
    for j := 1 to |b| + 1
      invariant forall k | 0 <= k < j :: cur[k] == Cell(a, b, i, k)
      invariant forall k | 0 <= k <= |b| :: prev[k] == Cell(a, b, i - 1, k)
    {
      var cost := if a[i - 1] == b[j - 1] then 0 else 1;
      CellStep(a, b, i, j);
      cur[j] := Least(Least(cur[j - 1] + 1, prev[j] + 1), prev[j - 1] + cost);
    }
  }

  // ----- the number of edits -----

  /** One character inserted, removed or replaced between p and q. */
  predicate EditAt(a: string, b: string, p: string, s: string, t: string, q: string) {
    |s| <= 1 && |t| <= 1 && a == p + s + q && b == p + t + q
  }

  ghost predicate OneEdit(a: string, b: string) {
    exists p, s, t, q :: EditAt(a, b, p, s, t, q)
  }

  /** At most n edits lead from a to b. */
  ghost predicate Within(a: string, b: string, n: nat)
    decreases n
  {
    a == b || (n > 0 && exists c :: OneEdit(a, c) && Within(c, b, n - 1))
  }

  lemma EditBehind(a: string, b: string, e: char)
    requires OneEdit(a, b)
    ensures OneEdit(a + [e], b + [e])
  {
    var p, s, t, q :| EditAt(a, b, p, s, t, q);
    assert EditAt(a + [e], b + [e], p, s, t, q + [e]);
  }

  lemma {:induction false} WithinBehind(a: string, b: string, n: nat, e: char)
    requires Within(a, b, n)
    ensures Within(a + [e], b + [e], n)
    decreases n
  {
    hide OneEdit;
    if a != b {
      var c :| OneEdit(a, c) && Within(c, b, n - 1);
      EditBehind(a, c, e);
      WithinBehind(c, b, n - 1, e);
    }
  }

  lemma {:induction false} WithinMore(a: string, b: string, c: string, m: nat, n: nat)
    requires Within(a, b, m) && Within(b, c, n)
    ensures Within(a, c, m + n)
    decreases m
  {
    hide OneEdit;
    if a != b {
      var x :| OneEdit(a, x) && Within(x, b, m - 1);
      WithinMore(x, b, c, m - 1, n);
    } else {
      WithinLonger(b, c, n, m + n);
    }
  }

  lemma {:induction false} WithinLonger(a: string, b: string, n: nat, m: nat)
    requires Within(a, b, n) && n <= m
    ensures Within(a, b, m)
    decreases n
  {
    hide OneEdit;
    if a != b {
      var c :| OneEdit(a, c) && Within(c, b, n - 1);
      WithinLonger(c, b, n - 1, m - 1);
    }
  }

  lemma EditsAtEnd(a: string, c: char, d: char)
    ensures OneEdit(a + [c], a) && OneEdit(a, a + [c]) && OneEdit(a + [c], a + [d])
  {
    assert EditAt(a + [c], a, a, [c], "", "");
    assert EditAt(a, a + [c], a, "", [c], "");
    assert EditAt(a + [c], a + [d], a, [c], [d], "");
  }

  lemma OneStep(a: string, b: string)
    requires OneEdit(a, b)
    ensures Within(a, b, 1)
  {
    hide OneEdit;
    assert Within(b, b, 0);
  }

  /** The distance is reached. */
  lemma {:induction false} DistanceReached(a: string, b: string)
    ensures Within(a, b, Levenshtein(a, b))
    decreases |a| + |b|
  {
    hide OneEdit, Within;
    if a != "" && b != "" {
      BothReached(a, b);
    } else if a != "" {
      DistanceReached(Init(a), b);
      RemoveLast(a, b, Levenshtein(Init(a), b));
    } else if b != "" {
      DistanceReached(a, Init(b));
      AddLast(a, b, Levenshtein(a, Init(b)));
    } else {
      Unedited(a);
    }
  }

  lemma Unedited(a: string)
    ensures Within(a, a, 0)
  {
  }

  lemma RemoveLast(a: string, b: string, n: nat)
    requires a != "" && Within(Init(a), b, n)
    ensures Within(a, b, n + 1)
  {
    hide OneEdit, Within;
    assert a == Init(a) + [Last(a)];
    EditsAtEnd(Init(a), Last(a), Last(a));
    OneStep(a, Init(a));
    WithinMore(a, Init(a), b, 1, n);
  }

  lemma AddLast(a: string, b: string, n: nat)
    requires b != "" && Within(a, Init(b), n)
    ensures Within(a, b, n + 1)
  {
    hide OneEdit, Within;
    assert b == Init(b) + [Last(b)];
    EditsAtEnd(Init(b), Last(b), Last(b));
    OneStep(Init(b), b);
    WithinMore(a, Init(b), b, n, 1);
  }

  lemma ReplaceLast(a: string, b: string, n: nat)
    requires a != "" && b != "" && Within(Init(a), Init(b), n)
    ensures Within(a, b, n + if Last(a) == Last(b) then 0 else 1)
  {
    hide OneEdit, Within;
    assert a == Init(a) + [Last(a)] && b == Init(b) + [Last(b)];
    WithinBehind(Init(a), Init(b), n, Last(a));
    if Last(a) != Last(b) {
      EditsAtEnd(Init(b), Last(a), Last(b));
      OneStep(Init(b) + [Last(a)], b);
      WithinMore(a, Init(b) + [Last(a)], b, n, 1);
    }
  }

  lemma BothReached(a: string, b: string)
    requires a != "" && b != ""
    ensures Within(a, b, Levenshtein(a, b))
    decreases |a| + |b|, 0
  {
    hide OneEdit, Within, Levenshtein;
    Unfolded(a, b);
    DistanceReached(a, Init(b));
    DistanceReached(Init(a), b);
    DistanceReached(Init(a), Init(b));
    AddLast(a, b, Levenshtein(a, Init(b)));
    RemoveLast(a, b, Levenshtein(Init(a), b));
    ReplaceLast(a, b, Levenshtein(Init(a), Init(b)));
  }

  // ----- no shorter way -----

  /** One more character on either side costs at most one. */
  lemma OneMore(a: string, b: string, c: char)
    ensures Levenshtein(a, b + [c]) <= Levenshtein(a, b) + 1
    ensures Levenshtein(a + [c], b) <= Levenshtein(a, b) + 1
  {
    assert Init(b + [c]) == b && Init(a + [c]) == a;
  }

  lemma {:induction false} OneLess(a: string, b: string, c: char)
    ensures Levenshtein(a, b) <= Levenshtein(a, b + [c]) + 1
    decreases |a|
  {
    hide Levenshtein;
    if a == "" {
      FromEmpty(b);
      FromEmpty(b + [c]);
    } else {
      Step(a, b, c);
      OneLess(Init(a), b, c);
      OneMore(Init(a), b, Last(a));
      assert a == Init(a) + [Last(a)];
    }
  }

  lemma {:induction false} OneOther(a: string, b: string, c: char, d: char)
    ensures Levenshtein(a, b + [d]) <= Levenshtein(a, b + [c]) + 1
    decreases |a|
  {
    hide Levenshtein;
    if a == "" {
      FromEmpty(b + [c]);
      FromEmpty(b + [d]);
    } else {
      Step(a, b, c);
      Step(a, b, d);
      OneOther(Init(a), b, c, d);
    }
  }

  lemma {:induction false} EditCostsOne(a: string, p: string, s: string, t: string, q: string)
    requires |s| <= 1 && |t| <= 1
    ensures Levenshtein(a, p + t + q) <= Levenshtein(a, p + s + q) + 1
    decreases |q|, |a|
  {
    if q == "" {
      assert p + s + q == p + s && p + t + q == p + t;
      EditAtEnd(a, p, s, t);
    } else {
      var x, y, e := p + s + Init(q), p + t + Init(q), Last(q);
      assert p + s + q == x + [e] && p + t + q == y + [e];
      EditCostsOne(a, p, s, t, Init(q));
      if a != "" {
        EditCostsOne(Init(a), p, s, t, Init(q));
        EditCostsOne(Init(a), p, s, t, q);
      }
      SameEnd(a, x, y, e);
    }
  }

  lemma EditAtEnd(a: string, p: string, s: string, t: string)
    requires |s| <= 1 && |t| <= 1
    ensures Levenshtein(a, p + t) <= Levenshtein(a, p + s) + 1
  {
    if s == "" && t == "" {
      assert p + t == p + s;
    } else if s == "" {
      assert p + s == p && t == [t[0]];
      OneMore(a, p, t[0]);
    } else if t == "" {
      assert p + t == p && s == [s[0]];
      OneLess(a, p, s[0]);
    } else {
      assert s == [s[0]] && t == [t[0]];
      OneOther(a, p, s[0], t[0]);
    }
  }

  lemma SameEnd(a: string, x: string, y: string, e: char)
    requires Levenshtein(a, y) <= Levenshtein(a, x) + 1
    requires a != "" ==> Levenshtein(Init(a), y) <= Levenshtein(Init(a), x) + 1
    requires a != "" ==> Levenshtein(Init(a), y + [e]) <= Levenshtein(Init(a), x + [e]) + 1
    requires |y| <= |x| + 1
    ensures Levenshtein(a, y + [e]) <= Levenshtein(a, x + [e]) + 1
  {
    hide Levenshtein;
    if a == "" {
      FromEmpty(x + [e]);
      FromEmpty(y + [e]);
    } else {
      Step(a, x, e);
      Step(a, y, e);
    }
  }

  lemma FromEmpty(b: string)
    ensures Levenshtein("", b) == |b|
  {
  }

  lemma Step(a: string, b: string, e: char)
    requires a != ""
    ensures Levenshtein(a, b + [e]) ==
            Least(Least(Levenshtein(a, b) + 1, Levenshtein(Init(a), b + [e]) + 1),
                Levenshtein(Init(a), b) + if Last(a) == e then 0 else 1)
  {
    hide Levenshtein;
    Unfolded(a, b + [e]);
    assert Init(b + [e]) == b;
  }

  lemma Unfolded(a: string, b: string)
    requires a != "" && b != ""
    ensures Levenshtein(a, b) ==
            Least(Least(Levenshtein(a, Init(b)) + 1, Levenshtein(Init(a), b) + 1),
                Levenshtein(Init(a), Init(b)) + if Last(a) == Last(b) then 0 else 1)
  {
    hide Least, Init, Last;
  }

  lemma {:induction false} DistanceIsLeast(a: string, b: string, n: nat)
    requires Within(a, b, n)
    ensures Levenshtein(b, a) <= n
    decreases n
  {
    hide OneEdit;
    if a == b {
      Same(a);
    } else {
      var c :| OneEdit(a, c) && Within(c, b, n - 1);
      DistanceIsLeast(c, b, n - 1);
      EditLengthens(b, c, a);
    }
  }

  lemma EditLengthens(b: string, c: string, a: string)
    requires OneEdit(a, c)
    ensures Levenshtein(b, a) <= Levenshtein(b, c) + 1
  {
    var p, s, t, q :| EditAt(a, c, p, s, t, q);
    EditCostsOne(b, p, t, s, q);
  }

  lemma {:induction false} Same(a: string)
    ensures Levenshtein(a, a) == 0
  {
    if a != "" { Same(Init(a)); }
  }

  lemma {:induction false} Symmetric(a: string, b: string)
    ensures Levenshtein(a, b) == Levenshtein(b, a)
    decreases |a| + |b|
  {
    if a != "" && b != "" {
      Symmetric(a, Init(b));
      Symmetric(Init(a), b);
      Symmetric(Init(a), Init(b));
    }
  }

  /** The computed distance is the least number of single-character edits. */
  lemma DistanceIsExact(a: string, b: string, n: nat)
    ensures Levenshtein(a, b) <= n <==> Within(a, b, n)
  {
    if Within(a, b, n) {
      DistanceIsLeast(a, b, n);
      Symmetric(a, b);
    }
    if Levenshtein(a, b) <= n {
      DistanceReached(a, b);
      WithinLonger(a, b, Levenshtein(a, b), n);
    }
  }

  /** Each edit changes the length by at most one. */
  lemma {:induction false} DistanceBoundsLengths(a: string, b: string)
    ensures Levenshtein(a, b) >= |a| - |b| && Levenshtein(a, b) >= |b| - |a|
    decreases |a| + |b|
  {
    if a != "" && b != "" {
      DistanceBoundsLengths(a, Init(b));
      DistanceBoundsLengths(Init(a), b);
      DistanceBoundsLengths(Init(a), Init(b));
    }
  }
}
