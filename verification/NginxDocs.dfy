/** NginxDocService.suggest: names like the one asked for, in three groups. */
module NginxDocs {
  import opened Text
  import opened ServerNames
  import opened EditDistance

  const MAX_SUGGESTIONS := 8

  datatype Kind = Prefix | Inside | Near | Unlike

  /** How a name resembles the query; nothing is said about lengths. */
  function KindOf(key: string, q: string): Kind {
    var k := Lower(key);
    if q <= k then Prefix
    else if Contains(k, q) then Inside
    else if Levenshtein(k, q) <= 2 then Near
    else Unlike
  }

  function OfKind(keys: seq<string>, q: string, kind: Kind): (r: seq<string>)
    ensures forall k :: k in r <==> k in keys && KindOf(k, q) == kind
  {
    if keys == [] then []
    else
      assert keys == keys[..|keys| - 1] + [keys[|keys| - 1]];
      var r := OfKind(keys[..|keys| - 1], q, kind);
      if KindOf(keys[|keys| - 1], q) == kind then r + [keys[|keys| - 1]] else r
  }

  predicate TextBefore(a: string, b: string) {
    b != "" && (a == "" || a[0] < b[0] || (a[0] == b[0] && TextBefore(a[1..], b[1..])))
  }

  /** Shorter names first, names of one length in the order of their text. */
  predicate Sooner(a: string, b: string) {
    |a| < |b| || (|a| == |b| && TextBefore(a, b))
  }

  function Insert(xs: seq<string>, x: string): (r: seq<string>)
    ensures forall y :: y in r <==> y == x || y in xs
  {
    if xs == [] || !Sooner(x, xs[|xs| - 1]) then xs + [x]
    else Insert(xs[..|xs| - 1], x) + [xs[|xs| - 1]]
  }

  /** Stable sort. */
  function Sorted(xs: seq<string>): (r: seq<string>)
    ensures forall y :: y in r <==> y in xs
  {
    if xs == [] then []
    else
      assert xs == xs[..|xs| - 1] + [xs[|xs| - 1]];
      Insert(Sorted(xs[..|xs| - 1]), xs[|xs| - 1])
  }

  function Candidates(keys: seq<string>, q: string): seq<string> {
    Sorted(OfKind(keys, q, Prefix)) + OfKind(keys, q, Inside) + OfKind(keys, q, Near)
  }

  function Limited(xs: seq<string>): seq<string> {
    if |xs| > MAX_SUGGESTIONS then xs[..MAX_SUGGESTIONS] else xs
  }

  /** String.isBlank, which is not quite that trimming leaves nothing. */
  predicate IsBlank(name: string) {
    forall c | c in name :: IsSpace(c)
  }

  /** What suggest is meant to return: no word about its length guard. */
  function Suggestions(keys: seq<string>, name: Option<string>): seq<string> {
    if name.None? || IsBlank(name.value) then [] else Limited(Candidates(keys, Lower(Trim(name.value))))
  }

  method Suggest(keys: seq<string>, name: Option<string>) returns (out: seq<string>)
    ensures out == Suggestions(keys, name)
  {
    if name.None? || IsBlank(name.value) { return []; }
    var q := Lower(Trim(name.value));
    var prefix, inside, near := Buckets(keys, q);
    out := Limited(Sorted(prefix) + inside + near);
  }

  method Buckets(keys: seq<string>, q: string) returns (prefix: seq<string>, inside: seq<string>, near: seq<string>)
    ensures prefix == OfKind(keys, q, Prefix) && inside == OfKind(keys, q, Inside) && near == OfKind(keys, q, Near)
  {
    hide Contains, Levenshtein, Lower;
    prefix, inside, near := [], [], [];
    for i := 0 to |keys|
      invariant prefix == OfKind(keys[..i], q, Prefix)
      invariant inside == OfKind(keys[..i], q, Inside)
      invariant near == OfKind(keys[..i], q, Near)
    {
      assert keys[..i + 1][..i] == keys[..i];
      var k := Lower(keys[i]);
      if q <= k {
        prefix := prefix + [keys[i]];
      } else if Contains(k, q) {
        inside := inside + [keys[i]];
      } else {
        DistanceBoundsLengths(k, q);
        if |k| - |q| <= 2 && |q| - |k| <= 2 {
          var d := Distance(k, q);
          if d <= 2 { near := near + [keys[i]]; }
        }
      }
    }
    assert keys[..|keys|] == keys;
  }

  // ----- what the answer is -----

  predicate ByLength(xs: seq<string>) {
    xs != [] ==> ByLength(xs[..|xs| - 1]) && forall y | y in xs :: |y| <= |xs[|xs| - 1]|
  }

  lemma {:induction false} InsertByLength(xs: seq<string>, x: string)
    requires ByLength(xs)
    ensures ByLength(Insert(xs, x))
  {
    hide TextBefore;
    if xs == [] || !Sooner(x, xs[|xs| - 1]) {
      assert (xs + [x])[..|xs|] == xs;
    } else {
      var r := Insert(xs[..|xs| - 1], x);
      InsertByLength(xs[..|xs| - 1], x);
      assert (r + [xs[|xs| - 1]])[..|r|] == r;
      assert forall y :: y in xs[..|xs| - 1] ==> y in xs;
    }
  }

  lemma {:induction false} SortedByLength(xs: seq<string>)
    ensures ByLength(Sorted(xs))
  {
    if xs != [] {
      SortedByLength(xs[..|xs| - 1]);
      InsertByLength(Sorted(xs[..|xs| - 1]), xs[|xs| - 1]);
    }
  }

  lemma {:induction false} FirstIsShortest(xs: seq<string>)
    requires ByLength(xs) && xs != []
    ensures forall y | y in xs :: |xs[0]| <= |y|
  {
    if |xs| > 1 {
      FirstIsShortest(xs[..|xs| - 1]);
      assert xs == xs[..|xs| - 1] + [xs[|xs| - 1]] && xs[0] in xs;
    }
  }

  /**
   * Everything suggested is a known name that starts with the query, contains it or is at most two edits away; at most
   * eight names; a name that is the query but for upper and lower case comes first.
   */
  lemma SuggestionsAre(keys: seq<string>, name: string)
    requires !IsBlank(name)
    ensures var q, out := Lower(Trim(name)), Suggestions(keys, Some(name));
            && |out| <= MAX_SUGGESTIONS
            && (forall k | k in out :: k in keys && KindOf(k, q) != Unlike)
            && ((exists k :: k in keys && Lower(k) == q) ==> out != [] && Lower(out[0]) == q)
            && (out == [] <==> forall k :: k in keys ==> KindOf(k, q) == Unlike)
  {
    hide Contains, Levenshtein, Lower, Sorted;
    var q := Lower(Trim(name));
    var all := Candidates(keys, q);
    var out := Limited(all);
    assert forall k :: k in out ==> k in all;
    if k :| k in keys && Lower(k) == q { ExactFirst(keys, q, k); }
    if k :| k in keys && KindOf(k, q) != Unlike {
      assert k in all;
    } else {
      assert all != [] ==> all[0] in all;
    }
  }

  lemma ExactFirst(keys: seq<string>, q: string, k: string)
    requires k in keys && Lower(k) == q
    ensures Candidates(keys, q) != [] && Lower(Candidates(keys, q)[0]) == q
  {
    hide Contains, Levenshtein, Lower, Sorted;
    var prefix := OfKind(keys, q, Prefix);
    var sorted := Sorted(prefix);
    assert KindOf(k, q) == Prefix && k in sorted;
    SortedByLength(prefix);
    FirstIsShortest(sorted);
    var first := sorted[0];
    assert first in sorted && KindOf(first, q) == Prefix;
    assert q <= Lower(first) && |Lower(first)| == |first| <= |k| == |q|;
    assert Candidates(keys, q)[0] == first;
  }
}
