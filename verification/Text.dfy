/** Characters and searches on text, as java.lang.Character and java.lang.String define them. */
module Text {

  datatype Option<+T> = None | Some(value: T)

  /** Character.isWhitespace. */
  predicate IsSpace(c: char) {
    || '\U{0009}' <= c <= '\U{000D}'
    || '\U{001C}' <= c <= '\U{0020}'
    || c == '\U{1680}'
    || '\U{2000}' <= c <= '\U{2006}'
    || '\U{2008}' <= c <= '\U{200A}'
    || c == '\U{2028}' || c == '\U{2029}' || c == '\U{205F}' || c == '\U{3000}'
  }

  predicate IsLineEnd(c: char) {
    c == '\n' || c == '\r'
  }

  /** text.indexOf(c, from): the first position at or after `from` that holds c, or None. */
  function IndexOf(s: string, c: char, from: nat): (r: Option<nat>)
    ensures r.Some? ==> from <= r.value < |s| && s[r.value] == c && c !in s[from..(r.value)]
    ensures r.None? && from <= |s| ==> c !in s[from..]
    decreases |s| - from
  {
    if from >= |s| then None
    else if s[from] == c then Some(from)
    else
      var r := IndexOf(s, c, from + 1);
      assert s[from..] == [s[from]] + s[from + 1..];
      assert r.Some? ==> s[from..r.value] == [s[from]] + s[from + 1..r.value];
      r
  }

  /** A hit inside a prefix does not move when text is appended. */
  lemma {:induction false} IndexOfAppend(p: string, q: string, c: char, from: nat)
    requires IndexOf(p, c, from).Some?
    ensures IndexOf(p + q, c, from) == IndexOf(p, c, from)
    decreases |p| - from
  {
    if p[from] != c { IndexOfAppend(p, q, c, from + 1); }
  }

  /** Searching behind a prefix is searching the rest, moved by the prefix's length. */
  lemma {:induction false} IndexOfShift(p: string, q: string, c: char, from: nat)
    ensures IndexOf(p + q, c, |p| + from) ==
            match IndexOf(q, c, from) case None => None case Some(e) => Some(|p| + e)
    decreases |q| - from
  {
    if from < |q| && q[from] != c { IndexOfShift(p, q, c, from + 1); }
  }

  /** The first line end at or after `from`, or the end of the text: where a comment stops. */
  function LineEndFrom(s: string, from: nat): (e: nat)
    requires from <= |s|
    ensures from <= e <= |s|
    ensures e < |s| ==> IsLineEnd(s[e])
    ensures forall k :: from <= k < e ==> !IsLineEnd(s[k])
    decreases |s| - from
  {
    if from == |s| || IsLineEnd(s[from]) then from else LineEndFrom(s, from + 1)
  }

  lemma {:induction false} LineEndUnique(s: string, from: nat, e: nat)
    requires from <= e <= |s|
    requires e < |s| ==> IsLineEnd(s[e])
    requires forall k :: from <= k < e ==> !IsLineEnd(s[k])
    ensures LineEndFrom(s, from) == e
    decreases e - from
  {
    if from < e { LineEndUnique(s, from + 1, e); }
  }

  /** String.trim: characters up to U+0020 removed at both ends. */
  function TrimStart(s: string): (r: string)
    ensures |r| <= |s| && r == s[|s| - |r|..]
    ensures r != "" ==> r[0] > ' '
  {
    if s != "" && s[0] <= ' ' then TrimStart(s[1..]) else s
  }

  function TrimEnd(s: string): (r: string)
    ensures |r| <= |s| && r == s[..|r|]
    ensures r != "" ==> r[|r| - 1] > ' '
  {
    if s != "" && s[|s| - 1] <= ' ' then TrimEnd(s[..|s| - 1]) else s
  }

  function Trim(s: string): string {
    TrimEnd(TrimStart(s))
  }

  lemma {:induction false} TrimEndFirst(s: string)
    requires s != "" && s[0] > ' '
    ensures TrimEnd(s) != "" && TrimEnd(s)[0] == s[0]
  {
    if s[|s| - 1] <= ' ' { TrimEndFirst(s[..|s| - 1]); }
  }

  lemma {:induction false} TrimEndTwice(s: string)
    ensures TrimEnd(TrimEnd(s)) == TrimEnd(s)
  {
    if s != "" && s[|s| - 1] <= ' ' { TrimEndTwice(s[..|s| - 1]); }
  }

  // ----- occurrences of a text in a text -----

  predicate Occurs(s: string, w: string, i: int) {
    0 <= i && i + |w| <= |s| && s[i..i + |w|] == w
  }

  predicate Contains(s: string, w: string) {
    exists i :: 0 <= i <= |s| && Occurs(s, w, i)
  }

  // ----- lists without duplicates -----

  function AddNew<T(==,!new)>(s: seq<T>, x: T): (r: seq<T>)
    ensures forall y :: y in r <==> y in s || y == x
    ensures Distinct(s) ==> Distinct(r)
  {
    if x in s then s else s + [x]
  }

  predicate Distinct<T(==)>(s: seq<T>) {
    forall i, j | 0 <= i < j < |s| :: s[i] != s[j]
  }

  function AddEach<T(==,!new)>(s: seq<T>, more: seq<T>): (r: seq<T>)
    ensures forall x :: x in r <==> x in s || x in more
    ensures Distinct(s) ==> Distinct(r)
  {
    if more == [] then s
    else
      assert more == more[..|more| - 1] + [more[|more| - 1]];
      AddNew(AddEach(s, more[..|more| - 1]), more[|more| - 1])
  }

  // ----- lists of pieces in one text -----

  function Split(s: string, c: char): (r: seq<string>)
    ensures r != []
    decreases |s|
  {
    var e := IndexOf(s, c, 0);
    if e.None? then [s] else [s[..e.value]] + Split(s[e.value + 1..], c)
  }

  function Join(xs: seq<string>, c: char): string {
    if xs == [] then "" else if |xs| == 1 then xs[0] else xs[0] + [c] + Join(xs[1..], c)
  }

  /** What String.split drops: empty pieces at the end. */
  function DropEmptyTail(pieces: seq<string>): seq<string> {
    if pieces != [] && pieces[|pieces| - 1] == "" then DropEmptyTail(pieces[..|pieces| - 1]) else pieces
  }

  lemma {:induction false} SplitPieces(s: string, c: char)
    ensures forall p | p in Split(s, c) :: c !in p
    decreases |s|
  {
    var e := IndexOf(s, c, 0);
    if e.Some? {
      SplitPieces(s[e.value + 1..], c);
      assert s[0..e.value] == s[..e.value];
    } else {
      assert s[0..] == s;
    }
  }

  lemma {:induction false} SplitJoin(xs: seq<string>, c: char)
    requires xs != [] && forall x | x in xs :: c !in x
    ensures Split(Join(xs, c), c) == xs
  {
    var x := xs[0];
    assert x in xs;
    if |xs| == 1 {
      NotFound(x, c);
      assert xs == [x];
    } else {
      var rest := Join(xs[1..], c);
      FoundAt(x, c, rest);
      assert forall y | y in xs[1..] :: y in xs;
      SplitJoin(xs[1..], c);
      var all := x + [c] + rest;
      assert all[..|x|] == x && all[|x| + 1..] == rest;
    }
  }

  lemma {:induction false} JoinSplit(s: string, c: char)
    ensures Join(Split(s, c), c) == s
    decreases |s|
  {
    var e := IndexOf(s, c, 0);
    if e.Some? {
      var rest := s[e.value + 1..];
      JoinSplit(rest, c);
      assert Split(s, c)[1..] == Split(rest, c);
      assert s == s[..e.value] + [c] + rest;
    }
  }

  lemma NotFound(x: string, c: char)
    requires c !in x
    ensures IndexOf(x, c, 0).None?
  {
  }

  lemma FoundAt(x: string, c: char, rest: string)
    requires c !in x
    ensures IndexOf(x + [c] + rest, c, 0) == Some(|x|)
  {
    var all := x + [c] + rest;
    var e := IndexOf(all, c, 0);
    assert all[|x|] == c && all[0..] == all;
    assert e.Some? && e.value >= |x|;
  }
}
