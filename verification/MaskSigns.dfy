/**
 * translate-docs.js: masked text, placeholder by placeholder.
 *
 * A well-masked text is plain text and placeholders of slots that exist. Restoring reads it from the left;
 * replacing one more part by a placeholder, anywhere between the others, restores to what stood there before.
 * That no match begins with a digit keeps matches out of the inside of placeholders.
 */
module MaskSigns {
  import opened Text
  import opened Numbers
  import opened FenceLines
  import opened MaskTool

  // ----- well-masked text -----

  /** Every sign belongs to a placeholder with a number below k. */
  predicate WellMasked(s: string, k: nat)
    decreases |s|
  {
    if s == "" then true
    else if s[0] != '@' then WellMasked(s[1..], k)
    else
      var e := IndexOf(s, '@', 1);
      e.Some? && e.value > 1 && AllDigits(s[1..e.value]) && Value(s[1..e.value]) < k && WellMasked(s[e.value + 1..], k)
  }

  lemma {:induction false} DigitRunIs(s: string, n: nat)
    requires n <= |s| && AllDigits(s[..n]) && (n < |s| ==> !IsDigit(s[n]))
    ensures DigitRun(s) == n
  {
    if n > 0 {
      assert s[..n][0] in s[..n] && s[1..][..n - 1] == s[..n][1..];
      assert forall c :: c in s[..n][1..] ==> c in s[..n];
      DigitRunIs(s[1..], n - 1);
    }
  }

  lemma NoIndent(s: string)
    requires s != "" && !IsWhite(s[0])
    ensures Indented(s) == 0
  {
  }

  lemma ReadsAs(s: string, n: nat)
    requires n > 0 && 1 + n < |s| && s[0] == '@' && s[1 + n] == '@'
    requires Indented(s[1..]) == 0 && DigitRun(s[1..]) == n && Indented(s[1 + n..]) == 0
    ensures Reads(s) == Some((Value(s[1..1 + n]), n + 2))
  {
    hide DigitRun, Indented, Value;
  }

  /** A sign, digits, a sign: read as it stands. */
  lemma ReadsDigits(digits: string, rest: string)
    requires digits != "" && AllDigits(digits)
    ensures Reads("@" + digits + "@" + rest) == Some((Value(digits), |digits| + 2))
  {
    hide DigitRun, Indented, Value, Reads;
    var s := "@" + digits + "@" + rest;
    var n := |digits|;
    Layout(digits, rest);
    assert digits[0] in digits;
    NoIndent(s[1..]);
    DigitRunIs(s[1..], n);
    NoIndent(s[1 + n..]);
    ReadsAs(s, n);
  }

  lemma Layout(digits: string, rest: string)
    requires digits != ""
    ensures var s, n := "@" + digits + "@" + rest, |digits|;
            && |s| == n + 2 + |rest| && s[0] == '@' && s[1 + n] == '@' && s[1..1 + n] == digits && s[n + 2..] == rest
            && s[1..] != "" && s[1..][0] == digits[0] && s[1..][..n] == digits && s[1..][n] == '@'
            && s[1 + n..] != "" && s[1 + n..][0] == '@'
  {
  }

  lemma MaskedStart(s: string, k: nat)
    requires s != "" && s[0] == '@' && WellMasked(s, k)
    ensures IndexOf(s, '@', 1).Some?
    ensures var e := IndexOf(s, '@', 1).value;
            && s == "@" + s[1..e] + "@" + s[e + 1..] && Reads(s) == Some((Value(s[1..e]), e + 1))
            && AllDigits(s[1..e]) && s[1..e] != "" && Value(s[1..e]) < k && WellMasked(s[e + 1..], k)
  {
    hide Reads;
    var e := IndexOf(s, '@', 1).value;
    assert s == "@" + s[1..e] + "@" + s[e + 1..];
    ReadsDigits(s[1..e], s[e + 1..]);
  }

  lemma {:induction false} PlainText(m: string, q: string, slots: seq<string>, k: nat)
    requires '@' !in m
    ensures RestoreFrom(m + q, slots) == Prepended(m, RestoreFrom(q, slots))
    ensures WellMasked(m + q, k) == WellMasked(q, k)
  {
    hide Reads, IndexOf;
    if m == "" {
      assert m + q == q;
    } else {
      assert (m + q)[1..] == m[1..] + q && m[0] in m;
      NoSign(m + q);
      PlainText(m[1..], q, slots, k);
      assert [m[0]] + (m[1..] + RestoreFrom(q, slots).text) == m + RestoreFrom(q, slots).text;
    }
  }

  lemma {:induction false} MoreSlots(s: string, slots: seq<string>, x: string)
    requires WellMasked(s, |slots|)
    ensures WellMasked(s, |slots| + 1)
    ensures RestoreFrom(s, slots + [x]) == RestoreFrom(s, slots)
    decreases |s|
  {
    hide Reads;
    if s == "" {
    } else if s[0] != '@' {
      assert Reads(s).None? by { NoSign(s); }
      MoreSlots(s[1..], slots, x);
    } else {
      MaskedStart(s, |slots|);
      MoreSlots(s[IndexOf(s, '@', 1).value + 1..], slots, x);
    }
  }

  lemma NoSign(s: string)
    requires s != "" && s[0] != '@'
    ensures Reads(s).None?
  {
  }

  lemma RestorePlaceholder(n: nat, q: string, slots: seq<string>)
    ensures RestoreFrom(Placeholder(n) + q, slots) == PutBack(n, RestoreFrom(q, slots), slots)
  {
    hide Reads;
    var d := Digits(n);
    ValueOfDigits(n);
    ReadsDigits(d, q);
    var s := "@" + d + "@" + q;
    assert Placeholder(n) + q == s;
    assert s[|d| + 2..] == q;
  }

  lemma MaskPlaceholder(n: nat, q: string, k: nat)
    requires n < k && WellMasked(q, k)
    ensures WellMasked(Placeholder(n) + q, k)
  {
    var d := Digits(n);
    ValueOfDigits(n);
    var s := "@" + d + "@" + q;
    assert Placeholder(n) + q == s;
    assert '@' !in d;
    FirstSign(d, q);
    assert s[1..|d| + 1] == d && s[|d| + 2..] == q;
  }

  lemma FirstSign(d: string, q: string)
    requires '@' !in d
    ensures IndexOf("@" + d + "@" + q, '@', 1) == Some(|d| + 1)
  {
    FoundAt(d, '@', q);
    IndexOfShift("@", d + ['@'] + q, '@', 0);
    assert "@" + d + "@" + q == "@" + (d + ['@'] + q);
  }

  // ----- replacing one part of the text by a placeholder -----

  /** text restores to what it was before a slot n was added. */
  predicate Gained(before: Restored, after: Restored, n: nat) {
    after.text == before.text && after.lost == before.lost && after.seen == before.seen + {n}
  }

  lemma {:induction false} ReplaceOne(p: string, m: string, q: string, slots: seq<string>)
    requires m != "" && '@' !in m && !IsDigit(m[0])
    requires WellMasked(p + (m + q), |slots|)
    ensures WellMasked(p + (Placeholder(|slots|) + q), |slots| + 1)
    ensures Gained(RestoreFrom(p + (m + q), slots), RestoreFrom(p + (Placeholder(|slots|) + q), slots + [m]), |slots|)
    decreases |p|
  {
    hide Reads, Placeholder, RestoreFrom, Gained;
    if p == "" {
      assert p + (m + q) == m + q && p + (Placeholder(|slots|) + q) == Placeholder(|slots|) + q;
      ReplaceFirst(m, q, slots);
    } else if p[0] != '@' {
      ReplaceBehindPlain(p, m, q, slots);
    } else {
      ReplaceBehindSign(p, m, q, slots);
    }
  }

  lemma ReplaceFirst(m: string, q: string, slots: seq<string>)
    requires m != "" && '@' !in m && WellMasked(m + q, |slots|)
    ensures WellMasked(Placeholder(|slots|) + q, |slots| + 1)
    ensures Gained(RestoreFrom(m + q, slots), RestoreFrom(Placeholder(|slots|) + q, slots + [m]), |slots|)
  {
    hide Reads, Placeholder, RestoreFrom;
    var n := |slots|;
    PlainText(m, q, slots, n);
    MoreSlots(q, slots, m);
    MaskPlaceholder(n, q, n + 1);
    RestorePlaceholder(n, q, slots + [m]);
  }

  lemma ReplaceBehindPlain(p: string, m: string, q: string, slots: seq<string>)
    requires m != "" && '@' !in m && !IsDigit(m[0]) && p != "" && p[0] != '@'
    requires WellMasked(p + (m + q), |slots|)
    ensures WellMasked(p + (Placeholder(|slots|) + q), |slots| + 1)
    ensures Gained(RestoreFrom(p + (m + q), slots), RestoreFrom(p + (Placeholder(|slots|) + q), slots + [m]), |slots|)
    decreases |p|, 0
  {
    hide Reads, Placeholder, RestoreFrom, WellMasked;
    var h, t := [p[0]], p[1..];
    assert p + (m + q) == h + (t + (m + q)) && p + (Placeholder(|slots|) + q) == h + (t + (Placeholder(|slots|) + q));
    PlainText(h, t + (m + q), slots, |slots|);
    PlainText(h, t + (Placeholder(|slots|) + q), slots + [m], |slots| + 1);
    ReplaceOne(t, m, q, slots);
  }

  /** A placeholder in front ends before the part: no placeholder has room for it. */
  lemma SignEndsBefore(p: string, m: string, q: string, k: nat)
    requires m != "" && '@' !in m && !IsDigit(m[0]) && p != "" && p[0] == '@' && WellMasked(p + (m + q), k)
    ensures IndexOf(p + (m + q), '@', 1).Some?
    ensures var e := IndexOf(p + (m + q), '@', 1).value; 1 < e < |p|
  {
    var s := p + (m + q);
    var e := IndexOf(s, '@', 1).value;
    assert s[|p|] == m[0] && m[0] in m;
    var c := s[|p|];
    assert e <= |p| || IsDigit(c) by {
      if |p| < e { DigitAt(s, e, |p|); }
    }
  }

  lemma DigitAt(s: string, e: nat, k: nat)
    requires 1 <= k < e <= |s| && AllDigits(s[1..e])
    ensures IsDigit(s[k])
  {
    assert s[1..e][k - 1] in s[1..e];
  }

  lemma ReplaceBehindSign(p: string, m: string, q: string, slots: seq<string>)
    requires m != "" && '@' !in m && !IsDigit(m[0]) && p != "" && p[0] == '@'
    requires WellMasked(p + (m + q), |slots|)
    ensures WellMasked(p + (Placeholder(|slots|) + q), |slots| + 1)
    ensures Gained(RestoreFrom(p + (m + q), slots), RestoreFrom(p + (Placeholder(|slots|) + q), slots + [m]), |slots|)
    decreases |p|, 0
  {
    hide Reads, Placeholder, RestoreFrom, IndexOf, WellMasked;
    var s, t := p + (m + q), p + (Placeholder(|slots|) + q);
    SignEndsBefore(p, m, q, |slots|);
    MaskedStart(s, |slots|);
    var e := IndexOf(s, '@', 1).value;
    var p' := p[e + 1..];
    assert s[e + 1..] == p' + (m + q);
    ReplaceOne(p', m, q, slots);
    assert t[..e + 1] == p[..e + 1] == s[..e + 1] && t[e + 1..] == p' + (Placeholder(|slots|) + q);
    SameStart(s, t, e, |slots|, p' + (Placeholder(|slots|) + q));
    RestoreStart(s, slots, Value(s[1..e]), e + 1);
    RestoreStart(t, slots + [m], Value(s[1..e]), e + 1);
  }

  lemma RestoreStart(s: string, slots: seq<string>, n: nat, length: nat)
    requires Reads(s) == Some((n, length))
    ensures 0 < length <= |s| && RestoreFrom(s, slots) == PutBack(n, RestoreFrom(s[length..], slots), slots)
  {
    hide Reads;
  }

  lemma SameStart(s: string, t: string, e: nat, k: nat, rest: string)
    requires s != "" && s[0] == '@' && WellMasked(s, k) && IndexOf(s, '@', 1) == Some(e)
    requires e < |t| && t[..e + 1] == s[..e + 1] && t[e + 1..] == rest && WellMasked(rest, k + 1)
    ensures WellMasked(t, k + 1)
    ensures Reads(t) == Reads(s) == Some((Value(s[1..e]), e + 1)) && Value(s[1..e]) < k
  {
    hide Reads, WellMasked, Value;
    var d := s[1..e];
    MaskedStart(s, k);
    SamePrefix(s, t, e, d, rest);
    ReadsDigits(d, rest);
    NotASign(d);
    FirstSign(d, rest);
    MaskedAs(t, e, d, rest, k + 1);
  }

  lemma SamePrefix(s: string, t: string, e: nat, d: string, rest: string)
    requires 1 <= e < |s| && e < |t| && t[..e + 1] == s[..e + 1] && t[e + 1..] == rest && d == s[1..e]
    requires s[0] == '@' && s[e] == '@'
    ensures t == "@" + d + "@" + rest && t[0] == '@' && t[1..e] == d
  {
    assert t[..e + 1][1..e] == s[..e + 1][1..e] == d;
    assert t[0] == t[..e + 1][0] && t[e] == t[..e + 1][e];
  }

  lemma NotASign(d: string)
    requires AllDigits(d)
    ensures '@' !in d
  {
  }

  lemma MaskedAs(t: string, e: nat, d: string, rest: string, k: nat)
    requires 1 < e < |t| && t[0] == '@' && IndexOf(t, '@', 1) == Some(e) && t[1..e] == d && t[e + 1..] == rest
    requires AllDigits(d) && Value(d) < k && WellMasked(rest, k)
    ensures WellMasked(t, k)
  {
    hide IndexOf, Value;
  }
}
