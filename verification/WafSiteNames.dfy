/**
 * WafTuningService.hostsOf: the names used to exclude a site cover the hosts that nginx sends to it.
 *
 * For each name of a site that is accepted as an exclusion, the generated host test holds of exactly the hosts
 * that nginx matches with that name.
 */
module WafSiteNames {
  import opened Text
  import opened ServerNames
  import opened WafCompile

  // ----- excluded site names and nginx's own matching -----

  lemma {:induction false} LowerAt(s: string, k: nat)
    requires k < |s|
    ensures Lower(s)[k] == LowerChar(s[k])
  {
    if k > 0 { LowerAt(s[1..], k - 1); }
  }

  lemma {:induction false} HostNameChars(n: string)
    requires IsHostName(n)
    ensures forall c | c in n :: IsHostChar(c) || c == '.'
    ensures n != "" && n[0] != '.' && n[|n| - 1] != '.'
    decreases |n|
  {
    var e := IndexOf(n, '.', 0);
    if e.None? {
      assert n in Split(n, '.');
    } else {
      var first, rest := n[..e.value], n[e.value + 1..];
      var labels := Split(n, '.');
      assert labels[0] == first && labels[1..] == Split(rest, '.');
      assert labels[0] in labels && forall l | l in labels[1..] :: l in labels;
      HostNameChars(rest);
      assert n == first + ['.'] + rest;
    }
  }

  /** The word as AddName reads it: the forms it accepts, and how nginx's rules class the same word. */
  lemma AcceptedWord(raw: string, h: Hosts, host: string, engine: Engine)
    requires raw !in AddName(h, raw).skipped
    requires host == "" || host[0] != '.'
    ensures SiteNamesHost(AddName(h, raw), host) <==>
            SiteNamesHost(h, host) || Covers(Classify(raw, engine), host, engine)
  {
    var n := Lower(raw);
    if "*." <= n && IsHostName(n[2..]) {
      WildcardClass(raw, engine);
      SuffixAdded(h, n[1..], host);
    } else if "." <= n && IsHostName(n[1..]) {
      DotClass(raw, engine);
      SuffixAdded(h.(exact := h.exact + [n[1..]]), n, host);
    } else {
      assert IsHostName(n) by { assert raw in h.skipped + [raw]; }
      ExactClass(raw, engine);
    }
  }

  lemma SuffixAdded(h: Hosts, suffix: string, host: string)
    ensures SiteNamesHost(h.(suffixes := h.suffixes + [suffix]), host) <==>
              SiteNamesHost(h, host) || EndsWith(host, suffix)
  {
    assert suffix in h.suffixes + [suffix] && forall s | s in h.suffixes :: s in h.suffixes + [suffix];
  }

  lemma NoStar(s: string, from: nat)
    requires from <= |s| && '*' !in s[from..]
    ensures IndexOf(s, '*', from).None?
  {
    if from < |s| { assert s[from..][0] == s[from] && s[from + 1..] == s[from..][1..]; }
  }

  lemma RawIsPlain(raw: string, tail: string)
    requires EndsWith(Lower(raw), tail) && IsHostName(tail)
    requires forall k :: 0 <= k < |raw| - |tail| ==> Lower(raw)[k] == '.' || Lower(raw)[k] == '*'
    ensures !StartsWith(raw, "~") && raw != "" && raw != "_" && '$' !in raw && StripDots(Lower(raw)) == Lower(raw)
  {
    hide Lower, StripDots, IsHostName, StartsWith;
    var n := Lower(raw);
    HostNameChars(tail);
    forall k | 0 <= k < |raw| ensures raw[k] != '~' && raw[k] != '$' && raw[k] != '_' {
      LowerAt(raw, k);
      PlainAt(raw[k], n, tail, k);
    }
    EndsPlain(n, tail);
    NoneOfThem(raw);
  }

  lemma NoneOfThem(raw: string)
    requires forall k | 0 <= k < |raw| :: raw[k] != '~' && raw[k] != '$' && raw[k] != '_'
    ensures !StartsWith(raw, "~") && raw != "_" && '$' !in raw
  {
    if raw != "" {
      assert "~"[0] == '~' && "_"[0] == '_';
      assert raw[0] != '~' && raw[0] != '_';
    }
  }

  lemma EndsPlain(n: string, tail: string)
    requires EndsWith(n, tail) && tail != "" && tail[|tail| - 1] != '.'
    ensures n != "" && StripDots(n) == n
  {
    assert n[|n| - |tail|..][|tail| - 1] == n[|n| - 1];
  }

  lemma PlainAt(c: char, n: string, tail: string, k: nat)
    requires EndsWith(n, tail) && k < |n| && n[k] == LowerChar(c)
    requires forall c | c in tail :: IsHostChar(c) || c == '.'
    requires k < |n| - |tail| ==> n[k] == '.' || n[k] == '*'
    ensures c != '~' && c != '$' && c != '_'
  {
    if |n| - |tail| <= k { CharOfSuffix(n, tail, k); }
  }

  lemma CharOfSuffix(s: string, tail: string, k: nat)
    requires EndsWith(s, tail) && |s| - |tail| <= k < |s|
    ensures s[k] in tail
  {
    var from := |s| - |tail|;
    assert s[from..][k - from] == s[k];
  }

  lemma WildcardClass(raw: string, engine: Engine)
    requires "*." <= Lower(raw) && IsHostName(Lower(raw)[2..])
    ensures Classify(raw, engine) == Head(Lower(raw)[1..], false)
  {
    var n := Lower(raw);
    HostNameChars(n[2..]);
    RawIsPlain(raw, n[2..]);
    assert n[0] == '*' && n[1..] == ['.'] + n[2..];
    NoStar(n, 1);
    assert n[2..] != "" && StartsWith(n, "*.");
    ClassOfStar(raw, n, engine);
  }

  lemma ClassOfStar(raw: string, n: string, engine: Engine)
    requires !StartsWith(raw, "~") && raw != "" && raw != "_" && '$' !in raw && Normalize(raw) == n
    requires |n| > 2 && n[0] == '*' && IndexOf(n, '*', 1).None? && StartsWith(n, "*.")
    ensures Classify(raw, engine) == Head(n[1..], false)
  {
    hide Lower, StripDots, Normalize, JavaGroups;
    assert IndexOf(n, '*', 0) == Some(0);
    hide IndexOf;
    assert !StartsWith(n, ".");
  }

  lemma DotClass(raw: string, engine: Engine)
    requires "." <= Lower(raw) && IsHostName(Lower(raw)[1..])
    ensures Classify(raw, engine) == Head(Lower(raw), true)
  {
    var n := Lower(raw);
    HostNameChars(n[1..]);
    RawIsPlain(raw, n[1..]);
    assert n == ['.'] + n[1..] && n[0..] == n;
    NoStar(n, 0);
  }

  lemma ExactClass(raw: string, engine: Engine)
    requires IsHostName(Lower(raw))
    ensures Classify(raw, engine) == Exact(Lower(raw))
  {
    var n := Lower(raw);
    HostNameChars(n);
    RawIsPlain(raw, n);
    assert n[0..] == n;
    NoStar(n, 0);
  }

  /** A skipped word takes no part; every other excludes exactly the hosts nginx sends to the site by it. */
  lemma {:induction false} NamesAgreeWithNginx(words: seq<string>, host: string, engine: Engine)
    requires host == "" || host[0] != '.'
    ensures SiteNamesHost(HostsOf(words), host) <==>
            exists w :: w in words && w !in HostsOf(words).skipped && Covers(Classify(w, engine), host, engine)
  {
    if words != [] {
      var init, w := words[..|words| - 1], words[|words| - 1];
      NamesAgreeWithNginx(init, host, engine);
      SkippedAreTheSame(init, w);
      assert words == init + [w];
      if w !in HostsOf(words).skipped { AcceptedWord(w, HostsOf(init), host, engine); }
    }
  }

  predicate Skips(raw: string) {
    var n := Lower(raw);
    !("*." <= n && IsHostName(n[2..])) && !("." <= n && IsHostName(n[1..])) && !IsHostName(n)
  }

  lemma {:induction false} SkippedAre(words: seq<string>, w: string)
    ensures w in HostsOf(words).skipped <==> w in words && Skips(w)
  {
    if words != [] {
      SkippedAre(words[..|words| - 1], w);
      assert words == words[..|words| - 1] + [words[|words| - 1]];
    }
  }

  lemma SkippedAreTheSame(init: seq<string>, w: string)
    ensures forall v | v in init :: v in HostsOf(init).skipped <==> v in HostsOf(init + [w]).skipped
    ensures w in HostsOf(init + [w]).skipped <==> Skips(w)
    ensures Skips(w) ==> HostsOf(init + [w]) == HostsOf(init).(skipped := HostsOf(init).skipped + [w])
    ensures HostsOf(init + [w]) == AddName(HostsOf(init), w)
  {
    assert (init + [w])[..|init|] == init;
    forall v | v in init ensures v in HostsOf(init).skipped <==> v in HostsOf(init + [w]).skipped {
      SkippedAre(init, v);
      SkippedAre(init + [w], v);
    }
    SkippedAre(init + [w], w);
  }
}
