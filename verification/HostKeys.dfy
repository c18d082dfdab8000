/**
 * HttpServerSelector: the selector normalises a host, and each group normalises the result once more.
 *
 * For which hosts that makes no difference.
 */
module HostKeys {
  import opened Text
  import opened ServerNames
  import opened ListenPorts
  import opened ServerSelector

  lemma KeyNoLonger(host: string)
    ensures |Key(host)| <= |Trim(host)| <= |host|
  {
    hide Lower;
  }

  /** A key is its own key exactly if it has no blank at its ends. */
  lemma KeyOfKey(host: string)
    ensures Key(Key(host)) == Key(host) <==> Trim(Key(host)) == Key(host)
  {
    NormalizeIdempotent(Trim(host));
    KeyNoLonger(Key(host));
    var k := Key(host);
    if Key(k) == k { assert |Trim(k)| == |k|; }
    if |Trim(k)| == |k| { TrimWhole(k); }
  }

  lemma TrimWhole(s: string)
    requires |Trim(s)| == |s|
    ensures Trim(s) == s
  {
    hide TrimEnd, TrimStart;
    assert |TrimStart(s)| == |s|;
  }

  // ----- two sites that tell two keys apart -----

  /** An engine that finds every pattern in this host and in no other. */
  function FindsOnly(key: string): Engine {
    Engine((insensitive, expr) => true, (insensitive, expr, host) => host == key)
  }

  function Named(id: string, name: string): Server {
    Server(id, true, false, [name], [Any])
  }

  function Fallback(id: string): Server {
    Server(id, true, true, [], [Any])
  }

  lemma TwoSites(a: string, b: string, name: string, engine: Engine)
    ensures var sites := [Named(a, name), Fallback(b)];
            && ServersAt(sites, Any) == sites && DefaultIds(sites) == [b]
            && EntriesOf(sites, engine) == [Entry(a, Classify(Unquote(name), engine))]
  {
    hide Classify, Unquote;
    var sites := [Named(a, name), Fallback(b)];
    assert sites[..1] == [Named(a, name)] && sites[..1][..0] == [] && [name][..0] == [];
    assert EntriesOfNames(a, [name], engine) == [] + [Entry(a, Classify(Unquote(name), engine))];
    assert EntriesOf(sites[..1], engine) == [] + EntriesOfNames(a, [name], engine);
    assert EntriesOf(sites, engine) == EntriesOf(sites[..1], engine) + EntriesOfNames(b, [], engine);
    assert ServersAt(sites[..1], Any) == [] + [Named(a, name)];
    assert DefaultIds(sites[..1]) == [] + [];
  }

  lemma PatternName(key: string)
    ensures Classify(Unquote("~x"), FindsOnly(key)) == Pattern(false, "x")
  {
    var raw := "~x";
    assert raw[0] == '~' && raw[1] == 'x' && Unquote(raw) == raw && raw[1..] == "x";
    assert "x"[1..] == "" && JavaGroups("") == "" && JavaGroups("x") == "x";
  }

  lemma TellsApart(k: string, m: string) returns (sites: seq<Server>)
    requires k != m
    ensures Choice(ServersAt(sites, Any), k, FindsOnly(k)) != Choice(ServersAt(sites, Any), m, FindsOnly(k))
  {
    hide BestTier, Choice, Classify, Unquote, EntriesOf, ServersAt, DefaultIds;
    var engine := FindsOnly(k);
    sites := [Named("a", "~x"), Fallback("b")];
    TwoSites("a", "b", "~x", engine);
    PatternName(k);
    var e := Entry("a", Pattern(false, "x"));
    assert EntriesOf(sites, engine) == [e] && e in [e];
    ChoiceIsUnbeaten(sites, k, engine);
    ChoiceIsUnbeaten(sites, m, engine);
    assert IsCovered([e], k, engine) && !IsCovered([e], m, engine);
    assert "b" in Defaults(sites);
    assert "b" !in Choice(sites, k, engine);
  }

  /**
   * A group asked under the selector's key answers for that key, whatever the sites and their patterns are, exactly if
   * the key has no blank at its ends.
   */
  lemma GroupsAnswerForTheKey(host: string)
    ensures (forall servers, l, engine ::
               ChoiceAt(servers, l, Key(host), engine) == Choice(ServersAt(servers, l), Key(host), engine))
       <==> Trim(Key(host)) == Key(host)
  {
    hide Trim, Normalize, Key, Choice, ServersAt;
    KeyOfKey(host);
    var k, m := Key(host), Key(Key(host));
    if k != m {
      var sites := TellsApart(k, m);
      assert ChoiceAt(sites, Any, k, FindsOnly(k)) == Choice(ServersAt(sites, Any), m, FindsOnly(k));
    }
  }

  /** A host with a blank in front of its last dot: the selector's key keeps the blank, the group's does not. */
  lemma BlankBeforeDot(c: char)
    requires 'a' <= c <= 'z'
    ensures Key([c, ' ', '.']) == [c, ' '] && Key([c, ' ']) == [c]
  {
    var s, t := [c, ' ', '.'], [c, ' '];
    assert TrimStart(s) == s && TrimEnd(s) == s && TrimStart(t) == t;
    assert t[..1] == [c] && TrimEnd([c]) == [c] && TrimEnd(t) == [c];
    assert Lower([]) == [] && Lower(['.']) == ['.'] && s[1..] == [' ', '.'] && [' ', '.'][1..] == ['.'];
    assert Lower([' ', '.']) == [' ', '.'] && Lower(s) == s;
    assert [c][1..] == [] && Lower([c]) == [c];
    assert s[..2] == t && StripDots(s) == StripDots(t) == t && StripDots([c]) == [c];
  }
}
