/** HttpServerSelector: which sites can answer for a host, as nginx chooses them. */
module ServerSelector {
  import opened Text
  import opened ServerNames
  import opened ListenPorts

  /** names: the words of server_name; listeners: what listenerGroups makes of the listen text. */
  datatype Server = Server(id: string, enabled: bool, def: bool, names: seq<string>, listeners: seq<Listener>)

  /** A server name with the site it belongs to, in configuration order. */
  datatype Entry = Entry(id: string, form: Form)

  // ----- what a group of servers on one end point knows -----

  function EntriesOfNames(id: string, names: seq<string>, engine: Engine): seq<Entry> {
    if names == [] then []
    else
      EntriesOfNames(id, names[..|names| - 1], engine) + [Entry(id, Classify(Unquote(names[|names| - 1]), engine))]
  }

  function EntriesOf(servers: seq<Server>, engine: Engine): seq<Entry> {
    if servers == [] then []
    else
      var s := servers[|servers| - 1];
      EntriesOf(servers[..|servers| - 1], engine) + if s.enabled then EntriesOfNames(s.id, s.names, engine) else []
  }

  function EnabledIds(servers: seq<Server>): seq<string> {
    if servers == [] then []
    else
      var s := servers[|servers| - 1];
      EnabledIds(servers[..|servers| - 1]) + if s.enabled then [s.id] else []
  }

  function DefaultIds(servers: seq<Server>): seq<string> {
    if servers == [] then []
    else
      var s := servers[|servers| - 1];
      DefaultIds(servers[..|servers| - 1]) + if s.enabled && s.def then [s.id] else []
  }

  function Defaults(servers: seq<Server>): seq<string> {
    var defs := DefaultIds(servers);
    var on := EnabledIds(servers);
    if defs != [] then defs else if on != [] then [on[0]] else []
  }

  /** The enabled sites marked as default; without one the first enabled site; no site if none is enabled. */
  ghost predicate AreDefaults(servers: seq<Server>, ids: seq<string>) {
    if exists s :: s in servers && s.enabled && s.def then
      forall id :: id in ids <==> exists s :: s in servers && s.enabled && s.def && s.id == id
    else if exists s :: s in servers && s.enabled then
      exists k | 0 <= k < |servers| :: servers[k].enabled && (forall j | 0 <= j < k :: !servers[j].enabled) &&
        ids == [servers[k].id]
    else ids == []
  }

  // ----- the choice, declaratively -----

  /** One level of precedence: the names that share it. */
  datatype Tier = ByExact | ByHead(length: nat) | ByTail(length: nat) | ByPattern(insensitive: bool, expr: string)

  predicate InTier(f: Form, tier: Tier, host: string, engine: Engine) {
    match tier
    case ByExact => f.Exact? && f.name == host
    case ByHead(n) => f.Head? && Covers(f, host, engine) && |f.part| == n
    case ByTail(n) => f.Tail? && Covers(f, host, engine) && |f.part| == n
    case ByPattern(i, e) => f == Pattern(i, e)
  }

  function IdsIn(es: seq<Entry>, tier: Tier, host: string, engine: Engine): (r: seq<string>)
    ensures Distinct(r)
    ensures forall id :: id in r <==> exists e :: e in es && e.id == id && InTier(e.form, tier, host, engine)
  {
    if es == [] then []
    else
      var init, last := es[..|es| - 1], es[|es| - 1];
      assert es == init + [last];
      var before := IdsIn(init, tier, host, engine);
      if InTier(last.form, tier, host, engine) then AddNew(before, last.id) else before
  }

  /** The length of the longest leading (trailing) wildcard that covers the host; -1 if none does. */
  function Longest(es: seq<Entry>, host: string, engine: Engine, head: bool): (r: int)
    ensures r >= -1
    ensures forall e | e in es && (if head then e.form.Head? else e.form.Tail?) && Covers(e.form, host, engine) ::
              |e.form.part| <= r
    ensures r >= 0 ==>
              exists e ::
                && e in es && (if head then e.form.Head? else e.form.Tail?) && Covers(e.form, host, engine)
                && |e.form.part| == r
  {
    if es == [] then -1
    else
      var init, last := es[..|es| - 1], es[|es| - 1];
      assert es == init + [last];
      var before := Longest(init, host, engine, head);
      if (if head then last.form.Head? else last.form.Tail?) && Covers(last.form, host, engine) &&
        |last.form.part| > before
      then |last.form.part| else before
  }

  /** The first regular expression in the configuration that occurs in the host. */
  function FirstPattern(es: seq<Entry>, host: string, engine: Engine): (r: Option<Form>)
    ensures r.Some? ==> r.value.Pattern? && Covers(r.value, host, engine) && exists e :: e in es && e.form == r.value
    ensures r.None? ==> forall e | e in es && e.form.Pattern? :: !Covers(e.form, host, engine)
  {
    if es == [] then None
    else
      assert es == [es[0]] + es[1..];
      if es[0].form.Pattern? && Covers(es[0].form, host, engine) then Some(es[0].form)
      else FirstPattern(es[1..], host, engine)
  }

  /** The first tier with a covering name; None if no name covers the host. */
  function BestTier(es: seq<Entry>, host: string, engine: Engine): Option<Tier> {
    var head, tail := Longest(es, host, engine, true), Longest(es, host, engine, false);
    var first := FirstPattern(es, host, engine);
    if IdsIn(es, ByExact, host, engine) != [] then Some(ByExact)
    else if head >= 0 then Some(ByHead(head))
    else if tail >= 0 then Some(ByTail(tail))
    else if first.Some? then Some(ByPattern(first.value.insensitive, first.value.expr))
    else None
  }

  /** The sites of one end point that nginx can choose for the host. */
  function Choice(servers: seq<Server>, host: string, engine: Engine): seq<string> {
    var es := EntriesOf(servers, engine);
    match BestTier(es, host, engine)
    case Some(tier) => IdsIn(es, tier, host, engine)
    case None => Defaults(servers)
  }

  predicate IsCovered(es: seq<Entry>, host: string, engine: Engine) {
    exists e :: e in es && Covers(e.form, host, engine)
  }

  /** The entry covers the host and no other covering entry takes precedence over it. */
  predicate Unbeaten(es: seq<Entry>, e: Entry, host: string, engine: Engine) {
    && e in es && Covers(e.form, host, engine)
    && (forall f :: f in es && Covers(f.form, host, engine) ==> !Beats(f.form, e.form))
    && (e.form.Pattern? ==> FirstPattern(es, host, engine) == Some(e.form))
  }

  lemma ExactTier(es: seq<Entry>, host: string, engine: Engine)
    ensures IdsIn(es, ByExact, host, engine) != [] <==>
              exists e :: e in es && e.form.Exact? && Covers(e.form, host, engine)
  {
    var ids := IdsIn(es, ByExact, host, engine);
    if ids != [] { assert ids[0] in ids; }
    forall e | e in es && e.form.Exact? && Covers(e.form, host, engine) ensures e.id in ids {
      assert InTier(e.form, ByExact, host, engine);
    }
  }

  lemma BestTierCovers(es: seq<Entry>, host: string, engine: Engine)
    ensures BestTier(es, host, engine).Some? <==> IsCovered(es, host, engine)
  {
    ExactTier(es, host, engine);
  }

  /** The entries of the best tier are the covering entries that no covering entry beats. */
  lemma BestTierIsUnbeaten(es: seq<Entry>, host: string, engine: Engine, e: Entry)
    requires BestTier(es, host, engine).Some? && e in es
    ensures InTier(e.form, BestTier(es, host, engine).value, host, engine) <==> Unbeaten(es, e, host, engine)
  {
    ExactTier(es, host, engine);
    match BestTier(es, host, engine).value
    case ByExact =>
    case ByHead(n) =>
      assert exists f :: f in es && f.form.Head? && Covers(f.form, host, engine) && |f.form.part| == n;
    case ByTail(n) =>
      assert exists f :: f in es && f.form.Tail? && Covers(f.form, host, engine) && |f.form.part| == n;
    case ByPattern(_, _) =>
  }

  lemma {:induction false} DefaultIdsAre(servers: seq<Server>)
    ensures forall id :: id in DefaultIds(servers) <==> exists s :: s in servers && s.enabled && s.def && s.id == id
  {
    if servers != [] {
      DefaultIdsAre(servers[..|servers| - 1]);
      assert servers == servers[..|servers| - 1] + [servers[|servers| - 1]];
    }
  }

  lemma {:induction false} FirstEnabled(servers: seq<Server>) returns (k: nat)
    ensures if EnabledIds(servers) == [] then forall s | s in servers :: !s.enabled
            else k < |servers| && servers[k].enabled && (forall j | 0 <= j < k :: !servers[j].enabled) &&
                 EnabledIds(servers)[0] == servers[k].id
  {
    k := 0;
    if servers != [] {
      var init, last := servers[..|servers| - 1], servers[|servers| - 1];
      k := FirstEnabled(init);
      assert servers == init + [last];
      if EnabledIds(init) == [] {
        forall j | 0 <= j < |init| ensures !servers[j].enabled { assert servers[j] in init; }
        if last.enabled { k := |init|; }
      } else {
        assert forall j :: 0 <= j <= k ==> servers[j] == init[j];
      }
    }
  }

  lemma DefaultsAre(servers: seq<Server>)
    ensures AreDefaults(servers, Defaults(servers))
  {
    hide DefaultIds, EnabledIds;
    DefaultIdsAre(servers);
    var k := FirstEnabled(servers);
    var defs := DefaultIds(servers);
    if defs != [] { assert defs[0] in defs; }
    if s :| s in servers && s.enabled && s.def { assert s.id in defs; }
    if EnabledIds(servers) != [] { assert servers[k] in servers; }
  }

  /**
   * The choice is made of the sites with a name that covers the host and that no covering name beats; the
   * defaults answer only if no name covers the host.
   */
  lemma ChoiceIsUnbeaten(servers: seq<Server>, host: string, engine: Engine)
    ensures var es := EntriesOf(servers, engine);
            if IsCovered(es, host, engine)
            then forall id :: id in Choice(servers, host, engine) <==>
              exists e :: Unbeaten(es, e, host, engine) && e.id == id
            else AreDefaults(servers, Choice(servers, host, engine))
  {
    hide Defaults, AreDefaults;
    var es := EntriesOf(servers, engine);
    DefaultsAre(servers);
    BestTierCovers(es, host, engine);
    if IsCovered(es, host, engine) {
      forall e | e in es
        ensures InTier(e.form, BestTier(es, host, engine).value, host, engine) <==> Unbeaten(es, e, host, engine)
      {
        BestTierIsUnbeaten(es, host, engine, e);
      }
    }
  }

  // ----- a group of servers on one listen end point -----

  datatype Wildcard = Wildcard(part: string, id: string, coversBare: bool)
  datatype Regex = Regex(insensitive: bool, expr: string, id: string)

  function HeadsOf(es: seq<Entry>): seq<Wildcard> {
    if es == [] then []
    else
      var e := es[|es| - 1];
      HeadsOf(es[..|es| - 1]) + if e.form.Head? then [Wildcard(e.form.part, e.id, e.form.coversBare)] else []
  }

  function TailsOf(es: seq<Entry>): seq<Wildcard> {
    if es == [] then []
    else
      var e := es[|es| - 1];
      TailsOf(es[..|es| - 1]) + if e.form.Tail? then [Wildcard(e.form.part, e.id, false)] else []
  }

  function RegexesOf(es: seq<Entry>): seq<Regex> {
    if es == [] then []
    else
      var e := es[|es| - 1];
      RegexesOf(es[..|es| - 1]) + if e.form.Pattern? then [Regex(e.form.insensitive, e.form.expr, e.id)] else []
  }

  /** The name map holds, for every name, the sites that carry it. */
  ghost predicate ExactIs(exact: map<string, seq<string>>, es: seq<Entry>, engine: Engine) {
    forall n: string ::
      (n in exact <==> IdsIn(es, ByExact, n, engine) != []) &&
        (n in exact ==> exact[n] == IdsIn(es, ByExact, n, engine))
  }

  lemma OneEntryMore(es: seq<Entry>, e: Entry)
    ensures (es + [e])[..|es|] == es && (es + [e])[|es|] == e
  {
  }

  lemma NoServers(engine: Engine)
    ensures EntriesOf([], engine) == [] && EnabledIds([]) == [] && DefaultIds([]) == []
  {
  }

  lemma OneMoreServer(all: seq<Server>, k: nat, engine: Engine)
    requires k < |all|
    ensures var s, before, after := all[k], all[..k], all[..k + 1];
            && EntriesOf(after, engine)
            == EntriesOf(before, engine) + (if s.enabled then EntriesOfNames(s.id, s.names, engine) else [])
            && EnabledIds(after) == EnabledIds(before) + (if s.enabled then [s.id] else [])
            && DefaultIds(after) == DefaultIds(before) + if s.enabled && s.def then [s.id] else []
  {
    hide EntriesOfNames;
    assert all[..k + 1][..k] == all[..k];
  }

  class ListenGroup {
    const engine: Engine
    ghost const servers: seq<Server>
    var exact: map<string, seq<string>>
    var heads: seq<Wildcard>
    var tails: seq<Wildcard>
    var regexes: seq<Regex>
    var defaultIds: seq<string>
    var cache: map<string, seq<string>>

    /** The indexes hold these entries. */
    ghost predicate Holds(es: seq<Entry>)
      reads this
    {
      ExactIs(exact, es, engine) && heads == HeadsOf(es) && tails == TailsOf(es) && regexes == RegexesOf(es)
    }

    /** Every cached answer is the answer. */
    ghost predicate Valid()
      reads this
    {
      && Holds(EntriesOf(servers, engine))
      && defaultIds == Defaults(servers)
      && forall h | h in cache :: cache[h] == Choice(servers, h, engine)
    }

    method AddName(raw: string, id: string, ghost es: seq<Entry>)
      requires Holds(es)
      modifies this`exact, this`heads, this`tails, this`regexes
      ensures Holds(es + [Entry(id, Classify(raw, engine))])
    {
      var form := Classify(raw, engine);
      OneEntryMore(es, Entry(id, form));
      match form
      case Exact(name) =>
        exact := exact[name := AddNew(if name in exact then exact[name] else [], id)];
      case Head(part, bare) => heads := heads + [Wildcard(part, id, bare)];
      case Tail(part) => tails := tails + [Wildcard(part, id, false)];
      case Pattern(insensitive, expr) => regexes := regexes + [Regex(insensitive, expr, id)];
      case Ignored =>
    }

    constructor (all: seq<Server>, regexEngine: Engine)
      ensures Valid() && servers == all && engine == regexEngine && cache == map[]
    {
      engine, servers := regexEngine, all;
      exact, heads, tails, regexes, defaultIds, cache := map[], [], [], [], [], map[];
      new;
      assert Holds([]);
      var ids := AddServers(all);
      defaultIds := ids;
    }

    /** The constructor's loop: the names of the enabled servers, and the default sites among them. */
    method AddServers(all: seq<Server>) returns (ids: seq<string>)
      requires Holds([])
      modifies this`exact, this`heads, this`tails, this`regexes
      ensures Holds(EntriesOf(all, engine)) && ids == Defaults(all)
    {
      hide EntriesOf, EnabledIds, DefaultIds, EntriesOfNames, ListenGroup.Holds;
      NoServers(engine);
      var first: Option<string> := None;
      var defs: seq<string> := [];
      ghost var es: seq<Entry> := [];
      for k := 0 to |all|
        invariant es == EntriesOf(all[..k], engine) && Holds(es)
        invariant defs == DefaultIds(all[..k])
        invariant first == if EnabledIds(all[..k]) == [] then None else Some(EnabledIds(all[..k])[0])
      {
        OneMoreServer(all, k, engine);
        var s := all[k];
        if s.enabled {
          if first.None? { first := Some(s.id); }
          if s.def { defs := defs + [s.id]; }
          AddNames(s.id, s.names, es);
          es := es + EntriesOfNames(s.id, s.names, engine);
        }
      }
      assert all[..|all|] == all;
      ids := if defs != [] then defs else if first.Some? then [first.value] else [];
    }

    method AddNames(id: string, names: seq<string>, ghost es: seq<Entry>)
      requires Holds(es)
      modifies this`exact, this`heads, this`tails, this`regexes
      ensures Holds(es + EntriesOfNames(id, names, engine))
    {
      hide Classify, Unquote, IdsIn, ExactIs;
      assert es + [] == es;
      for k := 0 to |names|
        invariant Holds(es + EntriesOfNames(id, names[..k], engine))
      {
        assert names[..k + 1][..k] == names[..k];
        AddName(Unquote(names[k]), id, es + EntriesOfNames(id, names[..k], engine));
        assert es + (EntriesOfNames(id, names[..k], engine) + [Entry(id, Classify(Unquote(names[k]), engine))])
            == es + EntriesOfNames(id, names[..k], engine) + [Entry(id, Classify(Unquote(names[k]), engine))];
      }
      assert names[..|names|] == names;
    }

    method Resolve(host: string) returns (r: seq<string>)
      requires Valid()
      ensures r == Choice(servers, host, engine)
    {
      ghost var es := EntriesOf(servers, engine);
      if host in exact { return exact[host]; }
      var wild := LongestOf(heads, host, true);
      WildcardsAre(es, host, engine, true);
      if wild != [] { return wild; }
      wild := LongestOf(tails, host, false);
      WildcardsAre(es, host, engine, false);
      if wild != [] { return wild; }
      var found := MatchRegexes(host, es);
      r := if found.Some? then found.value else defaultIds;
    }

    /** The sites of the first regular expression that occurs in the host, if one does. */
    method MatchRegexes(host: string, ghost es: seq<Entry>) returns (r: Option<seq<string>>)
      requires regexes == RegexesOf(es)
      ensures r == match FirstPattern(es, host, engine)
                   case None => None
                   case Some(f) => Some(IdsIn(es, ByPattern(f.insensitive, f.expr), host, engine))
    {
      FirstRegexIs(es, host, engine);
      for k := 0 to |regexes|
        invariant FirstRegex(regexes, host, engine) == FirstRegex(regexes[k..], host, engine)
      {
        var x := regexes[k];
        assert regexes[k..][0] == x && regexes[k..][1..] == regexes[k + 1..];
        if engine.finds(x.insensitive, x.expr, host) {
          var same: seq<string> := [];
          for j := 0 to |regexes|
            invariant same == SameRegex(regexes[..j], x.insensitive, x.expr)
          {
            assert regexes[..j + 1][..j] == regexes[..j];
            if regexes[j].insensitive == x.insensitive && regexes[j].expr == x.expr {
              same := AddNew(same, regexes[j].id);
            }
          }
          assert regexes[..|regexes|] == regexes;
          SameRegexIs(es, x.insensitive, x.expr, host, engine);
          return Some(same);
        }
      }
      r := None;
    }

    /** candidates: answered from the cache, or worked out and remembered. */
    method Candidates(host: string) returns (r: seq<string>)
      requires Valid()
      modifies this`cache
      ensures Valid()
      ensures r == Choice(servers, Normalize(Trim(host)), engine)
    {
      var key := Normalize(Trim(host));
      if key in cache { return cache[key]; }
      r := Resolve(key);
      cache := cache[key := r];
    }
  }

  // ----- the searches of Resolve -----

  predicate WildcardMatches(w: Wildcard, host: string, head: bool) {
    if head then (EndsWith(host, w.part) && |host| > |w.part|) || (w.coversBare && w.part != "" && host == w.part[1..])
    else StartsWith(host, w.part) && |host| > |w.part|
  }

  function LongestPart(ws: seq<Wildcard>, host: string, head: bool): (r: int)
    ensures r >= -1
  {
    if ws == [] then -1
    else
      var w := ws[|ws| - 1];
      var before := LongestPart(ws[..|ws| - 1], host, head);
      if WildcardMatches(w, host, head) && |w.part| > before then |w.part| else before
  }

  function IdsOfLength(ws: seq<Wildcard>, host: string, head: bool, n: int): seq<string> {
    if ws == [] then []
    else
      var w := ws[|ws| - 1];
      var before := IdsOfLength(ws[..|ws| - 1], host, head, n);
      if WildcardMatches(w, host, head) && |w.part| == n then AddNew(before, w.id) else before
  }

  lemma {:induction false} NoneLonger(ws: seq<Wildcard>, host: string, head: bool, n: int)
    requires LongestPart(ws, host, head) < n
    ensures IdsOfLength(ws, host, head, n) == []
  {
    if ws != [] { NoneLonger(ws[..|ws| - 1], host, head, n); }
  }

  /** longest: one pass that forgets what it has whenever a longer part matches. */
  method LongestOf(list: seq<Wildcard>, host: string, head: bool) returns (ids: seq<string>)
    ensures ids == IdsOfLength(list, host, head, LongestPart(list, host, head))
  {
    var best := -1;
    ids := [];
    for k := 0 to |list|
      invariant best == LongestPart(list[..k], host, head)
      invariant ids == IdsOfLength(list[..k], host, head, best)
    {
      assert list[..k + 1][..k] == list[..k];
      var w := list[k];
      if !WildcardMatches(w, host, head) || |w.part| < best { continue; }
      if |w.part| > best {
        NoneLonger(list[..k], host, head, |w.part|);
        best := |w.part|;
        ids := [];
      }
      ids := AddNew(ids, w.id);
    }
    assert list[..|list|] == list;
  }

  /** The wildcard lists answer as the entries do. */
  lemma {:induction false} WildcardsAre(es: seq<Entry>, host: string, engine: Engine, head: bool)
    ensures var ws := if head then HeadsOf(es) else TailsOf(es);
            var n := Longest(es, host, engine, head);
            && LongestPart(ws, host, head) == n
            && IdsOfLength(ws, host, head, n) ==
               (if n < 0 then [] else IdsIn(es, if head then ByHead(n) else ByTail(n), host, engine))
            && (n >= 0 ==> IdsOfLength(ws, host, head, n) != [])
  {
    WildcardLengths(es, host, engine, head);
    var n := Longest(es, host, engine, head);
    var ws := if head then HeadsOf(es) else TailsOf(es);
    if n >= 0 {
      WildcardIds(es, host, engine, head, n);
      var e :| e in es && (if head then e.form.Head? else e.form.Tail?) && Covers(e.form, host, engine) &&
        |e.form.part| == n;
      assert InTier(e.form, if head then ByHead(n) else ByTail(n), host, engine);
      assert e.id in IdsIn(es, if head then ByHead(n) else ByTail(n), host, engine);
    } else {
      NoNegative(ws, host, head, n);
    }
  }

  lemma {:induction false} NoNegative(ws: seq<Wildcard>, host: string, head: bool, n: int)
    requires n < 0
    ensures IdsOfLength(ws, host, head, n) == []
  {
    if ws != [] { NoNegative(ws[..|ws| - 1], host, head, n); }
  }

  lemma {:induction false} WildcardLengths(es: seq<Entry>, host: string, engine: Engine, head: bool)
    ensures LongestPart(if head then HeadsOf(es) else TailsOf(es), host, head) == Longest(es, host, engine, head)
  {
    if es != [] {
      WildcardLengths(es[..|es| - 1], host, engine, head);
      SnocWildcards(es, head);
    }
  }

  lemma {:induction false} WildcardIds(es: seq<Entry>, host: string, engine: Engine, head: bool, n: nat)
    ensures IdsOfLength(if head then HeadsOf(es) else TailsOf(es), host, head, n)
         == IdsIn(es, if head then ByHead(n) else ByTail(n), host, engine)
  {
    hide HeadsOf, TailsOf;
    if es != [] {
      WildcardIds(es[..|es| - 1], host, engine, head, n);
      SnocWildcards(es, head);
    } else {
      NoWildcards();
    }
  }

  lemma NoWildcards()
    ensures HeadsOf([]) == [] && TailsOf([]) == []
  {
  }

  /** The last entry adds at most one wildcard to the list of the others. */
  lemma SnocWildcards(es: seq<Entry>, head: bool)
    requires es != []
    ensures var ws, init := if head then HeadsOf(es) else TailsOf(es),
                            if head then HeadsOf(es[..|es| - 1]) else TailsOf(es[..|es| - 1]);
            var f := es[|es| - 1].form;
            if (if head then f.Head? else f.Tail?)
            then |ws| == |init| + 1 && ws[..|ws| - 1] == init &&
                 ws[|ws| - 1] == Wildcard(f.part, es[|es| - 1].id, head && f.coversBare)
            else ws == init
  {
  }

  function FirstRegex(rs: seq<Regex>, host: string, engine: Engine): Option<Regex> {
    if rs == [] then None
    else if engine.finds(rs[0].insensitive, rs[0].expr, host) then Some(rs[0])
    else FirstRegex(rs[1..], host, engine)
  }

  function SameRegex(rs: seq<Regex>, insensitive: bool, expr: string): seq<string> {
    if rs == [] then []
    else
      var x := rs[|rs| - 1];
      var before := SameRegex(rs[..|rs| - 1], insensitive, expr);
      if x.insensitive == insensitive && x.expr == expr then AddNew(before, x.id) else before
  }

  lemma {:induction false} RegexesCons(e: Entry, es: seq<Entry>)
    ensures RegexesOf([e] + es) ==
              (if e.form.Pattern? then [Regex(e.form.insensitive, e.form.expr, e.id)] else []) + RegexesOf(es)
  {
    var all := [e] + es;
    if es == [] {
      assert all[..0] == [];
    } else {
      RegexesCons(e, es[..|es| - 1]);
      assert all[..|all| - 1] == [e] + es[..|es| - 1];
    }
  }

  lemma {:induction false} FirstRegexIs(es: seq<Entry>, host: string, engine: Engine)
    ensures var x := FirstRegex(RegexesOf(es), host, engine);
            FirstPattern(es, host, engine) == if x.None? then None else Some(Pattern(x.value.insensitive, x.value.expr))
  {
    if es != [] {
      RegexesCons(es[0], es[1..]);
      assert es == [es[0]] + es[1..];
      FirstRegexIs(es[1..], host, engine);
      var rs, rest := RegexesOf(es), RegexesOf(es[1..]);
      if es[0].form.Pattern? { assert rs[1..] == rest; } else { assert rs == rest; }
    }
  }

  lemma {:induction false} SameRegexIs(es: seq<Entry>, insensitive: bool, expr: string, host: string, engine: Engine)
    ensures SameRegex(RegexesOf(es), insensitive, expr) == IdsIn(es, ByPattern(insensitive, expr), host, engine)
  {
    hide *;
    if es == [] {
      NoRegexes(insensitive, expr, host, engine);
    } else {
      var init, e := es[..|es| - 1], es[|es| - 1];
      SameRegexIs(init, insensitive, expr, host, engine);
      SameRegexSnoc(init, e, insensitive, expr, host, engine);
      assert es == init + [e];
    }
  }

  lemma NoRegexes(insensitive: bool, expr: string, host: string, engine: Engine)
    ensures SameRegex(RegexesOf([]), insensitive, expr) == [] == IdsIn([], ByPattern(insensitive, expr), host, engine)
  {
  }

  lemma SameRegexSnoc(es: seq<Entry>, e: Entry, insensitive: bool, expr: string, host: string, engine: Engine)
    requires SameRegex(RegexesOf(es), insensitive, expr) == IdsIn(es, ByPattern(insensitive, expr), host, engine)
    ensures SameRegex(RegexesOf(es + [e]), insensitive, expr) ==
              IdsIn(es + [e], ByPattern(insensitive, expr), host, engine)
  {
    hide RegexesOf, SameRegex, IdsIn, Covers, AddNew, Distinct;
    RegexesMore(es, e);
    IdsInMore(es, e, ByPattern(insensitive, expr), host, engine);
    if e.form.Pattern? {
      SameRegexMore(RegexesOf(es), Regex(e.form.insensitive, e.form.expr, e.id), insensitive, expr);
    }
  }

  lemma RegexesMore(es: seq<Entry>, e: Entry)
    ensures RegexesOf(es + [e])
         == if e.form.Pattern? then RegexesOf(es) + [Regex(e.form.insensitive, e.form.expr, e.id)] else RegexesOf(es)
  {
    assert (es + [e])[..|es|] == es;
  }

  lemma IdsInMore(es: seq<Entry>, e: Entry, tier: Tier, host: string, engine: Engine)
    ensures IdsIn(es + [e], tier, host, engine) ==
              var before := IdsIn(es, tier, host, engine);
              if InTier(e.form, tier, host, engine) then AddNew(before, e.id) else before
  {
    assert (es + [e])[..|es|] == es;
  }

  lemma SameRegexMore(rs: seq<Regex>, x: Regex, insensitive: bool, expr: string)
    ensures SameRegex(rs + [x], insensitive, expr) ==
              var before := SameRegex(rs, insensitive, expr);
              if x.insensitive == insensitive && x.expr == expr then AddNew(before, x.id) else before
  {
    assert (rs + [x])[..|rs|] == rs;
  }

  // ----- all end points together -----

  function Listeners(servers: seq<Server>): (r: seq<Listener>)
    ensures Distinct(r)
    ensures forall l :: l in r <==> exists s :: s in servers && s.enabled && l in s.listeners
  {
    if servers == [] then []
    else
      var init, last := servers[..|servers| - 1], servers[|servers| - 1];
      assert servers == init + [last];
      if last.enabled then AddEach(Listeners(init), last.listeners) else Listeners(init)
  }

  /** The enabled servers on one end point. */
  function ServersAt(servers: seq<Server>, l: Listener): seq<Server> {
    if servers == [] then []
    else
      var s := servers[|servers| - 1];
      ServersAt(servers[..|servers| - 1], l) + if s.enabled && l in s.listeners then [s] else []
  }

  function ServerOrder(servers: seq<Server>): (r: seq<string>)
    ensures Distinct(r) && forall id :: id in r <==> id in EnabledIds(servers)
  {
    if servers == [] then []
    else
      var s := servers[|servers| - 1];
      var before := ServerOrder(servers[..|servers| - 1]);
      if s.enabled then AddNew(before, s.id) else before
  }

  function Key(host: string): string {
    Normalize(Trim(host))
  }

  /** A group normalises the host once more. */
  function ChoiceAt(servers: seq<Server>, l: Listener, key: string, engine: Engine): seq<string> {
    Choice(ServersAt(servers, l), Key(key), engine)
  }

  predicate CanAnswer(servers: seq<Server>, ls: seq<Listener>, key: string, engine: Engine, id: string) {
    exists l :: l in ls && id in ChoiceAt(servers, l, key, engine)
  }

  /** The sites of some end point's choice, in configuration order. */
  function Answer(servers: seq<Server>, order: seq<string>, key: string, engine: Engine): seq<string> {
    if order == [] then []
    else
      var id := order[|order| - 1];
      Answer(servers, order[..|order| - 1], key, engine) +
      if CanAnswer(servers, Listeners(servers), key, engine, id) then [id] else []
  }

  /** For every end point, its enabled servers in order. */
  function GroupMap(keys: seq<Listener>, servers: seq<Server>): map<Listener, seq<Server>> {
    map l | l in keys :: ServersAt(servers, l)
  }

  /** The same while server s is being added, to the end points in `done` so far. */
  function PartMap(keys: seq<Listener>, servers: seq<Server>, s: Server, done: seq<Listener>)
    : map<Listener, seq<Server>>
  {
    map l | l in keys :: ServersAt(servers, l) + if l in done then [s] else []
  }

  lemma {:induction false} NoneAt(servers: seq<Server>, l: Listener)
    requires l !in Listeners(servers)
    ensures ServersAt(servers, l) == []
  {
    if servers != [] {
      var init, last := servers[..|servers| - 1], servers[|servers| - 1];
      assert servers == init + [last] && last in servers;
      assert forall s :: s in init ==> s in servers;
      NoneAt(init, l);
    }
  }

  lemma AddOne(keys: seq<Listener>, servers: seq<Server>, s: Server, done: seq<Listener>, l: Listener)
    requires l !in done && (l in Listeners(servers) ==> l in keys)
    ensures var m := PartMap(keys, servers, s, done);
            m[l := (if l in m then m[l] else []) + [s]] == PartMap(AddNew(keys, l), servers, s, done + [l])
  {
    if l !in keys { NoneAt(servers, l); }
    hide Listeners, ServersAt, Distinct;
    assert ServersAt(servers, l) + [] == ServersAt(servers, l);
    assert forall x :: x in done + [l] <==> x in done || x == l;
  }

  lemma StartAdding(keys: seq<Listener>, servers: seq<Server>, s: Server)
    ensures PartMap(keys, servers, s, []) == GroupMap(keys, servers)
  {
    assert forall l :: ServersAt(servers, l) + [] == ServersAt(servers, l);
  }

  lemma AllAdded(keys: seq<Listener>, servers: seq<Server>, s: Server)
    requires s.enabled
    ensures PartMap(keys, servers, s, s.listeners) == GroupMap(keys, servers + [s])
  {
    assert (servers + [s])[..|servers|] == servers;
  }

  lemma GroupsSkip(keys: seq<Listener>, servers: seq<Server>, s: Server)
    requires !s.enabled
    ensures GroupMap(keys, servers) == GroupMap(keys, servers + [s])
  {
    assert (servers + [s])[..|servers|] == servers;
    assert forall l :: ServersAt(servers, l) + [] == ServersAt(servers, l);
  }

  ghost predicate GroupOk(g: ListenGroup, engine: Engine, servers: seq<Server>, l: Listener)
    reads g
  {
    g.Valid() && g.engine == engine && g.servers == ServersAt(servers, l)
  }

  class HttpServerSelector {
    const engine: Engine
    ghost const servers: seq<Server>
    ghost const listeners: seq<Listener>
    const listenGroups: seq<ListenGroup>
    const serverOrder: seq<string>
    var cache: map<string, seq<string>>

    ghost predicate Valid()
      reads this, set g | g in listenGroups
    {
      && listeners == Listeners(servers) && serverOrder == ServerOrder(servers)
      && |listenGroups| == |listeners|
      && (forall k | 0 <= k < |listenGroups| :: GroupOk(listenGroups[k], engine, servers, listeners[k]))
      && forall h | h in cache :: cache[h] == Answer(servers, serverOrder, h, engine)
    }

    constructor (all: seq<Server>, regexEngine: Engine)
      requires forall s | s in all :: Distinct(s.listeners)
      ensures Valid() && servers == all && engine == regexEngine
    {
      var order, keys, groups := GroupServers(all);
      var made: seq<ListenGroup> := [];
      for k := 0 to |keys|
        invariant |made| == k
        invariant forall j | 0 <= j < k :: GroupOk(made[j], regexEngine, all, keys[j])
      {
        var g := new ListenGroup(groups[keys[k]], regexEngine);
        made := made + [g];
      }
      engine, servers, listeners, listenGroups, serverOrder, cache := regexEngine, all, keys, made, order, map[];
    }

    static method GroupServers(all: seq<Server>)
      returns (order: seq<string>, keys: seq<Listener>, groups: map<Listener, seq<Server>>)
      requires forall s | s in all :: Distinct(s.listeners)
      ensures order == ServerOrder(all) && keys == Listeners(all) && groups == GroupMap(keys, all)
    {
      order, keys, groups := [], [], map[];
      for k := 0 to |all|
        invariant order == ServerOrder(all[..k]) && keys == Listeners(all[..k]) && groups == GroupMap(keys, all[..k])
      {
        assert all[..k + 1][..k] == all[..k] && all[..k + 1] == all[..k] + [all[k]] && all[k] in all;
        var s := all[k];
        if s.enabled {
          order := AddNew(order, s.id);
          keys, groups := AddToGroups(s, keys, groups, all[..k]);
        } else {
          GroupsSkip(keys, all[..k], s);
        }
      }
      assert all[..|all|] == all;
    }

    /** computeIfAbsent(...).add(server) for each of its end points. */
    static method AddToGroups(s: Server, keys: seq<Listener>, groups: map<Listener, seq<Server>>,
      ghost before: seq<Server>)
      returns (keys': seq<Listener>, groups': map<Listener, seq<Server>>)
      requires s.enabled && Distinct(s.listeners) && keys == Listeners(before) && groups == GroupMap(keys, before)
      ensures keys' == AddEach(keys, s.listeners) && groups' == GroupMap(keys', before + [s])
    {
      keys', groups' := keys, groups;
      StartAdding(keys, before, s);
      var ls := s.listeners;
      for k := 0 to |ls|
        invariant keys' == AddEach(keys, ls[..k]) && groups' == PartMap(keys', before, s, ls[..k])
      {
        assert ls[..k + 1][..k] == ls[..k] && ls[..k + 1] == ls[..k] + [ls[k]];
        var l := ls[k];
        AddOne(keys', before, s, ls[..k], l);
        groups' := groups'[l := (if l in groups' then groups'[l] else []) + [s]];
        keys' := AddNew(keys', l);
      }
      assert ls[..|ls|] == ls;
      AllAdded(keys', before, s);
    }

    /** candidates; None stands for a null host. */
    method Candidates(host: Option<string>) returns (r: seq<string>)
      requires Valid()
      modifies this`cache, set g | g in listenGroups
      ensures Valid()
      ensures r == if host.None? then [] else Answer(servers, serverOrder, Key(host.value), engine)
    {
      if host.None? { return []; }
      var key := Key(host.value);
      if listenGroups == [] {
        NoGroups(servers, serverOrder, key, engine);
        return [];
      }
      if key in cache { return cache[key]; }
      var possible := Possible(key);
      r := Filter(possible, key);
      cache := cache[key := r];
    }

    /** The union of the groups' candidates. */
    method Possible(key: string) returns (possible: set<string>)
      requires Valid()
      modifies set g | g in listenGroups
      ensures Valid()
      ensures forall id :: id in possible <==> CanAnswer(servers, listeners, key, engine, id)
    {
      hide ChoiceAt;
      possible := {};
      for k := 0 to |listenGroups|
        invariant Valid()
        invariant forall id :: id in possible <==> CanAnswer(servers, listeners[..k], key, engine, id)
      {
        var ids := Ask(k, key);
        CanAnswerMore(servers, listeners[..k], listeners[k], key, engine);
        assert listeners[..k + 1] == listeners[..k] + [listeners[k]];
        possible := possible + set id | id in ids;
      }
      assert listeners[..|listeners|] == listeners;
    }

    method Ask(k: nat, key: string) returns (ids: seq<string>)
      requires Valid() && k < |listenGroups|
      modifies set g | g in listenGroups
      ensures Valid() && ids == ChoiceAt(servers, listeners[k], key, engine)
    {
      assert GroupOk(listenGroups[k], engine, servers, listeners[k]);
      ids := listenGroups[k].Candidates(key);
    }

    /** The possible sites in configuration order. */
    method Filter(possible: set<string>, key: string) returns (r: seq<string>)
      requires Valid() && forall id :: id in possible <==> CanAnswer(servers, listeners, key, engine, id)
      ensures r == Answer(servers, serverOrder, key, engine)
    {
      assert listeners == Listeners(servers);
      hide HttpServerSelector.Valid, CanAnswer;
      r := [];
      for k := 0 to |serverOrder|
        invariant r == Answer(servers, serverOrder[..k], key, engine)
      {
        assert serverOrder[..k + 1][..k] == serverOrder[..k];
        if serverOrder[k] in possible { r := r + [serverOrder[k]]; }
      }
      assert serverOrder[..|serverOrder|] == serverOrder;
    }
  }

  lemma CanAnswerMore(servers: seq<Server>, ls: seq<Listener>, l: Listener, key: string, engine: Engine)
    ensures forall id :: CanAnswer(servers, ls + [l], key, engine, id) <==>
                         CanAnswer(servers, ls, key, engine, id) || id in ChoiceAt(servers, l, key, engine)
  {
    assert l in ls + [l];
    assert forall x :: x in ls ==> x in ls + [l];
  }

  lemma {:induction false} NoGroups(servers: seq<Server>, order: seq<string>, key: string, engine: Engine)
    requires Listeners(servers) == []
    ensures Answer(servers, order, key, engine) == []
  {
    if order != [] { NoGroups(servers, order[..|order| - 1], key, engine); }
  }

  // ----- what the answer is -----

  lemma {:induction false} AnswerMembers(servers: seq<Server>, order: seq<string>, key: string, engine: Engine)
    requires Distinct(order)
    ensures Distinct(Answer(servers, order, key, engine))
    ensures forall id :: id in Answer(servers, order, key, engine) <==>
              id in order && CanAnswer(servers, Listeners(servers), key, engine, id)
  {
    if order != [] {
      var init, last := order[..|order| - 1], order[|order| - 1];
      AnswerMembers(servers, init, key, engine);
      assert order == init + [last] && last !in init;
    }
  }

  lemma {:induction false} EnabledIdsAre(servers: seq<Server>, id: string)
    ensures id in EnabledIds(servers) <==> exists s :: s in servers && s.enabled && s.id == id
  {
    if servers != [] {
      EnabledIdsAre(servers[..|servers| - 1], id);
      assert servers == servers[..|servers| - 1] + [servers[|servers| - 1]];
    }
  }

  lemma {:induction false} ServersAtAre(servers: seq<Server>, l: Listener, s: Server)
    ensures s in ServersAt(servers, l) <==> s in servers && s.enabled && l in s.listeners
  {
    if servers != [] {
      ServersAtAre(servers[..|servers| - 1], l, s);
      assert servers == servers[..|servers| - 1] + [servers[|servers| - 1]];
    }
  }

  lemma {:induction false} EntriesOfNamesId(id: string, names: seq<string>, engine: Engine, e: Entry)
    ensures e in EntriesOfNames(id, names, engine) ==> e.id == id
  {
    if names != [] { EntriesOfNamesId(id, names[..|names| - 1], engine, e); }
  }

  lemma {:induction false} EntriesAreEnabled(servers: seq<Server>, engine: Engine, e: Entry)
    ensures e in EntriesOf(servers, engine) ==> e.id in EnabledIds(servers)
  {
    if servers != [] {
      var s := servers[|servers| - 1];
      EntriesAreEnabled(servers[..|servers| - 1], engine, e);
      EntriesOfNamesId(s.id, s.names, engine, e);
    }
  }

  lemma {:induction false} DefaultsAreEnabled(servers: seq<Server>)
    ensures forall id | id in DefaultIds(servers) :: id in EnabledIds(servers)
  {
    if servers != [] { DefaultsAreEnabled(servers[..|servers| - 1]); }
  }

  /** A group with an enabled server always has a choice, and only among its enabled servers. */
  lemma ChoiceIsEnabled(servers: seq<Server>, host: string, engine: Engine)
    ensures forall id | id in Choice(servers, host, engine) :: id in EnabledIds(servers)
    ensures EnabledIds(servers) != [] ==> Choice(servers, host, engine) != []
  {
    var es := EntriesOf(servers, engine);
    BestTierCovers(es, host, engine);
    DefaultsAreEnabled(servers);
    if IsCovered(es, host, engine) {
      forall e | e in es ensures e.id in EnabledIds(servers) { EntriesAreEnabled(servers, engine, e); }
      TierNotEmpty(es, host, engine);
    }
  }

  lemma TierNotEmpty(es: seq<Entry>, host: string, engine: Engine)
    requires BestTier(es, host, engine).Some?
    ensures IdsIn(es, BestTier(es, host, engine).value, host, engine) != []
  {
    var tier := BestTier(es, host, engine).value;
    var ids := IdsIn(es, tier, host, engine);
    match tier
    case ByExact =>
    case ByHead(n) =>
      var e :| e in es && e.form.Head? && Covers(e.form, host, engine) && |e.form.part| == n;
      assert InTier(e.form, tier, host, engine) && e.id in ids;
    case ByTail(n) =>
      var e :| e in es && e.form.Tail? && Covers(e.form, host, engine) && |e.form.part| == n;
      assert InTier(e.form, tier, host, engine) && e.id in ids;
    case ByPattern(i, x) =>
      var e :| e in es && e.form == Pattern(i, x);
      assert InTier(e.form, tier, host, engine) && e.id in ids;
  }

  /** The answer names enabled sites only, none twice, and it is empty exactly if no site is enabled. */
  lemma AnswerNeverEmpty(servers: seq<Server>, key: string, engine: Engine)
    requires forall s | s in servers :: s.listeners != []
    ensures var r := Answer(servers, ServerOrder(servers), key, engine);
            && Distinct(r)
            && (forall id | id in r :: exists s :: s in servers && s.enabled && s.id == id)
            && (r == [] <==> forall s :: s in servers ==> !s.enabled)
  {
    var order := ServerOrder(servers);
    var r := Answer(servers, order, key, engine);
    AnswerMembers(servers, order, key, engine);
    forall id ensures id in EnabledIds(servers) <==> exists s :: s in servers && s.enabled && s.id == id {
      EnabledIdsAre(servers, id);
    }
    if s :| s in servers && s.enabled {
      var l := s.listeners[0];
      var here := ServersAt(servers, l);
      ServersAtAre(servers, l, s);
      EnabledIdsAre(here, s.id);
      ChoiceIsEnabled(here, Key(key), engine);
      var id := ChoiceAt(servers, l, key, engine)[0];
      EnabledIdsAre(here, id);
      var t :| t in here && t.enabled && t.id == id;
      ServersAtAre(servers, l, t);
      assert l in Listeners(servers) && CanAnswer(servers, Listeners(servers), key, engine, id);
      assert id in r;
    } else {
      assert r != [] ==> r[0] in r;
    }
  }
}
