/** HttpServerSelector: how one word of server_name is read, and which of two matching names nginx prefers. */
module ServerNames {
  import opened Text

  /** The regular expressions are the engine's business: which compile, and which occur in a host. */
  datatype Engine = Engine(compiles: (bool, string) -> bool, finds: (bool, string, string) -> bool)

  /** part of a leading wildcard starts with a dot, part of a trailing one ends with it. */
  datatype Form =
    | Exact(name: string)
    | Head(part: string, coversBare: bool)
    | Tail(part: string)
    | Pattern(insensitive: bool, expr: string)
    | Ignored

  predicate StartsWith(s: string, p: string) {
    p <= s
  }

  predicate EndsWith(s: string, p: string) {
    |p| <= |s| && s[|s| - |p|..] == p
  }

  function LowerChar(c: char): char {
    if 'A' <= c <= 'Z' then c - 'A' + 'a' else c
  }

  function Lower(s: string): (r: string)
    ensures |r| == |s|
  {
    if s == "" then "" else [LowerChar(s[0])] + Lower(s[1..])
  }

  function StripDots(s: string): (r: string)
    ensures r <= s && (s != "" ==> r != "")
    ensures |r| > 1 ==> r[|r| - 1] != '.'
    ensures |s| <= 1 || s[|s| - 1] != '.' ==> r == s
  {
    if |s| > 1 && s[|s| - 1] == '.' then StripDots(s[..|s| - 1]) else s
  }

  /** Lower case, trailing dots removed. */
  function Normalize(host: string): string {
    StripDots(Lower(host))
  }

  lemma {:induction false} LowerIdempotent(s: string)
    ensures Lower(Lower(s)) == Lower(s)
  {
    if s != "" {
      LowerIdempotent(s[1..]);
      assert Lower(s)[1..] == Lower(s[1..]);
    }
  }

  lemma {:induction false} LowerPrefix(s: string, n: nat)
    requires n <= |s|
    ensures Lower(s[..n]) == Lower(s)[..n]
  {
    if n > 0 {
      LowerPrefix(s[1..], n - 1);
      assert s[..n][1..] == s[1..][..n - 1];
    }
  }

  lemma NormalizeIdempotent(host: string)
    ensures Normalize(Normalize(host)) == Normalize(host)
  {
    var low := Lower(host);
    var r := StripDots(low);
    LowerPrefix(low, |r|);
    LowerIdempotent(host);
    assert r == low[..|r|];
  }

  function Unquote(name: string): string {
    if |name| >= 2 && name[0] == name[|name| - 1] && (name[0] == '"' || name[0] == '\'') then name[1..|name| - 1]
    else name
  }

  /** "(?P<" is written "(?<" in Java. */
  function JavaGroups(expr: string): string
    decreases |expr|
  {
    if expr == "" then ""
    else if "(?P<" <= expr then "(?<" + JavaGroups(expr[4..])
    else [expr[0]] + JavaGroups(expr[1..])
  }

  /** addName and addRegex. */
  function Classify(raw: string, engine: Engine): Form {
    if StartsWith(raw, "~") then
      var insensitive := StartsWith(raw, "~*");
      var expr := JavaGroups(raw[if insensitive then 2 else 1..]);
      if expr != "" && engine.compiles(insensitive, expr) then Pattern(insensitive, expr) else Ignored
    else if raw == "" || raw == "_" || '$' in raw then Ignored
    else
      var name := Normalize(raw);
      var star := IndexOf(name, '*', 0);
      if star.None? then
        if StartsWith(name, ".") then (if |name| > 1 then Head(name, true) else Ignored)
        else if name != "" then Exact(name) else Ignored
      else if IndexOf(name, '*', star.value + 1).Some? then Ignored
      else if StartsWith(name, "*.") && |name| > 2 then Head(name[1..], false)
      else if EndsWith(name, ".*") && |name| > 2 then Tail(name[..|name| - 1])
      else Ignored
  }

  /** The name covers this host. */
  predicate Covers(f: Form, host: string, engine: Engine) {
    match f
    case Exact(name) => name == host
    case Head(part, bare) => (EndsWith(host, part) && |host| > |part|) || (bare && part != "" && host == part[1..])
    case Tail(part) => StartsWith(host, part) && |host| > |part|
    case Pattern(insensitive, expr) => engine.finds(insensitive, expr, host)
    case Ignored => false
  }

  /** nginx's order of precedence, except among regular expressions, where the first in the configuration wins. */
  predicate Beats(f: Form, g: Form) {
    match f
    case Exact(_) => !g.Exact?
    case Head(part, _) => (g.Head? && |g.part| < |part|) || g.Tail? || g.Pattern? || g.Ignored?
    case Tail(part) => (g.Tail? && |g.part| < |part|) || g.Pattern? || g.Ignored?
    case Pattern(_, _) => g.Ignored?
    case Ignored => false
  }
}
