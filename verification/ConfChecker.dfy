/**
 * NginxConfChecker: a scanner that knows only a stack of block names, and the tree of directives it stands for.
 */
module ConfChecker {
  import opened Text

  // ----- the documentation -----

  datatype Definition = Definition(mod: string, contexts: seq<string>)

  datatype Corpus = Corpus(definitions: string -> seq<Definition>, hints: string -> seq<string>)

  const DIRECTIVE_BLOCKS := {"http", "server", "location", "upstream", "stream", "events", "mail", "limit_except", "if",
                             "mgmt", "oidc_provider", "acme_issuer"}
  const FAMILIES := ["http", "stream", "mail"]
  const OPAQUE := "opaque"
  const ANY := "any"
  const MAIN := "main"

  datatype Problem =
    | Unknown(line: nat, name: string, hints: seq<string>)
    | Misplaced(line: nat, name: string, family: Option<string>, context: string, known: seq<Definition>)

  // ----- the shape of a line -----

  /** Java's \s. */
  predicate IsBlank(c: char) {
    c == ' ' || '\t' <= c <= '\r'
  }

  function Upto(s: string, stop: char -> bool): string {
    if s == "" || stop(s[0]) then "" else [s[0]] + Upto(s[1..], stop)
  }

  /** line.split("[\\s{;]", 2)[0]. */
  function FirstWord(line: string): string {
    Upto(line, c => IsBlank(c) || c == '{' || c == ';')
  }

  function SegmentWord(segment: string): string {
    Upto(Trim(segment), c => IsBlank(c) || c == ';')
  }

  predicate IsName(s: string) {
    s != "" && 'a' <= s[0] <= 'z' && forall c | c in s :: 'a' <= c <= 'z' || '0' <= c <= '9' || c == '_'
  }

  predicate EndsIn(s: string, c: char) {
    s != "" && s[|s| - 1] == c
  }

  /** stripComment: the position of the first # outside quotes, or the end. */
  function CommentStart(line: string, i: nat, quote: char): (e: nat)
    requires i <= |line|
    ensures i <= e <= |line|
    decreases |line| - i
  {
    if i == |line| then i
    else
      var c := line[i];
      if quote != '\0' && c == '\\' && i + 1 < |line| then CommentStart(line, i + 2, quote)
      else if quote != '\0' then CommentStart(line, i + 1, if c == quote then '\0' else quote)
      else if c == '"' || c == '\'' then CommentStart(line, i + 1, c)
      else if c == '#' then i
      else CommentStart(line, i + 1, quote)
  }

  method StripComment(line: string) returns (r: string)
    ensures r == line[..CommentStart(line, 0, '\0')]
  {
    var quote := '\0';
    var i := 0;
    while i < |line|
      invariant i <= |line| && CommentStart(line, 0, '\0') == CommentStart(line, i, quote)
    {
      var c := line[i];
      if quote != '\0' && c == '\\' && i + 1 < |line| {
        i := i + 1;
      } else if quote != '\0' {
        if c == quote { quote := '\0'; }
      } else if c == '"' || c == '\'' {
        quote := c;
      } else if c == '#' {
        return line[..i];
      }
      i := i + 1;
    }
    r := line;
  }

  /** What is left of a line without its comment and the blanks around it. */
  function Shown(line: string): string {
    Trim(line[..CommentStart(line, 0, '\0')])
  }

  // ----- the stack -----

  function BlockContext(name: string): string {
    if name in DIRECTIVE_BLOCKS then name else OPAQUE
  }

  function Pop(stack: seq<string>): seq<string> {
    if stack == [] then [] else stack[..|stack| - 1]
  }

  function Top(stack: seq<string>): string {
    if stack == [] then MAIN else stack[|stack| - 1]
  }

  function Family(stack: seq<string>): Option<string> {
    if stack != [] && stack[0] in FAMILIES then Some(stack[0]) else None
  }

  function ModuleFamilyIn(mod: string, families: seq<string>): Option<string> {
    if families == [] then None
    else if "ngx_" + families[0] + "_" <= mod then Some(families[0])
    else ModuleFamilyIn(mod, families[1..])
  }

  function ModuleFamily(mod: string): Option<string> {
    ModuleFamilyIn(mod, FAMILIES)
  }

  /** The names the documentation may use for the innermost block. */
  function AcceptedContexts(stack: seq<string>): seq<string> {
    if Top(stack) != "if" then [Top(stack)]
    else if Top(Pop(stack)) == "location" then ["if", "if in location"]
    else ["if"]
  }

  predicate Allows(d: Definition, family: Option<string>, accepted: seq<string>) {
    && (family.None? || ModuleFamily(d.mod).None? || ModuleFamily(d.mod) == family)
    && (ANY in d.contexts || exists c :: c in d.contexts && c in accepted)
  }

  function WithContexts(ds: seq<Definition>): seq<Definition> {
    if ds == [] then [] else (if ds[0].contexts == [] then [] else [ds[0]]) + WithContexts(ds[1..])
  }

  /** checkContext. */
  function ContextProblems(stack: seq<string>, corpus: Corpus, name: string, line: nat): seq<Problem> {
    if Top(stack) == OPAQUE || !IsName(name) then []
    else
      var known := WithContexts(corpus.definitions(name));
      if known == [] || exists d :: d in known && Allows(d, Family(stack), AcceptedContexts(stack)) then []
      else [Misplaced(line, name, Family(stack), Top(stack), known)]
  }

  /** A line that ends a directive. */
  function DirectiveProblems(stack: seq<string>, corpus: Corpus, name: string, line: nat): seq<Problem> {
    if Top(stack) == OPAQUE || !IsName(name) then []
    else if corpus.definitions(name) == [] then
      (if corpus.hints(name) == [] then [] else [Unknown(line, name, corpus.hints(name))])
    else ContextProblems(stack, corpus, name, line)
  }

  function SegmentWords(segments: seq<string>): seq<string> {
    if segments == [] then [] else [SegmentWord(segments[0])] + SegmentWords(segments[1..])
  }

  function ContextsOf(names: seq<string>): seq<string> {
    if names == [] then [] else [BlockContext(names[0])] + ContextsOf(names[1..])
  }

  /** pushBlocks. */
  function PushBlocks(stack: seq<string>, line: string, fallback: string): seq<string> {
    var names := SegmentWords(DropEmptyTail(Split(line, '{')));
    if '}' !in line && names != [] && forall n | n in names :: IsName(n) then stack + ContextsOf(names)
    else stack + [BlockContext(fallback)]
  }

  // ----- one line -----

  datatype State = State(stack: seq<string>, problems: seq<Problem>)

  /** Closing braces at the front of the line. */
  function Closers(stack: seq<string>, line: string): (seq<string>, string)
    decreases |line|
  {
    if "}" <= line then
      TrimNoLonger(line[1..]);
      Closers(Pop(stack), Trim(line[1..]))
    else (stack, line)
  }

  lemma TrimNoLonger(s: string)
    ensures |Trim(s)| <= |s|
  {
  }

  /** The rest of the line. */
  function Content(stack: seq<string>, line: string, n: nat, corpus: Corpus): State {
    var first := FirstWord(line);
    if line == "" then State(stack, [])
    else if EndsIn(line, '{') then State(PushBlocks(stack, line, first), ContextProblems(stack, corpus, first, n))
    else if '{' in line && '}' !in line then State(stack + [OPAQUE], ContextProblems(stack, corpus, first, n))
    else if !EndsIn(line, ';') then State(stack, [])
    else State(stack, DirectiveProblems(stack, corpus, first, n))
  }

  function Line(stack: seq<string>, shown: string, n: nat, corpus: Corpus): State {
    var c := Closers(stack, shown);
    Content(c.0, c.1, n, corpus)
  }

  /** Lines from number n on. */
  function Scan(stack: seq<string>, lines: seq<string>, n: nat, corpus: Corpus): State
    decreases |lines|
  {
    if lines == [] then State(stack, [])
    else
      var first := Line(stack, Shown(lines[0]), n, corpus);
      var rest := Scan(first.stack, lines[1..], n + 1, corpus);
      State(rest.stack, first.problems + rest.problems)
  }

  method Check(conf: string, corpus: Corpus) returns (problems: seq<Problem>)
    ensures problems == Scan([], Split(conf, '\n'), 1, corpus).problems
  {
    hide Line, Shown;
    var lines := Split(conf, '\n');
    var stack: seq<string> := [];
    problems := [];
    assert lines[0..] == lines;
    for i := 0 to |lines|
      invariant problems + Scan(stack, lines[i..], i + 1, corpus).problems == Scan([], lines, 1, corpus).problems
    {
      assert lines[i..][1..] == lines[i + 1..] && lines[i..][0] == lines[i];
      var more;
      stack, more := CheckLine(stack, lines[i], i + 1, corpus);
      problems := problems + more;
    }
  }

  /** The body of the loop. */
  method CheckLine(before: seq<string>, raw: string, n: nat, corpus: Corpus)
    returns (stack: seq<string>, problems: seq<Problem>)
    ensures State(stack, problems) == Line(before, Shown(raw), n, corpus)
  {
    hide Trim, CommentStart, PushBlocks, ContextProblems, DirectiveProblems, FirstWord;
    stack, problems := before, [];
    var line := StripComment(raw);
    line := Trim(line);
    ghost var shown := line;
    while "}" <= line
      invariant Closers(stack, line) == Closers(before, shown)
      decreases |line|
    {
      TrimNoLonger(line[1..]);
      stack := Pop(stack);
      line := Trim(line[1..]);
    }
    if line == "" { return; }
    var first := FirstWord(line);
    if EndsIn(line, '{') {
      problems := ContextProblems(stack, corpus, first, n);
      stack := PushBlocks(stack, line, first);
      return;
    }
    if '{' in line && '}' !in line {
      problems := ContextProblems(stack, corpus, first, n);
      stack := stack + [OPAQUE];
      return;
    }
    if !EndsIn(line, ';') { return; }
    problems := DirectiveProblems(stack, corpus, first, n);
  }

  // ----- the tree -----

  /** args: empty, or blanks and what follows them. */
  datatype Node = Directive(name: string, args: string) | Block(name: string, args: string, children: seq<Node>)

  function Count(nodes: seq<Node>): nat {
    if nodes == [] then 0 else CountOf(nodes[0]) + Count(nodes[1..])
  }

  /** How many lines a node takes. */
  function CountOf(node: Node): nat {
    match node
    case Directive(_, _) => 1
    case Block(_, _, children) => 2 + Count(children)
  }

  function Texts(nodes: seq<Node>): seq<string> {
    if nodes == [] then [] else TextsOf(nodes[0]) + Texts(nodes[1..])
  }

  /** One directive per line, the closing brace on a line of its own. */
  function TextsOf(node: Node): seq<string> {
    match node
    case Directive(name, args) => [name + args + ";"]
    case Block(name, args, children) => [name + args + " {"] + (Texts(children) + ["}"])
  }

  predicate PlainWord(name: string) {
    name != "" && forall c | c in name :: c > ' ' && c != '{' && c != '}' && c != ';'
  }

  predicate PlainArgs(args: string) {
    '{' !in args && '}' !in args && (args != "" ==> IsBlank(args[0]))
  }

  predicate Plain(nodes: seq<Node>) {
    nodes != [] ==> PlainNode(nodes[0]) && Plain(nodes[1..])
  }

  predicate PlainNode(node: Node) {
    PlainWord(node.name) && PlainArgs(node.args) && (node.Block? ==> Plain(node.children))
  }

  // ----- what is wrong with a tree, by the names of the blocks around each node -----

  predicate Readable(path: seq<string>) {
    path != [] ==>
      path[|path| - 1] in {"acme_issuer", "events", "http", "if", "limit_except", "location", "mail", "mgmt",
                           "oidc_provider", "server", "stream", "upstream"}
  }

  function Innermost(path: seq<string>): string {
    if path == [] then MAIN else path[|path| - 1]
  }

  /** The outermost block decides which modules count. */
  function PathFamily(path: seq<string>): Option<string> {
    if path != [] && (path[0] == "http" || path[0] == "stream" || path[0] == "mail") then Some(path[0]) else None
  }

  /** Within a block of one family, a module of another. */
  predicate Foreign(path: seq<string>, mod: string) {
    && path != [] && path[0] in {"http", "mail", "stream"} && !("ngx_" + path[0] + "_" <= mod)
    && ("ngx_http_" <= mod || "ngx_stream_" <= mod || "ngx_mail_" <= mod)
  }

  /** The documentation calls this place by one of these names. */
  predicate Called(path: seq<string>, context: string) {
    context == Innermost(path)
    || (context == "if in location" && |path| >= 2 && path[|path| - 1] == "if" && path[|path| - 2] == "location")
  }

  /** Some definition that counts here allows the directive here. */
  predicate Permitted(path: seq<string>, ds: seq<Definition>) {
    exists d :: d in ds &&
      !Foreign(path, d.mod) && ("any" in d.contexts || exists c :: c in d.contexts && Called(path, c))
  }

  function PlaceProblems(path: seq<string>, name: string, line: nat, corpus: Corpus): seq<Problem> {
    var known := WithContexts(corpus.definitions(name));
    if !Readable(path) || !IsName(name) || known == [] || Permitted(path, known) then []
    else [Misplaced(line, name, PathFamily(path), Innermost(path), known)]
  }

  function NodeProblems(node: Node, path: seq<string>, line: nat, corpus: Corpus): seq<Problem> {
    match node
    case Directive(name, _) =>
      if Readable(path) && IsName(name) && corpus.definitions(name) == [] then
        (if corpus.hints(name) == [] then [] else [Unknown(line, name, corpus.hints(name))])
      else PlaceProblems(path, name, line, corpus)
    case Block(name, _, children) =>
      PlaceProblems(path, name, line, corpus) + TreeProblems(children, path + [name], line + 1, corpus)
  }

  function TreeProblems(nodes: seq<Node>, path: seq<string>, line: nat, corpus: Corpus): seq<Problem> {
    if nodes == [] then []
    else NodeProblems(nodes[0], path, line, corpus) + TreeProblems(nodes[1..], path, line + CountOf(nodes[0]), corpus)
  }
}
