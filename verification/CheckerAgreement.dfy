/**
 * NginxConfChecker: the line scanner finds in a printed tree exactly what recursion over the tree finds.
 *
 * The stack of the scanner stands for the path of the tree; what a directive may stand in is what the path
 * permits. Moving a closing brace to the front of the next line then changes line numbers and nothing else.
 * Both are proved for every table of directives and every checked family.
 */
module CheckerAgreement {
  import opened Text
  import opened ConfChecker

  // ----- the stack stands for the path -----

  lemma {:induction false} ContextsAt(path: seq<string>)
    ensures |ContextsOf(path)| == |path| && forall k | 0 <= k < |path| :: ContextsOf(path)[k] == BlockContext(path[k])
  {
    hide BlockContext;
    if path != [] {
      ContextsAt(path[1..]);
      assert forall k | 1 <= k < |path| :: ContextsOf(path)[k] == ContextsOf(path[1..])[k - 1];
    }
  }

  lemma ContextsMore(path: seq<string>, name: string)
    ensures ContextsOf(path + [name]) == ContextsOf(path) + [BlockContext(name)]
    ensures Pop(ContextsOf(path + [name])) == ContextsOf(path)
  {
    hide BlockContext;
    ContextsAt(path);
    ContextsAt(path + [name]);
    var stack := ContextsOf(path + [name]);
    assert stack[..|path|] == ContextsOf(path);
    assert stack == stack[..|path|] + [stack[|path|]];
  }

  lemma NotOpaque(name: string)
    requires name in DIRECTIVE_BLOCKS || name == MAIN || name in FAMILIES
    ensures name != OPAQUE
  {
  }

  lemma FamiliesAreBlocks(name: string)
    ensures name in FAMILIES ==> name in DIRECTIVE_BLOCKS
    ensures BlockContext(name) in FAMILIES <==> name in FAMILIES
    ensures BlockContext(name) in FAMILIES ==> BlockContext(name) == name
  {
    if BlockContext(name) in FAMILIES { NotOpaque(BlockContext(name)); }
  }

  lemma TopIs(path: seq<string>)
    ensures Top(ContextsOf(path)) == OPAQUE <==> !Readable(path)
    ensures Readable(path) ==> Top(ContextsOf(path)) == Innermost(path)
  {
    ContextsAt(path);
    if path == [] { NotOpaque(MAIN); } else if Readable(path) { NotOpaque(path[|path| - 1]); }
  }

  lemma FamilyIs(path: seq<string>)
    ensures Family(ContextsOf(path)) == PathFamily(path)
  {
    ContextsAt(path);
    if path != [] { FamiliesAreBlocks(path[0]); }
  }

  lemma LocationIs(name: string)
    ensures BlockContext(name) == "location" <==> name == "location"
  {
    assert "location"[0] == 'l' && OPAQUE[0] == 'o';
  }

  lemma AcceptedAre(path: seq<string>, c: string)
    requires Readable(path)
    ensures c in AcceptedContexts(ContextsOf(path)) <==> Called(path, c)
  {
    hide BlockContext;
    var stack := ContextsOf(path);
    TopIs(path);
    ContextsAt(path);
    if |path| >= 2 {
      LocationIs(path[|path| - 2]);
      assert Top(Pop(stack)) == stack[|stack| - 2];
    } else {
      assert MAIN[0] != "location"[0];
      assert |path| == 1 ==> Pop(stack) == [];
    }
  }

  lemma FamilyStarts(mod: string, family: string)
    requires "ngx_" + family + "_" <= mod
    ensures |mod| > 4 + |family| && mod[4 + |family|] == '_' && mod[4..4 + |family|] == family
  {
    assert mod[..5 + |family|] == "ngx_" + family + "_";
    assert mod[4..4 + |family|] == ("ngx_" + family + "_")[4..4 + |family|];
  }

  /** The prefixes of two families exclude each other. */
  lemma OneFamily(mod: string, a: string, b: string)
    requires a in FAMILIES && b in FAMILIES && "ngx_" + a + "_" <= mod && "ngx_" + b + "_" <= mod
    ensures a == b
  {
    FamilyStarts(mod, a);
    FamilyStarts(mod, b);
    assert mod[4] == a[0] == b[0];
  }

  lemma {:induction false} ModuleFamilyIs(mod: string, families: seq<string>)
    ensures var f := ModuleFamilyIn(mod, families);
            if f.Some? then f.value in families && "ngx_" + f.value + "_" <= mod
            else forall x | x in families :: !("ngx_" + x + "_" <= mod)
  {
    if families != [] {
      ModuleFamilyIs(mod, families[1..]);
      assert families == [families[0]] + families[1..];
    }
  }

  lemma ForeignIs(path: seq<string>, mod: string)
    ensures Foreign(path, mod) <==>
              !(PathFamily(path).None? || ModuleFamily(mod).None? || ModuleFamily(mod) == PathFamily(path))
  {
    hide ModuleFamilyIn;
    ModuleFamilyIs(mod, FAMILIES);
    assert "http" in FAMILIES && "stream" in FAMILIES && "mail" in FAMILIES;
    assert "ngx_" + "http" + "_" == "ngx_http_" && "ngx_" + "stream" + "_" == "ngx_stream_" &&
      "ngx_" + "mail" + "_" == "ngx_mail_";
    var f := ModuleFamily(mod);
    if f.Some? && PathFamily(path).Some? && "ngx_" + path[0] + "_" <= mod { OneFamily(mod, f.value, path[0]); }
  }

  lemma PermittedIs(path: seq<string>, ds: seq<Definition>)
    requires Readable(path)
    ensures (exists d :: d in ds && Allows(d, Family(ContextsOf(path)), AcceptedContexts(ContextsOf(path)))) <==>
              Permitted(path, ds)
  {
    hide AcceptedContexts, Called, Family, PathFamily, ModuleFamily, ContextsOf, Foreign;
    FamilyIs(path);
    forall d: Definition
      ensures Foreign(path, d.mod) <==>
                !(PathFamily(path).None? || ModuleFamily(d.mod).None? || ModuleFamily(d.mod) == PathFamily(path))
    {
      ForeignIs(path, d.mod);
    }
    forall c ensures c in AcceptedContexts(ContextsOf(path)) <==> Called(path, c) { AcceptedAre(path, c); }
  }

  /** checkContext asks the same question as the tree: may this name stand inside these blocks? */
  lemma ContextIsPlace(path: seq<string>, corpus: Corpus, name: string, n: nat)
    ensures ContextProblems(ContextsOf(path), corpus, name, n) == PlaceProblems(path, name, n, corpus)
  {
    hide AcceptedContexts, Allows, Permitted, Readable, ContextsOf, Family, PathFamily, WithContexts, Innermost, Top;
    TopIs(path);
    FamilyIs(path);
    if Readable(path) { PermittedIs(path, WithContexts(corpus.definitions(name))); }
  }

  // ----- single lines -----

  lemma {:induction false} UptoStop(word: string, rest: string, stop: char -> bool)
    requires (forall c | c in word :: !stop(c)) && (rest != "" ==> stop(rest[0]))
    ensures Upto(word + rest, stop) == word
  {
    if word == "" {
      assert word + rest == rest;
    } else {
      assert word[0] in word && (word + rest)[1..] == word[1..] + rest;
      assert forall c :: c in word[1..] ==> c in word;
      UptoStop(word[1..], rest, stop);
    }
  }

  lemma FirstIs(name: string, rest: string)
    requires PlainWord(name) && rest != "" && (IsBlank(rest[0]) || rest[0] == '{' || rest[0] == ';')
    ensures FirstWord(name + rest) == name
  {
    var stop := c => IsBlank(c) || c == '{' || c == ';';
    UptoStop(name, rest, stop);
  }

  lemma NoCloser(line: string, stack: seq<string>)
    requires line != "" && line[0] != '}'
    ensures Closers(stack, line) == (stack, line)
  {
    assert "}"[0] == '}';
  }

  /** A directive on a line of its own. */
  lemma DirectiveLine(stack: seq<string>, name: string, args: string, n: nat, corpus: Corpus)
    requires PlainWord(name) && PlainArgs(args)
    ensures Line(stack, name + args + ";", n, corpus) == State(stack, DirectiveProblems(stack, corpus, name, n))
  {
    hide PushBlocks, ContextProblems, DirectiveProblems, FirstWord, Closers;
    var line := name + args + ";";
    assert name[0] in name && line[0] == name[0];
    NoCloser(line, stack);
    assert line == name + (args + ";");
    FirstIs(name, args + ";");
    assert '{' !in line;
  }

  lemma TrimEndKeeps(word: string, rest: string)
    requires word != "" && word[|word| - 1] > ' '
    ensures word <= TrimEnd(word + rest)
    decreases |rest|
  {
    var s := word + rest;
    if rest != "" && s[|s| - 1] <= ' ' {
      assert s[..|s| - 1] == word + rest[..|rest| - 1];
      TrimEndKeeps(word, rest[..|rest| - 1]);
    } else {
      if rest == "" { assert s == word; }
      assert TrimEnd(s) == s;
    }
  }

  /** The words of the one segment in front of the brace. */
  lemma SegmentIs(name: string, args: string)
    requires PlainWord(name) && PlainArgs(args)
    ensures SegmentWord(name + args + " ") == name
  {
    hide TrimEnd;
    var s := name + args + " ";
    assert name[0] in name && name[|name| - 1] in name;
    assert s[0] == name[0] && TrimStart(s) == s;
    assert s == name + (args + " ");
    TrimEndKeeps(name, args + " ");
    var t := Trim(s);
    var rest := t[|name|..];
    assert t == name + rest;
    assert t <= s;
    assert rest != "" ==> rest[0] == (args + " ")[0] by { if rest != "" { assert t[|name|] == s[|name|]; } }
    UptoStop(name, rest, c => IsBlank(c) || c == ';');
  }

  lemma BlockSplits(head: string)
    requires '{' !in head && head != ""
    ensures DropEmptyTail(Split(head + "{", '{')) == [head]
  {
    var s := head + "{";
    FoundAt(head, '{', "");
    assert head + ['{'] + "" == s;
    assert s[..|head|] == head && s[|head| + 1..] == "";
    assert Split("", '{') == [""];
    assert Split(s, '{') == [head] + [""];
    assert ([head] + [""])[..1] == [head];
  }

  lemma PushIs(stack: seq<string>, name: string, args: string)
    requires PlainWord(name) && PlainArgs(args)
    ensures PushBlocks(stack, name + args + " {", name) == stack + [BlockContext(name)]
  {
    hide Split, DropEmptyTail, SegmentWord, BlockContext;
    var head := name + args + " ";
    assert name + args + " {" == head + "{";
    BlockSplits(head);
    SegmentIs(name, args);
    assert [head][1..] == [] && SegmentWords([]) == [];
    assert SegmentWords([head]) == [name];
    assert [name][1..] == [] && ContextsOf([]) == [];
    assert ContextsOf([name]) == [BlockContext(name)];
  }

  /** A line that opens a block. */
  lemma BlockLine(stack: seq<string>, name: string, args: string, n: nat, corpus: Corpus)
    requires PlainWord(name) && PlainArgs(args)
    ensures Line(stack, name + args + " {", n, corpus) ==
            State(stack + [BlockContext(name)], ContextProblems(stack, corpus, name, n))
  {
    hide PushBlocks, ContextProblems, DirectiveProblems, FirstWord, Closers, BlockContext;
    var line := name + args + " {";
    assert name[0] in name && line[0] == name[0];
    NoCloser(line, stack);
    assert line == name + (args + " {");
    FirstIs(name, args + " {");
    PushIs(stack, name, args);
  }

  lemma CloserLine(stack: seq<string>, n: nat, corpus: Corpus)
    ensures Line(stack, "}", n, corpus) == State(Pop(stack), [])
  {
    assert "}"[1..] == "" && Trim("") == "";
    assert Closers(Pop(stack), "") == (Pop(stack), "");
    assert Closers(stack, "}") == (Pop(stack), "");
  }

  // ----- several lines -----

  /** Scanning lines already stripped of comments and outer blanks. */
  function ScanTexts(stack: seq<string>, texts: seq<string>, n: nat, corpus: Corpus): State
    decreases |texts|
  {
    if texts == [] then State(stack, [])
    else
      var first := Line(stack, texts[0], n, corpus);
      var rest := ScanTexts(first.stack, texts[1..], n + 1, corpus);
      State(rest.stack, first.problems + rest.problems)
  }

  lemma {:induction false} ScanConcat(stack: seq<string>, a: seq<string>, b: seq<string>, n: nat, corpus: Corpus)
    ensures var first := ScanTexts(stack, a, n, corpus);
            var rest := ScanTexts(first.stack, b, n + |a|, corpus);
            ScanTexts(stack, a + b, n, corpus) == State(rest.stack, first.problems + rest.problems)
    decreases |a|
  {
    hide Line;
    if a == [] {
      assert a + b == b;
    } else {
      var first := Line(stack, a[0], n, corpus);
      assert (a + b)[1..] == a[1..] + b;
      ScanConcat(first.stack, a[1..], b, n + 1, corpus);
      var x := ScanTexts(first.stack, a[1..], n + 1, corpus);
      var y := ScanTexts(x.stack, b, n + |a|, corpus);
      assert first.problems + (x.problems + y.problems) == first.problems + x.problems + y.problems;
    }
  }

  lemma OneText(stack: seq<string>, text: string, n: nat, corpus: Corpus)
    ensures ScanTexts(stack, [text], n, corpus) == Line(stack, text, n, corpus)
  {
    hide Line;
    assert [text][1..] == [];
    var first := Line(stack, text, n, corpus);
    assert ScanTexts(first.stack, [], n + 1, corpus) == State(first.stack, []);
    assert first.problems + [] == first.problems;
  }

  lemma {:induction false} TextsCount(nodes: seq<Node>)
    ensures |Texts(nodes)| == Count(nodes)
    decreases nodes
  {
    if nodes != [] {
      NodeCount(nodes[0]);
      TextsCount(nodes[1..]);
    }
  }

  lemma {:induction false} NodeCount(node: Node)
    ensures |TextsOf(node)| == CountOf(node)
    decreases node
  {
    if node.Block? { TextsCount(node.children); }
  }

  // ----- the tree -----

  lemma {:induction false} TreeScan(nodes: seq<Node>, path: seq<string>, n: nat, corpus: Corpus)
    requires ConfChecker.Plain(nodes)
    ensures ScanTexts(ContextsOf(path), Texts(nodes), n, corpus) ==
              State(ContextsOf(path), TreeProblems(nodes, path, n, corpus))
    decreases nodes
  {
    hide Line, ContextsOf, PlainNode, NodeProblems;
    if nodes != [] {
      NodeScan(nodes[0], path, n, corpus);
      NodeCount(nodes[0]);
      TreeScan(nodes[1..], path, n + CountOf(nodes[0]), corpus);
      ScanConcat(ContextsOf(path), TextsOf(nodes[0]), Texts(nodes[1..]), n, corpus);
    }
  }

  lemma {:induction false} NodeScan(node: Node, path: seq<string>, n: nat, corpus: Corpus)
    requires PlainNode(node)
    ensures ScanTexts(ContextsOf(path), TextsOf(node), n, corpus) ==
              State(ContextsOf(path), NodeProblems(node, path, n, corpus))
    decreases node
  {
    hide Line, ContextsOf, ScanTexts, PlainWord, PlainArgs, PlaceProblems;
    var stack := ContextsOf(path);
    match node
    case Directive(name, args) =>
      DirectiveLine(stack, name, args, n, corpus);
      OneText(stack, name + args + ";", n, corpus);
      DirectiveIsPlace(path, corpus, name, n);
    case Block(name, args, children) =>
      BlockLine(stack, name, args, n, corpus);
      ContextIsPlace(path, corpus, name, n);
      ContextsMore(path, name);
      TreeScan(children, path + [name], n + 1, corpus);
      BlockScan(node, path, n, corpus);
  }

  lemma DirectiveIsPlace(path: seq<string>, corpus: Corpus, name: string, n: nat)
    ensures DirectiveProblems(ContextsOf(path), corpus, name, n) == NodeProblems(Directive(name, ""), path, n, corpus)
  {
    hide ContextProblems, PlaceProblems, Top, Readable, ContextsOf;
    TopIs(path);
    ContextIsPlace(path, corpus, name, n);
    if !Readable(path) || !IsName(name) { UnreadableIsSilent(path, corpus, name, n); }
  }

  lemma UnreadableIsSilent(path: seq<string>, corpus: Corpus, name: string, n: nat)
    requires !Readable(path) || !IsName(name)
    ensures PlaceProblems(path, name, n, corpus) == []
  {
  }

  /** Head, children and closing brace of a block, put together. */
  lemma BlockScan(node: Node, path: seq<string>, n: nat, corpus: Corpus)
    requires node.Block?
    requires var stack := ContextsOf(path);
             var inner := stack + [BlockContext(node.name)];
             && Line(stack, node.name + node.args + " {", n, corpus) ==
                  State(inner, PlaceProblems(path, node.name, n, corpus))
             && Pop(inner) == stack
             && ScanTexts(inner, Texts(node.children), n + 1, corpus) ==
                State(inner, TreeProblems(node.children, path + [node.name], n + 1, corpus))
    ensures ScanTexts(ContextsOf(path), TextsOf(node), n, corpus) ==
              State(ContextsOf(path), NodeProblems(node, path, n, corpus))
  {
    hide Line, ContextsOf, ScanTexts, PlaceProblems, TreeProblems, Texts, BlockContext, Pop;
    var stack := ContextsOf(path);
    var inner := stack + [BlockContext(node.name)];
    var head, body := [node.name + node.args + " {"], Texts(node.children);
    OneText(stack, node.name + node.args + " {", n, corpus);
    ScanConcat(stack, head, body + ["}"], n, corpus);
    ScanConcat(inner, body, ["}"], n + 1, corpus);
    OneText(inner, "}", n + 1 + |body|, corpus);
    CloserLine(inner, n + 1 + |body|, corpus);
    var x := TreeProblems(node.children, path + [node.name], n + 1, corpus);
    assert x + [] == x;
  }

  function ShownAll(lines: seq<string>): (r: seq<string>)
    ensures |r| == |lines| && forall k | 0 <= k < |r| :: r[k] == Shown(lines[k])
  {
    if lines == [] then [] else [Shown(lines[0])] + ShownAll(lines[1..])
  }

  lemma {:induction false} ScanShown(stack: seq<string>, lines: seq<string>, n: nat, corpus: Corpus)
    ensures Scan(stack, lines, n, corpus) == ScanTexts(stack, ShownAll(lines), n, corpus)
    decreases |lines|
  {
    hide Line, Shown;
    if lines != [] {
      ScanShown(Line(stack, Shown(lines[0]), n, corpus).stack, lines[1..], n + 1, corpus);
      assert ShownAll(lines)[1..] == ShownAll(lines[1..]);
    }
  }

  /**
   * Whatever the indentation, and whatever comments stand behind: a tree printed one directive per line is scanned
   * into exactly the problems its nodes have by the blocks around them.
   */
  lemma ScannerEqualsTree(nodes: seq<Node>, lines: seq<string>, corpus: Corpus)
    requires ConfChecker.Plain(nodes) && ShownAll(lines) == Texts(nodes)
    ensures Scan([], lines, 1, corpus) == State([], TreeProblems(nodes, [], 1, corpus))
  {
    hide Line, Shown;
    ScanShown([], lines, 1, corpus);
    TreeScan(nodes, [], 1, corpus);
    assert ContextsOf([]) == [];
  }

  // ----- closing braces at the front of the next line -----

  lemma {:induction false} CommentShift(p: string, l: string, i: nat, quote: char)
    requires i <= |l|
    ensures CommentStart(p + l, |p| + i, quote) == |p| + CommentStart(l, i, quote)
    decreases |l| - i
  {
    if i < |l| {
      assert (p + l)[|p| + i] == l[i];
      var c := l[i];
      if quote != '\0' && c == '\\' && i + 1 < |l| {
        CommentShift(p, l, i + 2, quote);
      } else if quote != '\0' {
        CommentShift(p, l, i + 1, if c == quote then '\0' else quote);
      } else if c == '"' || c == '\'' {
        CommentShift(p, l, i + 1, c);
      } else if c != '#' {
        CommentShift(p, l, i + 1, quote);
      }
    }
  }

  predicate AllBlank(pad: string) {
    forall c | c in pad :: c <= ' '
  }

  lemma {:induction false} NoCommentIn(p: string, l: string, i: nat)
    requires i <= |p| && forall c | c in p :: c <= ' ' || c == '}'
    ensures CommentStart(p + l, i, '\0') == CommentStart(p + l, |p|, '\0')
    decreases |p| - i
  {
    if i < |p| {
      assert (p + l)[i] == p[i] && p[i] in p;
      NoStart(p[i]);
      NoCommentIn(p, l, i + 1);
    }
  }

  lemma NoStart(c: char)
    requires c <= ' ' || c == '}'
    ensures c != '"' && c != '\'' && c != '#'
  {
  }

  lemma {:induction false} TrimStartPad(pad: string, s: string)
    requires AllBlank(pad)
    ensures TrimStart(pad + s) == TrimStart(s)
  {
    if pad == "" {
      assert pad + s == s;
    } else {
      assert pad[0] in pad && (pad + s)[1..] == pad[1..] + s;
      assert forall c :: c in pad[1..] ==> c in pad;
      TrimStartPad(pad[1..], s);
    }
  }

  lemma {:induction false} TrimEndBehind(p: string, s: string)
    requires p != "" && p[|p| - 1] > ' '
    ensures TrimEnd(p + s) == p + TrimEnd(s)
    decreases |s|
  {
    var all := p + s;
    if s == "" {
      assert all == p && p + TrimEnd("") == p;
    } else if s[|s| - 1] <= ' ' {
      assert all[..|all| - 1] == p + s[..|s| - 1];
      TrimEndBehind(p, s[..|s| - 1]);
    }
  }

  /** Trimming both ends in the other order. */
  lemma {:induction false} TrimOrder(s: string)
    ensures TrimEnd(TrimStart(s)) == TrimStart(TrimEnd(s))
    decreases |s|
  {
    if s != "" && s[0] <= ' ' {
      TrimOrder(s[1..]);
      TrimEndTail(s);
    } else if s != "" {
      TrimEndFirst(s);
    }
  }

  lemma {:induction false} TrimEndTail(s: string)
    requires s != "" && s[0] <= ' '
    ensures TrimEnd(s) == "" ==> TrimEnd(s[1..]) == ""
    ensures TrimEnd(s) != "" ==> TrimEnd(s)[0] == s[0] && TrimEnd(s)[1..] == TrimEnd(s[1..])
    decreases |s|
  {
    if |s| > 1 && s[|s| - 1] <= ' ' {
      var t := s[..|s| - 1];
      TrimEndTail(t);
      assert t[1..] == s[1..][..|s[1..]| - 1];
    }
  }

  lemma TrimOfTrimEnd(s: string)
    ensures Trim(TrimEnd(s)) == Trim(s)
  {
    TrimOrder(TrimEnd(s));
    TrimOrder(s);
    TrimEndTwice(s);
  }

  lemma ShownBehind(p: string, l: string)
    requires forall c | c in p :: c <= ' ' || c == '}'
    ensures Shown(p + l) == Trim(p + l[..CommentStart(l, 0, '\0')])
  {
    hide Trim, CommentStart;
    NoCommentIn(p, l, 0);
    CommentShift(p, l, 0, '\0');
    var e := CommentStart(l, 0, '\0');
    assert (p + l)[..|p| + e] == p + l[..e];
  }

  lemma PadIsNotShown(pad: string, l: string)
    requires AllBlank(pad)
    ensures Shown(pad + l) == Shown(l)
  {
    hide CommentStart, TrimStart, TrimEnd;
    ShownBehind(pad, l);
    TrimStartPad(pad, l[..CommentStart(l, 0, '\0')]);
  }

  /** A brace in front of a line does what it does on a line of its own. */
  lemma CloserInFront(stack: seq<string>, pad: string, l: string, n: nat, corpus: Corpus)
    requires AllBlank(pad)
    ensures Line(stack, Shown("}" + pad + l), n, corpus) == Line(Pop(stack), Shown(l), n, corpus)
  {
    hide CommentStart, TrimStart, TrimEnd, Content, Shown;
    var rest := pad + l;
    var x := rest[..CommentStart(rest, 0, '\0')];
    assert "}" + pad + l == "}" + rest;
    ShownBehind("}", rest);
    BraceTrim(x);
    PadIsNotShown(pad, l);
    ShownIs(rest);
    CloserFirst(stack, TrimEnd(x));
    TrimOfTrimEnd(x);
  }

  lemma ShownIs(l: string)
    ensures Shown(l) == Trim(l[..CommentStart(l, 0, '\0')])
  {
  }

  lemma BraceTrim(x: string)
    ensures Trim("}" + x) == "}" + TrimEnd(x)
  {
    assert TrimStart("}" + x) == "}" + x;
    TrimEndBehind("}", x);
  }

  lemma CloserFirst(stack: seq<string>, rest: string)
    ensures Closers(stack, "}" + rest) == Closers(Pop(stack), Trim(rest))
  {
    assert ("}" + rest)[1..] == rest;
  }

  function Later(p: Problem, k: nat): Problem {
    match p
    case Unknown(line, name, hints) => Unknown(line + k, name, hints)
    case Misplaced(line, name, family, context, known) => Misplaced(line + k, name, family, context, known)
  }

  function AllLater(ps: seq<Problem>, k: nat): seq<Problem> {
    if ps == [] then [] else [Later(ps[0], k)] + AllLater(ps[1..], k)
  }

  lemma LineLater(stack: seq<string>, shown: string, n: nat, k: nat, corpus: Corpus)
    ensures Line(stack, shown, n + k, corpus).stack == Line(stack, shown, n, corpus).stack
    ensures Line(stack, shown, n + k, corpus).problems == AllLater(Line(stack, shown, n, corpus).problems, k)
  {
    hide Closers, PushBlocks, FirstWord, WithContexts, Allows, AcceptedContexts, IsName, Trim;
    var ps := Line(stack, shown, n, corpus).problems;
    assert |ps| == 1 ==> ps[1..] == [];
    assert AllLater([], k) == [];
  }

  lemma {:induction false} AllLaterConcat(a: seq<Problem>, b: seq<Problem>, k: nat)
    ensures AllLater(a + b, k) == AllLater(a, k) + AllLater(b, k)
  {
    hide Later;
    if a == [] {
      assert a + b == b;
    } else {
      assert (a + b)[1..] == a[1..] + b;
      AllLaterConcat(a[1..], b, k);
    }
  }

  lemma {:induction false} ScanLater(stack: seq<string>, texts: seq<string>, n: nat, k: nat, corpus: Corpus)
    ensures ScanTexts(stack, texts, n + k, corpus).stack == ScanTexts(stack, texts, n, corpus).stack
    ensures ScanTexts(stack, texts, n + k, corpus).problems == AllLater(ScanTexts(stack, texts, n, corpus).problems, k)
    decreases |texts|
  {
    hide Line;
    if texts != [] {
      LineLater(stack, texts[0], n, k, corpus);
      var first := Line(stack, texts[0], n, corpus);
      ScanLater(first.stack, texts[1..], n + 1, k, corpus);
      AllLaterConcat(first.problems, ScanTexts(first.stack, texts[1..], n + 1, corpus).problems, k);
    }
  }

  /**
   * Moving a closing brace from its own line to the front of the next one changes line numbers and nothing else: what
   * is reported up to there stays, what is reported behind moves up by one line.
   */
  lemma CloserMoves(pre: seq<string>, pad: string, l: string, post: seq<string>, corpus: Corpus)
    requires AllBlank(pad)
    ensures var own := Scan([], pre + (["}"] + ([l] + post)), 1, corpus);
            var moved := Scan([], pre + (["}" + pad + l] + post), 1, corpus);
            var kept := Scan([], pre, 1, corpus).problems;
            && own.stack == moved.stack
            && |kept| <= |moved.problems| && moved.problems[..|kept|] == kept
            && own.problems == kept + AllLater(moved.problems[|kept|..], 1)
  {
    hide Line, Shown, Scan, ScanTexts, AllLater;
    var a, b := ShownAll(pre), ShownAll(post);
    ShownConcat(pre, ["}"] + ([l] + post));
    ShownConcat(pre, ["}" + pad + l] + post);
    ShownOne("}", [l] + post);
    ShownOne(l, post);
    ShownOne("}" + pad + l, post);
    ScanShown([], pre, 1, corpus);
    ScanShown([], pre + (["}"] + ([l] + post)), 1, corpus);
    ScanShown([], pre + (["}" + pad + l] + post), 1, corpus);
    var x := ScanTexts([], a, 1, corpus);
    var n := 1 + |a|;
    ScanConcat([], a, [Shown("}")] + ([Shown(l)] + b), 1, corpus);
    ScanConcat([], a, [Shown("}" + pad + l)] + b, 1, corpus);
    MovedFrom(x.stack, pad, l, b, n, corpus);
    var q := ScanTexts(x.stack, [Shown("}" + pad + l)] + b, n, corpus).problems;
    assert (x.problems + q)[..|x.problems|] == x.problems && (x.problems + q)[|x.problems|..] == q;
  }

  lemma {:induction false} ShownConcat(a: seq<string>, b: seq<string>)
    ensures ShownAll(a + b) == ShownAll(a) + ShownAll(b)
  {
    hide Shown;
    forall k | 0 <= k < |a + b| ensures ShownAll(a + b)[k] == (ShownAll(a) + ShownAll(b))[k] {
    }
  }

  lemma ShownOne(l: string, rest: seq<string>)
    ensures ShownAll([l] + rest) == [Shown(l)] + ShownAll(rest)
  {
    hide Shown;
    assert ([l] + rest)[1..] == rest;
  }

  lemma MovedFrom(stack: seq<string>, pad: string, l: string, rest: seq<string>, n: nat, corpus: Corpus)
    requires AllBlank(pad)
    ensures var own := ScanTexts(stack, [Shown("}")] + ([Shown(l)] + rest), n, corpus);
            var moved := ScanTexts(stack, [Shown("}" + pad + l)] + rest, n, corpus);
            own.stack == moved.stack && own.problems == AllLater(moved.problems, 1)
  {
    hide Line, Shown, ScanTexts, AllLater;
    BraceAlone();
    CloserLine(stack, n, corpus);
    ScanConcat(stack, [Shown("}")], [Shown(l)] + rest, n, corpus);
    OneText(stack, Shown("}"), n, corpus);
    ScanLater(Pop(stack), [Shown(l)] + rest, n, 1, corpus);
    CloserInFront(stack, pad, l, n, corpus);
    ScanConcat(stack, [Shown("}" + pad + l)], rest, n, corpus);
    ScanConcat(Pop(stack), [Shown(l)], rest, n, corpus);
    OneText(stack, Shown("}" + pad + l), n, corpus);
    OneText(Pop(stack), Shown(l), n, corpus);
    var q := ScanTexts(Pop(stack), [Shown(l)] + rest, n + 1, corpus).problems;
    assert [] + q == q;
  }

  lemma BraceAlone()
    ensures Shown("}") == "}"
  {
    hide Shown, Trim, CommentStart, TrimEnd;
    ShownBehind("}", "");
    var x := ""[..CommentStart("", 0, '\0')];
    assert x == "" && "}" + "" == "}";
    BraceTrim("");
    NothingTrimmed();
  }

  lemma NothingTrimmed()
    ensures TrimEnd("") == ""
  {
  }
}
