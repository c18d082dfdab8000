/** A listen text, read by HttpServerSelector.listenerGroups and, by other rules, by ConfService.httpListenPort. */
module ListenPorts {
  import opened Text
  import opened Numbers
  import opened ServerNames

  datatype Listener = Any | Verbatim(text: string) | At(address: string, port: int)

  /** What one piece between commas asks for; Bad: the piece is refused. */
  datatype Part = Single(port: int) | Range(from: int, to: int) | Bad

  function LastIndexOf(s: string, c: char): (r: Option<nat>)
    ensures r.Some? ==> r.value < |s| && s[r.value] == c && c !in s[r.value + 1..]
    ensures r.None? ==> c !in s
  {
    if s == "" then None
    else if s[|s| - 1] == c then Some(|s| - 1)
    else
      var r := LastIndexOf(s[..|s| - 1], c);
      assert s == s[..|s| - 1] + [s[|s| - 1]];
      assert r.Some? ==> s[r.value + 1..] == s[..|s| - 1][r.value + 1..] + [s[|s| - 1]];
      r
  }

  /** What stands before the last colon, and what behind it. */
  function Host(l: string): Option<string> {
    var colon := LastIndexOf(l, ':');
    if colon.None? then None else Some(l[..colon.value])
  }

  function PortSpec(l: string): string {
    var colon := LastIndexOf(l, ':');
    if colon.None? then l else l[colon.value + 1..]
  }

  // ----- the selector's reading -----

  /** StrUtil.trim; what counts as blank is that library's business. */
  function StripFront(s: string, blank: char -> bool): (r: string)
    ensures |r| <= |s| && r == s[|s| - |r|..]
    ensures r != "" ==> !blank(r[0])
    ensures forall c | c in s[..|s| - |r|] :: blank(c)
  {
    if s != "" && blank(s[0]) then
      var r := StripFront(s[1..], blank);
      assert s[..|s| - |r|] == [s[0]] + s[1..][..|s| - 1 - |r|];
      r
    else s
  }

  function StripBack(s: string, blank: char -> bool): (r: string)
    ensures |r| <= |s| && r == s[..|r|]
    ensures s != "" && !blank(s[|s| - 1]) ==> r == s
  {
    if s != "" && blank(s[|s| - 1]) then StripBack(s[..|s| - 1], blank) else s
  }

  predicate IsPort(n: int) {
    1 <= n <= 65535
  }

  predicate InRange(p: Part) {
    match p
    case Single(n) => IsPort(n)
    case Range(a, b) => IsPort(a) && IsPort(b)
    case Bad => false
  }

  function Start(p: Part): int {
    match p case Single(n) => n case Range(a, b) => a case Bad => 0
  }

  function End(p: Part): int {
    match p case Single(n) => n case Range(a, b) => b case Bad => 0
  }

  /** The numbers are trimmed; a second hyphen is refused. */
  function TrimmedPart(piece: string): Part {
    var range := Split(Trim(piece), '-');
    var start := ParseInt(Trim(range[0]));
    if start.None? then Bad
    else if |range| == 1 then Single(start.value)
    else
      var end := ParseInt(Trim(range[1]));
      if end.None? || |range| > 2 then Bad else Range(start.value, end.value)
  }

  function AddAt(ls: seq<Listener>, address: string, ipv6: bool, port: int): seq<Listener> {
    var more := AddNew(ls, At(address, port));
    if ipv6 then AddNew(more, At("[::]", port)) else more
  }

  /** One port after the other, upwards or downwards. */
  function AddPorts(ls: seq<Listener>, address: string, ipv6: bool, port: int, end: int): seq<Listener>
    decreases if port <= end then end - port else port - end
  {
    var more := AddAt(ls, address, ipv6, port);
    if port == end then more else AddPorts(more, address, ipv6, port + Step(port, end), end)
  }

  function Step(port: int, end: int): int {
    if port <= end then 1 else -1
  }

  /** None: some piece cannot be read, or names a port that does not exist. */
  function AddPieces(ls: seq<Listener>, address: string, ipv6: bool, pieces: seq<string>): Option<seq<Listener>>
    decreases |pieces|
  {
    if pieces == [] then Some(ls)
    else
      var part := TrimmedPart(pieces[0]);
      if !InRange(part) then None
      else AddPieces(AddPorts(ls, address, ipv6, Start(part), End(part)), address, ipv6, pieces[1..])
  }

  function Address(l: string): string {
    match Host(l) case None => "*" case Some(host) => Lower(Trim(host))
  }

  /** listenerGroups. */
  function Groups(listen: Option<string>, ipv6: bool, blank: char -> bool): seq<Listener> {
    if listen.None? then [Any]
    else
      var l := StripBack(StripFront(listen.value, blank), blank);
      if l == "" then [Any]
      else
        var r := AddPieces([], Address(l), ipv6, Split(PortSpec(l), ','));
        if r.None? then [Verbatim(Lower(l))] else r.value
  }

  method ListenerGroups(listen: Option<string>, ipv6: bool, blank: char -> bool) returns (r: seq<Listener>)
    ensures r == Groups(listen, ipv6, blank)
    ensures r != [] && Distinct(r)
  {
    hide AddPorts, TrimmedPart, InRange, Split, PortSpec, Address, Distinct;
    GroupsDistinct(listen, ipv6, blank);
    if listen.None? { return [Any]; }
    var l := StripBack(StripFront(listen.value, blank), blank);
    if l == "" { return [Any]; }
    var address, pieces := Address(l), Split(PortSpec(l), ',');
    var listeners: seq<Listener> := [];
    assert pieces[0..] == pieces;
    for k := 0 to |pieces|
      invariant AddPieces(listeners, address, ipv6, pieces[k..]) == AddPieces([], address, ipv6, pieces)
    {
      var part := TrimmedPart(pieces[k]);
      if !InRange(part) { return [Verbatim(Lower(l))]; }
      assert pieces[k..][1..] == pieces[k + 1..];
      listeners := AddRange(listeners, address, ipv6, part);
    }
    r := listeners;
  }

  method AddRange(before: seq<Listener>, address: string, ipv6: bool, part: Part) returns (listeners: seq<Listener>)
    ensures listeners == AddPorts(before, address, ipv6, Start(part), End(part))
  {
    hide AddNew;
    var end := End(part);
    var step := Step(Start(part), end);
    var port := Start(part);
    listeners := before;
    while true
      invariant Step(port, end) == step || port == end
      invariant AddPorts(listeners, address, ipv6, port, end) == AddPorts(before, address, ipv6, Start(part), end)
      decreases (end - port) * step
    {
      listeners := AddAt(listeners, address, ipv6, port);
      if port == end { break; }
      port := port + step;
    }
  }

  // ----- the generator's reading -----

  /** String.split without a limit. */
  function JavaSplit(s: string, c: char): seq<string> {
    if c !in s then [s] else DropEmptyTail(Split(s, c))
  }

  /** Nothing is trimmed; anything but two pieces is read as one number. */
  function RawPart(piece: string): Part {
    var range := JavaSplit(piece, '-');
    if |range| == 2 then
      var start, end := ParseInt(range[0]), ParseInt(range[1]);
      if start.None? || end.None? then Bad else Range(start.value, end.value)
    else
      var n := ParseInt(piece);
      if n.None? then Bad else Single(n.value)
  }

  function Count(start: int, end: int): seq<int>
    decreases if start <= end then end - start else start - end
  {
    if start == end then [start] else [start] + Count(start + Step(start, end), end)
  }

  function PortsOf(pieces: seq<string>): Option<seq<int>> {
    if pieces == [] then Some([])
    else
      var part, rest := RawPart(pieces[0]), PortsOf(pieces[1..]);
      if part.Bad? || rest.None? then None else Some(Count(Start(part), End(part)) + rest.value)
  }

  /** processPort; None stands for the exception. */
  method ProcessPort(spec: string) returns (r: Option<seq<int>>)
    ensures r == PortsOf(JavaSplit(spec, ','))
  {
    var pieces := JavaSplit(spec, ',');
    var numbers: seq<int> := [];
    assert pieces[0..] == pieces && forall more: seq<int> :: numbers + more == more;
    for k := 0 to |pieces|
      invariant PortsOf(pieces) ==
        match PortsOf(pieces[k..]) case None => None case Some(more) => Some(numbers + more)
    {
      var part := RawPart(pieces[k]);
      assert pieces[k..][1..] == pieces[k + 1..];
      if part.Bad? { return None; }
      ghost var was := numbers;
      var more := CountPorts(Start(part), End(part));
      numbers := numbers + more;
      assert forall rest: seq<int> :: was + (more + rest) == numbers + rest;
    }
    assert PortsOf(pieces[|pieces|..]) == Some([]);
    assert numbers + [] == numbers;
    r := Some(numbers);
  }

  method CountPorts(start: int, end: int) returns (numbers: seq<int>)
    ensures numbers == Count(start, end)
  {
    numbers := [];
    if start <= end {
      for i := start to end
        invariant numbers + Count(i, end) == Count(start, end)
      {
        numbers := numbers + [i];
      }
    } else {
      var i := start;
      while i > end
        invariant end <= i && numbers + Count(i, end) == Count(start, end)
      {
        numbers := numbers + [i];
        i := i - 1;
      }
    }
    numbers := numbers + [end];
  }

  /** A listen directive; host: what is written in front of the port, if anything. */
  datatype Directive = Directive(host: Option<string>, port: int)

  function Directives(host: Option<string>, ports: seq<int>): seq<Directive> {
    seq(|ports|, k requires 0 <= k < |ports| => Directive(host, ports[k]))
  }

  /** The directives of a site: httpListenPort, and once more for IPv6. */
  function Written(l: string, ipv6: bool): Option<seq<Directive>> {
    match PortsOf(JavaSplit(PortSpec(l), ','))
    case None => None
    case Some(ports) => Some(Directives(Host(l), ports) + if ipv6 then Directives(Some("[::]"), ports) else [])
  }

  method HttpListen(l: string, ipv6: bool) returns (r: Option<seq<Directive>>)
    ensures r == Written(l, ipv6)
  {
    var ports := ProcessPort(PortSpec(l));
    if ports.None? { return None; }
    var out := WriteDirectives(Host(l), ports.value);
    if ipv6 {
      var more := WriteDirectives(Some("[::]"), ports.value);
      out := out + more;
    } else {
      assert out + [] == out;
    }
    r := Some(out);
  }

  method WriteDirectives(host: Option<string>, ports: seq<int>) returns (out: seq<Directive>)
    ensures out == Directives(host, ports)
  {
    out := [];
    for k := 0 to |ports|
      invariant out == Directives(host, ports)[..k]
    {
      out := out + [Directive(host, ports[k])];
    }
  }

  /** The end point nginx opens for a directive. */
  function Opens(d: Directive): Listener {
    At(if d.host.None? then "*" else Lower(Trim(d.host.value)), d.port)
  }

  // ----- what the two readings name -----

  /** The ports between the two ends, in either direction. */
  predicate Between(n: int, a: int, b: int) {
    a <= n <= b || b <= n <= a
  }

  predicate AddressOk(a: string, address: string, ipv6: bool) {
    a == address || (ipv6 && a == "[::]")
  }

  lemma AddAtIs(ls: seq<Listener>, address: string, ipv6: bool, port: int)
    ensures var r := AddAt(ls, address, ipv6, port);
            && (Distinct(ls) ==> Distinct(r))
            && forall x :: x in r <==> x in ls || (x.At? && AddressOk(x.address, address, ipv6) && x.port == port)
  {
    hide Distinct;
  }

  lemma {:induction false} AddPortsAre(ls: seq<Listener>, address: string, ipv6: bool, port: int, end: int)
    ensures var r := AddPorts(ls, address, ipv6, port, end);
            && (Distinct(ls) ==> Distinct(r))
            && forall x :: x in r <==>
                 x in ls || (x.At? && AddressOk(x.address, address, ipv6) && Between(x.port, port, end))
    decreases if port <= end then end - port else port - end
  {
    hide AddAt, AddressOk, Distinct;
    AddAtIs(ls, address, ipv6, port);
    if port != end {
      AddPortsAre(AddAt(ls, address, ipv6, port), address, ipv6, port + Step(port, end), end);
    }
  }

  predicate NamesPort(pieces: seq<string>, n: int) {
    exists p :: p in pieces && Between(n, Start(TrimmedPart(p)), End(TrimmedPart(p)))
  }

  lemma NamesMore(pieces: seq<string>, n: int)
    requires pieces != []
    ensures NamesPort(pieces, n) <==>
            Between(n, Start(TrimmedPart(pieces[0])), End(TrimmedPart(pieces[0]))) || NamesPort(pieces[1..], n)
  {
    assert pieces == [pieces[0]] + pieces[1..];
  }

  /** The end points of readable pieces. */
  lemma {:induction false} AddPiecesAre(ls: seq<Listener>, address: string, ipv6: bool, pieces: seq<string>)
    ensures var r := AddPieces(ls, address, ipv6, pieces);
            && (r.Some? <==> forall p | p in pieces :: InRange(TrimmedPart(p)))
            && (r.Some? && Distinct(ls) ==> Distinct(r.value))
            && (r.Some? ==> forall x :: x in r.value <==>
                  x in ls || (x.At? && AddressOk(x.address, address, ipv6) && NamesPort(pieces, x.port)))
    decreases |pieces|
  {
    hide TrimmedPart, InRange, AddPorts, Distinct, AddressOk;
    if pieces != [] {
      assert pieces == [pieces[0]] + pieces[1..];
      var part := TrimmedPart(pieces[0]);
      var more := AddPorts(ls, address, ipv6, Start(part), End(part));
      AddPortsAre(ls, address, ipv6, Start(part), End(part));
      AddPiecesAre(more, address, ipv6, pieces[1..]);
      forall n ensures NamesPort(pieces, n) <==> Between(n, Start(part), End(part)) || NamesPort(pieces[1..], n) {
        NamesMore(pieces, n);
      }
    }
  }

  lemma GroupsDistinct(listen: Option<string>, ipv6: bool, blank: char -> bool)
    ensures Groups(listen, ipv6, blank) != [] && Distinct(Groups(listen, ipv6, blank))
  {
    hide AddPieces, TrimmedPart;
    if listen.Some? {
      var l := StripBack(StripFront(listen.value, blank), blank);
      var pieces := Split(PortSpec(l), ',');
      AddPiecesAre([], Address(l), ipv6, pieces);
      var p := pieces[0];
      var n := Start(TrimmedPart(p));
      assert p in pieces && Between(n, n, End(TrimmedPart(p)));
      assert NamesPort(pieces, n);
      assert AddressOk(At(Address(l), n).address, Address(l), ipv6);
    }
  }
}
