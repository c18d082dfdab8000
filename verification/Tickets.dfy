/** tickets.js: signed tickets between the challenge worker and nginx. */
module Tickets {
  import opened Text
  import opened Numbers
  import opened Base64Url

  const SAFE_INTEGER: nat := 0x20_0000_0000_0000
  const PREFIX := "/.well-known/nwu-challenge/"

  /**
   * What the platform provides: UTF-8 in both directions, the keyed hash, and the checks of host names and addresses
   * (which are regular expressions and the URL parser).
   */
  datatype Platform = Platform(utf8: string -> seq<Octet>, text: seq<Octet> -> Option<string>,
                               mac: (string, seq<Octet>) -> seq<Octet>,
                               validHost: string -> bool, validIp: string -> bool)

  predicate Printable(s: string) {
    s != "" && '\n' !in s && '\r' !in s && '\0' !in s
  }

  const BOM := '\U{FEFF}'

  predicate Marked(s: string) {
    s != "" && s[0] == BOM
  }

  /** A byte order mark at the start is not read back. */
  ghost predicate Sound(p: Platform) {
    && (forall s :: !Marked(s) ==> p.text(p.utf8(s)) == Some(s))
    && (forall s :: s != "" ==> p.utf8(s) != [])
    && (forall k, b :: |p.mac(k, b)| == 20)
    && (forall s :: p.validHost(s) || p.validIp(s) ==> Printable(s))
  }

  datatype Request = Request(ip: string, host: string, path: string, nonce: string)

  datatype Ticket = Ticket(kind: string, exp: nat, ip: string, host: string, path: string, nonce: string)

  datatype Verdict = Accepted(ticket: Ticket) | Expired(ticket: Ticket) | Invalid

  predicate IsHex(c: char) {
    '0' <= c <= '9' || 'a' <= c <= 'f' || 'A' <= c <= 'F'
  }

  predicate ValidNonce(n: string) {
    |n| == 32 && forall c | c in n :: IsHex(c)
  }

  /** Only a local path without control characters, of limited length, and not back into the challenge. */
  function SafeReturn(path: string, p: Platform): string {
    if !("/" <= path) || "//" <= path || |p.utf8(path)| > 2048
       || (exists c | c in path :: c < ' ' || c == '\U{007F}' || c == '\\') || PREFIX <= path
    then "/" else path
  }

  function Framed(fields: seq<string>, secret: string, p: Platform): string {
    var bytes := p.utf8(Join(fields, '\n'));
    Encode(bytes) + "." + Encode(p.mac(secret, bytes))
  }

  function ResponseFields(r: Request, now: nat, p: Platform): seq<string> {
    ["nwu1", "resp", Digits(now + 60), r.ip, r.host, SafeReturn(r.path, p), r.nonce]
  }

  /** signResponseTicket. */
  function Sign(r: Request, secret: string, now: nat, p: Platform): Option<string> {
    if now >= SAFE_INTEGER || !p.validHost(r.host) || !p.validIp(r.ip) || !ValidNonce(r.nonce) || secret == "" then None
    else Some(Framed(ResponseFields(r, now, p), secret, p))
  }

  /** What the seven fields of a verified payload amount to. */
  function Judge(fields: seq<string>, now: nat, p: Platform): Verdict {
    if |fields| != 7 || fields[0] != "nwu1" || fields[1] != "req"
       || !(fields[2] != "" && forall c | c in fields[2] :: IsDigit(c))
       || (exists f | f in fields :: f == "" || '\r' in f || '\0' in f)
       || Value(fields[2]) >= SAFE_INTEGER || !p.validIp(fields[3]) || !p.validHost(fields[4]) || !ValidNonce(fields[6])
    then Invalid
    else
      var ticket := Ticket(fields[1], Value(fields[2]), fields[3], fields[4], fields[5], fields[6]);
      if ticket.exp < now then Expired(ticket) else if ticket.exp > now + 300 then Invalid else Accepted(ticket)
  }

  /** verifyRequestTicket. */
  function Verify(token: string, secret: string, now: nat, p: Platform): Verdict {
    var parts := Split(token, '.');
    if |token| > 4096 || now >= SAFE_INTEGER || |parts| != 2 || secret == "" then Invalid
    else
      var bytes, sig := Decode(parts[0]), Decode(parts[1]);
      if bytes.None? || sig.None? || |sig.value| != 20 || sig.value != p.mac(secret, bytes.value) then Invalid
      else
        var text := p.text(bytes.value);
        if text.None? then Invalid else Judge(Split(text.value, '\n'), now, p)
  }

  // ----- the two halves of a token -----

  lemma {:induction false} NoDotInLetters(vs: seq<Sextet>)
    ensures '.' !in Letters(vs)
  {
    if vs != [] { NoDotInLetters(vs[1..]); }
  }

  lemma TokenSplits(a: seq<Octet>, b: seq<Octet>)
    ensures Split(Encode(a) + "." + Encode(b), '.') == [Encode(a), Encode(b)]
  {
    hide Regroup, Letters, Split;
    NoDotInLetters(Regroup(a));
    NoDotInLetters(Regroup(b));
    SplitJoin([Encode(a), Encode(b)], '.');
    assert [Encode(a), Encode(b)][1..] == [Encode(b)];
    assert Encode(a) + "." + Encode(b) == Encode(a) + ['.'] + Encode(b);
  }

  /** A framed token, read again: its payload's fields, under the right secret. */
  lemma FramedReads(fields: seq<string>, secret: string, p: Platform)
    requires Sound(p) && fields != [] && (forall f | f in fields :: '\n' !in f)
    requires Join(fields, '\n') != "" && !Marked(Join(fields, '\n'))
    ensures var bytes := p.utf8(Join(fields, '\n'));
            && Split(Framed(fields, secret, p), '.') == [Encode(bytes), Encode(p.mac(secret, bytes))]
            && Decode(Encode(bytes)) == Some(bytes) &&
                 Decode(Encode(p.mac(secret, bytes))) == Some(p.mac(secret, bytes))
            && p.text(bytes) == Some(Join(fields, '\n')) && Split(Join(fields, '\n'), '\n') == fields
  {
    hide Encode, Decode, Split, Join;
    var text := Join(fields, '\n');
    var bytes := p.utf8(text);
    SplitJoin(fields, '\n');
    assert bytes != [] && |p.mac(secret, bytes)| == 20 && p.text(bytes) == Some(text);
    TokenSplits(bytes, p.mac(secret, bytes));
    DecodeEncode(bytes);
    DecodeEncode(p.mac(secret, bytes));
  }

  /** Verifying a framed token judges just its fields. */
  lemma VerifiesFields(fields: seq<string>, secret: string, now: nat, p: Platform)
    requires Sound(p) && fields != [] && (forall f | f in fields :: '\n' !in f)
    requires Join(fields, '\n') != "" && !Marked(Join(fields, '\n'))
    requires secret != "" && now < SAFE_INTEGER && |Framed(fields, secret, p)| <= 4096
    ensures Verify(Framed(fields, secret, p), secret, now, p) == Judge(fields, now, p)
  {
    FramedReads(fields, secret, p);
    hide Encode, Decode, Split, Join, Judge, Framed;
    var bytes := p.utf8(Join(fields, '\n'));
    assert |p.mac(secret, bytes)| == 20;
  }

  lemma ResponseFieldsAre(r: Request, now: nat, p: Platform)
    requires Sound(p) && p.validHost(r.host) && p.validIp(r.ip) && ValidNonce(r.nonce)
    ensures forall f | f in ResponseFields(r, now, p) :: f != "" && '\n' !in f
    ensures Join(ResponseFields(r, now, p), '\n') != "" && !Marked(Join(ResponseFields(r, now, p), '\n'))
  {
    ValueOfDigits(now + 60);
    assert Printable(r.host) && Printable(r.ip);
    ReturnIsSafe(r.path, p);
    var fields := ResponseFields(r, now, p);
    assert Join(fields, '\n') == fields[0] + ['\n'] + Join(fields[1..], '\n');
  }

  /** A local path of at most 2048 bytes, without backslashes and control characters, and not one of the challenge's. */
  predicate IsLocal(path: string, p: Platform) {
    && path != "" && path[0] == '/' && (|path| > 1 ==> path[1] != '/') && |p.utf8(path)| <= 2048
    && (forall c | c in path :: c >= ' ' && c != '\U{007F}' && c != '\\')
    && !("/.well-known/nwu-challenge/" <= path)
  }

  /** Every return path is local; a local one is kept. */
  lemma ReturnIsSafe(path: string, p: Platform)
    ensures var s := SafeReturn(path, p);
            s != "" && s[0] == '/' && !("//" <= s) && !(PREFIX <= s) && '\n' !in s && '\r' !in s
    ensures IsLocal(path, p) ==> SafeReturn(path, p) == path
  {
    var s := SafeReturn(path, p);
    assert "/"[0] == '/';
    assert PREFIX <= "/" ==> |PREFIX| <= 1;
    assert "//" <= "/" ==> |"//"| <= 1;
  }

  /** A signed response splits back into exactly its seven fields, with expiry now + 60 and the request's data. */
  lemma SignedSplitsBack(r: Request, secret: string, now: nat, p: Platform)
    requires Sound(p) && Sign(r, secret, now, p).Some?
    ensures var parts := Split(Sign(r, secret, now, p).value, '.');
            |parts| == 2 && Decode(parts[0]).Some? &&
            var text := p.text(Decode(parts[0]).value);
            && text.Some?
            && Split(text.value, '\n') ==
                 ["nwu1", "resp", Digits(now + 60), r.ip, r.host, SafeReturn(r.path, p), r.nonce]
            && Value(Digits(now + 60)) == now + 60
            && Decode(parts[1]) == Some(p.mac(secret, Decode(parts[0]).value))
  {
    hide Encode, Decode, Split, Join, SafeReturn;
    ResponseFieldsAre(r, now, p);
    FramedReads(ResponseFields(r, now, p), secret, p);
    ValueOfDigits(now + 60);
  }

  /** No response ticket passes as a request ticket, under whatever secret and at whatever time. */
  lemma ResponseIsNoRequest(r: Request, secret: string, now: nat, other: string, later: nat, p: Platform)
    requires Sound(p) && Sign(r, secret, now, p).Some?
    ensures Verify(Sign(r, secret, now, p).value, other, later, p) == Invalid
  {
    SignedSplitsBack(r, secret, now, p);
    hide Encode, Decode, Split, Join, SafeReturn, Digits, Sign;
    assert "resp"[2] != "req"[2];
  }

  function RequestFields(t: Ticket, digits: string): seq<string> {
    ["nwu1", "req", digits, t.ip, t.host, t.path, t.nonce]
  }

  /** The fields are those of a request for an address, a host and a path, with a nonce of 32 hexadecimal digits. */
  ghost predicate Wellformed(t: Ticket, digits: string, p: Platform) {
    && t.kind == "req" && digits != "" && (forall c | c in digits :: '0' <= c <= '9') && Value(digits) == t.exp
    && p.validIp(t.ip) && p.validHost(t.host) && Printable(t.path)
    && |t.nonce| == 32 && forall c | c in t.nonce :: '0' <= c <= '9' || 'a' <= c <= 'f' || 'A' <= c <= 'F'
  }

  /** A well-formed request ticket is accepted from the moment it is signed until it expires, if it is short enough. */
  lemma GoodIsAccepted(t: Ticket, digits: string, secret: string, now: nat, p: Platform)
    requires Sound(p) && Wellformed(t, digits, p) && secret != ""
    requires |Framed(RequestFields(t, digits), secret, p)| <= 4096
    requires t.exp < 0x20_0000_0000_0000 && now < 0x20_0000_0000_0000
    ensures var v := Verify(Framed(RequestFields(t, digits), secret, p), secret, now, p);
            v == if t.exp < now then Expired(t) else if t.exp - now <= 300 then Accepted(t) else Invalid
  {
    hide Framed, Verify, Join, Judge, Wellformed;
    RequestFieldsAre(t, digits, p);
    VerifiesFields(RequestFields(t, digits), secret, now, p);
    JudgeOf(t, digits, now, p);
  }

  lemma RequestFieldsAre(t: Ticket, digits: string, p: Platform)
    requires Sound(p) && Wellformed(t, digits, p)
    ensures forall f | f in RequestFields(t, digits) :: Printable(f)
    ensures Join(RequestFields(t, digits), '\n') != "" && !Marked(Join(RequestFields(t, digits), '\n'))
  {
    var fields := RequestFields(t, digits);
    assert Join(fields, '\n') == fields[0] + ['\n'] + Join(fields[1..], '\n');
  }

  lemma JudgeOf(t: Ticket, digits: string, now: nat, p: Platform)
    requires Sound(p) && Wellformed(t, digits, p) && t.exp < 0x20_0000_0000_0000
    ensures Judge(RequestFields(t, digits), now, p) ==
            if t.exp < now then Expired(t) else if t.exp - now <= 300 then Accepted(t) else Invalid
  {
    hide Value;
    RequestFieldsAre(t, digits, p);
  }

  /**
   * Whatever is accepted is one exact text: the canonical frame, under this secret, of a payload that is just the
   * ticket's fields, with an expiry from now on and at most five minutes ahead.
   */
  lemma AcceptedIsFramed(token: string, secret: string, now: nat, p: Platform)
    returns (bytes: seq<Octet>, digits: string)
    requires Verify(token, secret, now, p).Accepted?
    ensures var t := Verify(token, secret, now, p).ticket;
            && now <= t.exp <= now + 300 && t.kind == "req"
            && token == Encode(bytes) + "." + Encode(p.mac(secret, bytes))
            && p.text(bytes) == Some(Join(RequestFields(t, digits), '\n'))
            && digits != "" && AllDigits(digits) && Value(digits) == t.exp
            && p.validIp(t.ip) && p.validHost(t.host) && ValidNonce(t.nonce)
  {
    hide Encode, Decode, Split, Join, ValidNonce, Value;
    var parts := Split(token, '.');
    DecodesExactly(parts[0]);
    DecodesExactly(parts[1]);
    bytes := Decode(parts[0]).value;
    TwoParts(token);
    var text := p.text(bytes).value;
    JoinSplit(text, '\n');
    var fields := Split(text, '\n');
    digits := fields[2];
    assert fields == RequestFields(Verify(token, secret, now, p).ticket, digits);
  }

  lemma TwoParts(token: string)
    requires |Split(token, '.')| == 2
    ensures token == Split(token, '.')[0] + "." + Split(token, '.')[1]
  {
    hide Split;
    var parts := Split(token, '.');
    JoinSplit(token, '.');
    assert parts[1..] == [parts[1]];
  }
}
