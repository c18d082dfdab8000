/**
 * Listen texts, character by character and piece by piece.
 *
 * What a number, a piece or a port list can consist of, if one of the two readers accepts it; that on such texts
 * neither String.trim nor StrUtil.trim has anything to remove behind the colon; and what they remove in front of it.
 * A tidy piece is read alike by both.
 */
module ListenTexts {
  import opened Text
  import opened Numbers
  import opened ServerNames
  import opened ListenPorts

  predicate PortNumber(x: string) {
    ParseInt(x).Some? && IsPort(ParseInt(x).value)
  }

  predicate TidyPiece(piece: string) {
    |Split(piece, '-')| <= 2 && forall x | x in Split(piece, '-') :: PortNumber(x)
  }

  predicate TidyPorts(spec: string) {
    forall p | p in Split(spec, ',') :: TidyPiece(p)
  }

  predicate AllPlain(s: string) {
    forall c | c in s :: c <= ' '
  }

  /** StrUtil.trim takes nothing from the front of the address that String.trim would leave. */
  predicate PlainFront(l: string, blank: char -> bool) {
    match Host(l)
    case None => true
    case Some(host) => AllPlain(host[..|host| - |StripFront(host, blank)|])
  }

  /** Digits, signs, commas and colons are not blank. */
  ghost predicate Sane(blank: char -> bool) {
    !blank(':') && forall c | PortChar(c) :: !blank(c)
  }

  // ----- the characters of a readable text -----

  predicate PortChar(c: char) {
    IsDigit(c) || c == '+' || c == '-' || c == ','
  }

  predicate PortChars(s: string) {
    forall c | c in s :: PortChar(c)
  }

  lemma NumberChars(s: string)
    requires ParseInt(s).Some?
    ensures PortChars(s) && s != ""
  {
    assert s[0] == '+' || s[0] == '-' ==> s == [s[0]] + s[1..];
  }

  lemma {:induction false} PiecesChars(s: string, c: char)
    requires PortChar(c)
    ensures PortChars(s) <==> forall p | p in Split(s, c) :: PortChars(p)
    decreases |s|
  {
    var e := IndexOf(s, c, 0);
    hide IndexOf;
    if e.Some? {
      var head, tail := s[..e.value], s[e.value + 1..];
      assert s == head + [c] + tail;
      PiecesChars(tail, c);
      assert PortChars(s) <==> PortChars(head) && PortChars(tail);
      assert Split(s, c) == [head] + Split(tail, c);
      assert forall p :: p in Split(s, c) <==> p == head || p in Split(tail, c);
    } else {
      assert Split(s, c) == [s];
    }
  }

  lemma TrimNothing(s: string)
    requires PortChars(s)
    ensures Trim(s) == s
  {
    if s != "" { assert s[0] in s && s[|s| - 1] in s; }
  }

  lemma {:induction false} DropsOnlyEmpty(ps: seq<string>)
    ensures forall p | p in ps :: p == "" || p in DropEmptyTail(ps)
    ensures forall p | p in DropEmptyTail(ps) :: p in ps
    ensures (forall p | p in ps :: p != "") ==> DropEmptyTail(ps) == ps
  {
    if ps != [] && ps[|ps| - 1] == "" {
      assert ps == ps[..|ps| - 1] + [""] && "" in ps;
      DropsOnlyEmpty(ps[..|ps| - 1]);
    }
  }

  lemma {:induction false} Unsplit(s: string, c: char)
    ensures c !in s ==> Split(s, c) == [s]
    ensures c in s ==> |Split(s, c)| >= 2
  {
    if c !in s { NotFound(s, c); } else { assert s[0..] == s; }
  }

  /** What JavaSplit yields has the characters of the text. */
  lemma JavaPieces(s: string, c: char)
    requires PortChar(c)
    ensures PortChars(s) <==> forall p | p in JavaSplit(s, c) :: PortChars(p)
    ensures (forall p | p in Split(s, c) :: p != "") ==> JavaSplit(s, c) == Split(s, c)
  {
    PiecesChars(s, c);
    Unsplit(s, c);
    DropsOnlyEmpty(Split(s, c));
  }

  lemma RawPartChars(piece: string)
    requires !RawPart(piece).Bad?
    ensures PortChars(piece)
  {
    hide JavaSplit, ParseInt, PortChars;
    var range := JavaSplit(piece, '-');
    if |range| == 2 {
      NumberChars(range[0]);
      NumberChars(range[1]);
      JavaPieces(piece, '-');
    } else {
      NumberChars(piece);
    }
  }

  // ----- one piece, read twice -----

  lemma TrimmedIsTidy(piece: string)
    requires PortChars(piece)
    ensures InRange(TrimmedPart(piece)) <==> TidyPiece(piece)
  {
    hide Trim, Split, ParseInt, PortChars;
    TrimNothing(piece);
    var range := Split(piece, '-');
    PiecesChars(piece, '-');
    forall x | x in range ensures Trim(x) == x { TrimNothing(x); }
    var first := range[0];
    assert first in range && Trim(first) == first;
    if |range| == 1 {
      assert range == [first];
      assert TidyPiece(piece) <==> PortNumber(first);
    } else if |range| == 2 {
      var second := range[1];
      assert range == [first, second] && second in range && Trim(second) == second;
      assert TidyPiece(piece) <==> PortNumber(first) && PortNumber(second);
    }
  }

  lemma TidyIsRead(piece: string)
    requires TidyPiece(piece)
    ensures PortChars(piece) && RawPart(piece) == TrimmedPart(piece) && !RawPart(piece).Bad? && piece != ""
  {
    hide Trim, Split, ParseInt, PortChars, JavaSplit;
    var range := Split(piece, '-');
    forall x | x in range ensures PortChars(x) && x != "" { NumberChars(x); }
    PiecesChars(piece, '-');
    JavaPieces(piece, '-');
    TrimNothing(piece);
    forall x | x in range ensures Trim(x) == x { TrimNothing(x); }
    assert range[0] in range;
    if '-' in piece {
      Unsplit(piece, '-');
      assert range[1] in range;
      NumberChars(range[0]);
    } else {
      Unsplit(piece, '-');
    }
    assert piece != "" by { if piece == "" { Unsplit("", '-'); } }
  }

  // ----- the generator's ports -----

  lemma {:induction false} CountIs(start: int, end: int)
    ensures forall n :: n in Count(start, end) <==> Between(n, start, end)
    decreases if start <= end then end - start else start - end
  {
    if start != end { CountIs(start + Step(start, end), end); }
  }

  predicate RawNames(pieces: seq<string>, n: int) {
    exists p :: p in pieces && Between(n, Start(RawPart(p)), End(RawPart(p)))
  }

  lemma {:induction false} PortsAre(pieces: seq<string>)
    ensures PortsOf(pieces).Some? <==> forall p | p in pieces :: !RawPart(p).Bad?
    ensures PortsOf(pieces).Some? ==> forall n :: n in PortsOf(pieces).value <==> RawNames(pieces, n)
  {
    hide RawPart, Count, Between;
    if pieces != [] {
      var part := RawPart(pieces[0]);
      assert pieces == [pieces[0]] + pieces[1..];
      PortsAre(pieces[1..]);
      CountIs(Start(part), End(part));
    }
  }

  /** A text the generator can read holds nothing that either trimming could remove. */
  lemma ReadableChars(spec: string)
    requires PortsOf(JavaSplit(spec, ',')).Some?
    ensures PortChars(spec)
  {
    hide JavaSplit, RawPart, PortsOf, PortChars;
    PortsAre(JavaSplit(spec, ','));
    forall p | p in JavaSplit(spec, ',') ensures PortChars(p) { RawPartChars(p); }
    JavaPieces(spec, ',');
  }

  lemma TidyIsReadable(spec: string)
    requires TidyPorts(spec)
    ensures PortChars(spec) && JavaSplit(spec, ',') == Split(spec, ',') && PortsOf(JavaSplit(spec, ',')).Some?
  {
    hide JavaSplit, RawPart, TrimmedPart, PortsOf, PortChars, TidyPiece, Split;
    var pieces := Split(spec, ',');
    forall p | p in pieces ensures PortChars(p) && p != "" && !RawPart(p).Bad? { TidyIsRead(p); }
    PiecesChars(spec, ',');
    JavaPieces(spec, ',');
    PortsAre(pieces);
  }

  /** The same ports under both readings. */
  lemma TidyPortsAgree(spec: string, n: int)
    requires TidyPorts(spec)
    ensures NamesPort(Split(spec, ','), n) <==> RawNames(Split(spec, ','), n)
  {
    hide RawPart, TrimmedPart, TidyPiece, Split, Between, PortChars;
    forall p | p in Split(spec, ',') ensures RawPart(p) == TrimmedPart(p) { TidyIsRead(p); }
  }

  // ----- trimming the whole text -----

  lemma {:induction false} StripFrontOf(host: string, rest: string, blank: char -> bool)
    requires rest != "" && !blank(rest[0])
    ensures StripFront(host + rest, blank) == StripFront(host, blank) + rest
  {
    if host == "" {
      assert host + rest == rest;
    } else {
      assert (host + rest)[1..] == host[1..] + rest;
      if blank(host[0]) { StripFrontOf(host[1..], rest, blank); }
    }
  }

  lemma ColonAt(host: string, spec: string)
    requires ':' !in spec
    ensures Host(host + (":" + spec)) == Some(host) && PortSpec(host + (":" + spec)) == spec
  {
    var l := host + (":" + spec);
    var r := LastIndexOf(l, ':');
    assert l[|host|] == ':' && l[|host| + 1..] == spec;
    forall k | |host| < k < |l| ensures l[k] != ':' {
      assert l[k] == spec[k - |host| - 1];
    }
    assert l[|host|] in l[r.value + 1..] || r.value >= |host|;
    assert l[..|host|] == host;
  }

  function Stripped(l: string, blank: char -> bool): string {
    StripBack(StripFront(l, blank), blank)
  }

  lemma KeptBehindColon(l: string, blank: char -> bool)
    requires Sane(blank) && PortChars(PortSpec(l)) && PortSpec(l) != ""
    ensures Stripped(l, blank) != "" && PortSpec(Stripped(l, blank)) == PortSpec(l)
    ensures Host(Stripped(l, blank)) ==
            match Host(l) case None => None case Some(host) => Some(StripFront(host, blank))
  {
    var spec := PortSpec(l);
    assert !blank(spec[0]) && !blank(spec[|spec| - 1]) by { assert spec[0] in spec && spec[|spec| - 1] in spec; }
    if Host(l).None? {
      assert l == spec;
    } else {
      var host := Host(l).value;
      assert l == host + (":" + spec);
      StripFrontOf(host, ":" + spec, blank);
      ColonAt(StripFront(host, blank), spec);
    }
  }

  // ----- the address -----

  lemma {:induction false} TrimStartSkips(a: string, b: string)
    requires AllPlain(a)
    ensures TrimStart(a + b) == TrimStart(b)
  {
    if a == "" {
      assert a + b == b;
    } else {
      assert (a + b)[1..] == a[1..] + b && a[0] in a && forall c | c in a[1..] :: c in a;
      TrimStartSkips(a[1..], b);
    }
  }

  lemma {:induction false} TrimStartBlank(s: string, c: char)
    requires c <= ' '
    ensures TrimStart(s + [c]) == if TrimStart(s) == "" then "" else TrimStart(s) + [c]
  {
    if s != "" {
      assert (s + [c])[1..] == s[1..] + [c];
      if s[0] <= ' ' { TrimStartBlank(s[1..], c); }
    } else {
      assert s + [c] == [c] && [c][1..] == "";
    }
  }

  lemma TrimBlank(s: string, c: char)
    requires c <= ' '
    ensures Trim(s + [c]) == Trim(s)
  {
    TrimStartBlank(s, c);
    if TrimStart(s) != "" { assert (TrimStart(s) + [c])[..|TrimStart(s)|] == TrimStart(s); }
  }

  lemma TrimEndBlank(s: string, c: char)
    ensures TrimEnd(s + [c]) == if c <= ' ' then TrimEnd(s) else s + [c]
  {
    assert (s + [c])[..|s|] == s;
  }

  lemma {:induction false} TrimShorter(u: string, s: string)
    requires u != "" && u[0] > ' '
    ensures |Trim(s)| < |TrimEnd(u + s)|
  {
    if s == "" {
      assert u + s == u;
      TrimEndFirst(u);
    } else {
      hide TrimEnd, TrimStart;
      var init, c := s[..|s| - 1], s[|s| - 1];
      assert s == init + [c] && u + s == (u + init) + [c];
      TrimEndBlank(u + init, c);
      if c <= ' ' {
        TrimBlank(init, c);
        TrimShorter(u, init);
      }
    }
  }

  lemma {:induction false} FirstInk(a: string, k: nat)
    requires k < |a| && a[k] > ' '
    ensures |TrimStart(a)| >= |a| - k
  {
    if a[0] <= ' ' { FirstInk(a[1..], k - 1); }
  }

  lemma InkInFront(a: string, b: string, k: nat)
    requires k < |a| && a[k] > ' '
    ensures |Trim(b)| < |Trim(a + b)|
  {
    hide TrimEnd;
    FirstInk(a + b, k);
    var t := TrimStart(a + b);
    assert t[0] > ' ';
    hide TrimStart;
    var u := t[..|t| - |b|];
    assert t == u + b && u[0] == t[0];
    TrimShorter(u, b);
  }

  /** Without a prefix, a text has the same trimmed form exactly if the prefix is plain. */
  lemma SameTrimmed(a: string, b: string)
    ensures Lower(Trim(a + b)) == Lower(Trim(b)) <==> AllPlain(a)
  {
    hide TrimEnd, TrimStart, Lower;
    if k :| 0 <= k < |a| && a[k] > ' ' {
      assert a[k] in a;
      InkInFront(a, b, k);
    } else {
      TrimStartSkips(a, b);
    }
  }

  lemma SameAddress(l: string, m: string, blank: char -> bool)
    requires Host(m) == match Host(l) case None => None case Some(host) => Some(StripFront(host, blank))
    ensures Address(m) == Address(l) <==> PlainFront(l, blank)
  {
    hide Trim, Lower, LastIndexOf, StripFront, AllPlain;
    if Host(l).Some? {
      var host := Host(l).value;
      var rest := StripFront(host, blank);
      var front := host[..|host| - |rest|];
      assert host == front + rest;
      SameTrimmed(front, rest);
    }
  }
}
