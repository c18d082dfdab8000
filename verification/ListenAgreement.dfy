/** The two readings of a listen text name the same end points exactly if the text is tidy. */
module ListenAgreement {
  import opened Text
  import opened Numbers
  import opened ServerNames
  import opened ListenPorts
  import opened ListenTexts

  /** Directives are written, and they open just the end points the site is grouped under. */
  ghost predicate Agree(l: string, ipv6: bool, blank: char -> bool) {
    Written(l, ipv6).Some? &&
    forall x :: x in Groups(Some(l), ipv6, blank) <==> exists d :: d in Written(l, ipv6).value && Opens(d) == x
  }

  // ----- both readings together -----

  lemma WrittenAre(l: string, ipv6: bool)
    requires Written(l, ipv6).Some?
    ensures PortsOf(JavaSplit(PortSpec(l), ',')).Some?
    ensures var ports := PortsOf(JavaSplit(PortSpec(l), ',')).value;
            forall d :: d in Written(l, ipv6).value <==>
              (d.host == Host(l) || (ipv6 && d.host == Some("[::]"))) && d.port in ports
  {
    hide PortsOf, JavaSplit, Host;
    var ports := PortsOf(JavaSplit(PortSpec(l), ',')).value;
    forall host, d: Directive ensures d in Directives(host, ports) <==> d.host == host && d.port in ports {
      if d.host == host && d.port in ports {
        var k :| 0 <= k < |ports| && ports[k] == d.port;
        assert Directives(host, ports)[k] == d;
      }
    }
  }

  lemma {:induction false} LowerPlain(s: string)
    requires forall c | c in s :: !('A' <= c <= 'Z')
    ensures Lower(s) == s
  {
    if s != "" {
      assert s[0] in s && forall c | c in s[1..] :: c in s;
      LowerPlain(s[1..]);
    }
  }

  lemma SixIsPlain()
    ensures Lower(Trim("[::]")) == "[::]"
  {
    var s := "[::]";
    assert TrimStart(s) == s && TrimEnd(s) == s;
    LowerPlain(s);
  }

  /** The end points that the directives open. */
  lemma OpenedAre(l: string, ipv6: bool, x: Listener)
    requires Written(l, ipv6).Some?
    ensures (exists d :: d in Written(l, ipv6).value && Opens(d) == x) <==>
            x.At? && AddressOk(x.address, Address(l), ipv6) && RawNames(JavaSplit(PortSpec(l), ','), x.port)
  {
    hide PortsOf, JavaSplit, Written, Host, PortSpec, Lower, Trim, RawPart, Between;
    WrittenAre(l, ipv6);
    PortsAre(JavaSplit(PortSpec(l), ','));
    SixIsPlain();
    if x.At? && AddressOk(x.address, Address(l), ipv6) && RawNames(JavaSplit(PortSpec(l), ','), x.port) {
      var d := Directive(if x.address == Address(l) then Host(l) else Some("[::]"), x.port);
      assert d in Written(l, ipv6).value && Opens(d) == x;
    }
  }

  /** What an agreement needs: the generator reads the text, so the selector's pieces are its pieces. */
  lemma Readable(l: string, ipv6: bool, blank: char -> bool)
    requires Sane(blank) && Written(l, ipv6).Some?
    ensures PortChars(PortSpec(l)) && PortSpec(l) != ""
    ensures var m := Stripped(l, blank);
            var r := AddPieces([], Address(m), ipv6, Split(PortSpec(l), ','));
            Groups(Some(l), ipv6, blank) == if r.None? then [Verbatim(Lower(m))] else r.value
  {
    hide AddPieces, JavaSplit, Split;
    ReadableChars(PortSpec(l));
    assert PortSpec(l) != "" by { EmptyIsUnread(PortSpec(l)); }
    KeptBehindColon(l, blank);
  }

  lemma EmptyIsUnread(spec: string)
    requires PortsOf(JavaSplit(spec, ',')).Some?
    ensures spec != ""
  {
  }

  lemma PiecesTidy(spec: string)
    requires PortChars(spec)
    ensures TidyPorts(spec) <==> forall p | p in Split(spec, ',') :: InRange(TrimmedPart(p))
  {
    hide Split, TrimmedPart, TidyPiece, InRange, PortChars;
    PiecesChars(spec, ',');
    forall p | p in Split(spec, ',') ensures InRange(TrimmedPart(p)) <==> TidyPiece(p) { TrimmedIsTidy(p); }
  }

  lemma AgreementIsTidy(l: string, ipv6: bool, blank: char -> bool)
    requires Sane(blank) && Agree(l, ipv6, blank)
    ensures TidyPorts(PortSpec(l))
  {
    hide AddPieces, JavaSplit, Split, TrimmedPart, Written, Groups, TidyPiece, InRange, PortChars, Lower, Trim, Host,
      PortSpec, Stripped, RawNames, AddressOk, Address, TidyPorts;
    var spec, m := PortSpec(l), Stripped(l, blank);
    var pieces := Split(spec, ',');
    Readable(l, ipv6, blank);
    AddPiecesAre([], Address(m), ipv6, pieces);
    if AddPieces([], Address(m), ipv6, pieces).None? {
      var x := Verbatim(Lower(m));
      assert x in Groups(Some(l), ipv6, blank);
      OpenedAre(l, ipv6, x);
    }
    PiecesTidy(spec);
  }

  /** Some port is named, so the addresses must be the same. */
  lemma AgreementIsPlain(l: string, ipv6: bool, blank: char -> bool)
    requires Sane(blank) && Agree(l, ipv6, blank) && TidyPorts(PortSpec(l))
    ensures PlainFront(l, blank)
  {
    hide AddPieces, JavaSplit, Split, TrimmedPart, Written, Groups, TidyPiece, InRange, PortChars, Lower, Trim, Host,
      PortSpec, Stripped, RawNames, Address, TidyPorts, PlainFront, NamesPort;
    var spec, m := PortSpec(l), Stripped(l, blank);
    var pieces := Split(spec, ',');
    Readable(l, ipv6, blank);
    PiecesTidy(spec);
    AddPiecesAre([], Address(m), ipv6, pieces);
    KeptBehindColon(l, blank);
    SameAddress(l, m, blank);
    var n := SomePort(pieces);
    TidyPortsAgree(spec, n);
    TidyIsReadable(spec);
    OpenedAre(l, ipv6, At(Address(m), n));
    OpenedAre(l, ipv6, At(Address(l), n));
  }

  lemma SomePort(pieces: seq<string>) returns (n: int)
    requires pieces != []
    ensures NamesPort(pieces, n)
  {
    hide TrimmedPart;
    n := Start(TrimmedPart(pieces[0]));
    assert pieces[0] in pieces && Between(n, n, End(TrimmedPart(pieces[0])));
  }

  lemma TidyAgrees(l: string, ipv6: bool, blank: char -> bool)
    requires Sane(blank) && TidyPorts(PortSpec(l)) && PlainFront(l, blank)
    ensures Agree(l, ipv6, blank)
  {
    hide AddPieces, JavaSplit, Split, TrimmedPart, Groups, TidyPorts, PlainFront, InRange, PortChars, Lower, Trim, Host,
      PortSpec, PortsOf, Stripped, RawNames, Address, NamesPort;
    var spec, m := PortSpec(l), Stripped(l, blank);
    var pieces := Split(spec, ',');
    TidyIsReadable(spec);
    assert Written(l, ipv6).Some?;
    Readable(l, ipv6, blank);
    PiecesTidy(spec);
    var r := AddPieces([], Address(m), ipv6, pieces);
    AddPiecesAre([], Address(m), ipv6, pieces);
    KeptBehindColon(l, blank);
    SameAddress(l, m, blank);
    forall x ensures x in Groups(Some(l), ipv6, blank) <==> exists d :: d in Written(l, ipv6).value && Opens(d) == x {
      OpenedAre(l, ipv6, x);
      if x.At? { TidyPortsAgree(spec, x.port); }
    }
  }

  /** For every listen text: the groups are the end points of the directives exactly if the text is tidy. */
  lemma GroupsAreDirectives(l: string, ipv6: bool, blank: char -> bool)
    requires Sane(blank)
    ensures Agree(l, ipv6, blank) <==> TidyPorts(PortSpec(l)) && PlainFront(l, blank)
  {
    hide *;
    if Agree(l, ipv6, blank) {
      AgreementIsTidy(l, ipv6, blank);
      AgreementIsPlain(l, ipv6, blank);
    }
    if TidyPorts(PortSpec(l)) && PlainFront(l, blank) { TidyAgrees(l, ipv6, blank); }
  }

  // ----- texts that are read differently -----

  lemma PortIsPlain(x: string)
    requires PortNumber(x)
    ensures PortChars(x) && x != "" && '-' !in x && ',' !in x && ':' !in x
  {
    hide Value;
    NumberChars(x);
    assert x[0] != '-';
    assert x == [x[0]] + x[1..];
  }

  lemma PortIsRead(x: string)
    requires PortNumber(x)
    ensures TrimmedPart(x) == RawPart(x) == Single(ParseInt(x).value) && InRange(TrimmedPart(x))
  {
    hide ParseInt, Trim, Split;
    PortIsPlain(x);
    Unsplit(x, '-');
    TrimNothing(x);
  }

  lemma WithoutColon(l: string)
    requires ':' !in l
    ensures Host(l) == None && PortSpec(l) == l
  {
  }

  lemma KeptWhole(l: string, blank: char -> bool)
    requires ':' !in l && l != "" && !blank(l[0]) && !blank(l[|l| - 1])
    ensures Groups(Some(l), false, blank) ==
            var r := AddPieces([], "*", false, Split(l, ','));
            if r.None? then [Verbatim(Lower(l))] else r.value
  {
    hide AddPieces, Split;
    WithoutColon(l);
    assert StripFront(l, blank) == l;
  }

  /** A hyphen too many: directives for a range of ports, but the text itself as the group, which is no end point. */
  lemma HyphenTooMany(x: string, y: string, blank: char -> bool)
    requires Sane(blank) && PortNumber(x) && PortNumber(y)
    ensures var l := x + ("-" + (y + "-"));
            && Groups(Some(l), false, blank) == [Verbatim(Lower(l))]
            && Written(l, false).Some?
            && forall d :: d in Written(l, false).value <==>
                 d.host == None && Between(d.port, ParseInt(x).value, ParseInt(y).value)
  {
    hide ParseInt, Trim, Split, Lower, LastIndexOf, Count, StripFront, StripBack;
    var l, range := x + ("-" + (y + "-")), [x, y, ""];
    PortIsPlain(x);
    PortIsPlain(y);
    assert PortChars(l) && ',' !in l && ':' !in l;
    WithoutColon(l);
    Unsplit(l, ',');
    TrimNothing(l);
    ThreePieces(x, y);
    assert TrimmedPart(l) == Bad;
    assert l[0] in l && l[|l| - 1] in l;
    KeptWhole(l, blank);
    assert RawPart(l) == Range(ParseInt(x).value, ParseInt(y).value);
    assert [l][1..] == [];
    PortsAre([l]);
    WrittenAre(l, false);
    assert l in [l] && forall n :: RawNames([l], n) <==> Between(n, ParseInt(x).value, ParseInt(y).value);
  }

  lemma ThreePieces(x: string, y: string)
    requires '-' !in x && '-' !in y && y != ""
    ensures Split(x + ("-" + (y + "-")), '-') == [x, y, ""]
    ensures JavaSplit(x + ("-" + (y + "-")), '-') == [x, y]
  {
    hide Split;
    var range := [x, y, ""];
    SplitJoin(range, '-');
    assert range[1..] == [y, ""] && [y, ""][1..] == [""];
    assert Join([""], '-') == "" && Join([y, ""], '-') == y + ['-'] + "" &&
      Join(range, '-') == x + ['-'] + Join([y, ""], '-');
    assert Join(range, '-') == x + ("-" + (y + "-"));
    assert range[..2] == [x, y] && DropEmptyTail([x, y]) == [x, y];
  }

  lemma TwoPieces(x: string, y: string)
    requires ',' !in x && ',' !in y
    ensures Split(x + ("," + y), ',') == [x, y]
  {
    hide Split;
    SplitJoin([x, y], ',');
    assert [x, y][1..] == [y];
    assert Join([x, y], ',') == x + [','] + y == x + ("," + y);
  }

  /** A blank behind the comma: two groups, and no configuration at all. */
  lemma BlankBehindComma(x: string, y: string, blank: char -> bool)
    requires Sane(blank) && PortNumber(x) && PortNumber(y)
    ensures var l := x + (", " + y);
            && Written(l, false).None?
            && forall e :: e in Groups(Some(l), false, blank) <==>
                 e == At("*", ParseInt(x).value) || e == At("*", ParseInt(y).value)
  {
    hide ParseInt, Trim, Split, Lower, Groups, AddPieces, AddPorts, TrimmedPart, RawPart, PortsOf, InRange;
    var l, second := x + (", " + y), " " + y;
    PortIsPlain(x);
    PortIsPlain(y);
    PortIsRead(x);
    BlankInFront(y);
    assert l[0] == x[0] && x[0] in x && l[|l| - 1] == y[|y| - 1] && y[|y| - 1] in y;
    WithoutColon(l);
    var pieces := [x, second];
    TwoPieces(x, second);
    assert l == x + ("," + second);
    KeptWhole(l, blank);
    AddPiecesAre([], "*", false, pieces);
    forall n ensures NamesPort(pieces, n) <==> n == ParseInt(x).value || n == ParseInt(y).value {
      assert x in pieces && second in pieces;
    }
    DropsOnlyEmpty(pieces);
    PortsAre(pieces);
    assert second in pieces;
  }

  lemma BlankIsTrimmed(y: string)
    requires PortChars(y)
    ensures Trim(" " + y) == y
  {
    hide TrimStart, TrimEnd;
    TrimNothing(y);
    TrimStartSkips(" ", y);
  }

  lemma BlankIsNoNumber(y: string)
    ensures ParseInt(" " + y).None?
  {
    hide ParseInt;
    var s := " " + y;
    assert s[0] in s && !PortChar(s[0]);
    if ParseInt(s).Some? { NumberChars(s); }
  }

  lemma BlankInFront(y: string)
    requires PortNumber(y)
    ensures TrimmedPart(" " + y) == Single(ParseInt(y).value) && InRange(TrimmedPart(" " + y)) && RawPart(" " + y).Bad?
  {
    hide ParseInt, Trim, Split;
    var second := " " + y;
    PortIsPlain(y);
    BlankIsTrimmed(y);
    BlankIsNoNumber(y);
    TrimNothing(y);
    Unsplit(y, '-');
    Unsplit(second, '-');
  }

  lemma TwoDigits(a: char, b: char)
    requires '1' <= a <= '9' && IsDigit(b)
    ensures ParseInt([a, b]) == Some(10 * (a as int - '0' as int) + (b as int - '0' as int))
  {
    var s := [a, b];
    assert s[..1] == [a] && [a][..0] == "";
    assert Value([a]) == a as int - '0' as int;
    assert Value(s) == 10 * Value([a]) + (b as int - '0' as int);
  }

  /** Two such texts. */
  lemma ReadDifferently(blank: char -> bool)
    requires Sane(blank)
    ensures Groups(Some("80-90-"), false, blank) == [Verbatim(Lower("80-90-"))]
    ensures Written("80-90-", false).Some?
    ensures forall d :: d in Written("80-90-", false).value <==> d.host == None && Between(d.port, 80, 90)
    ensures Written("80, 81", false).None?
    ensures forall e :: e in Groups(Some("80, 81"), false, blank) <==> e == At("*", 80) || e == At("*", 81)
  {
    hide *;
    Instances("80-90-", "80, 81", blank);
  }

  lemma Instances(l: string, m: string, blank: char -> bool)
    requires Sane(blank) && l == ['8', '0', '-', '9', '0', '-'] && m == ['8', '0', ',', ' ', '8', '1']
    ensures Groups(Some(l), false, blank) == [Verbatim(Lower(l))]
    ensures Written(l, false).Some?
    ensures forall d :: d in Written(l, false).value <==> d.host == None && Between(d.port, 80, 90)
    ensures Written(m, false).None?
    ensures forall e :: e in Groups(Some(m), false, blank) <==> e == At("*", 80) || e == At("*", 81)
  {
    hide ParseInt, Groups, Written, Lower;
    var x, y, z := ['8', '0'], ['9', '0'], ['8', '1'];
    TwoDigits('8', '0');
    TwoDigits('9', '0');
    TwoDigits('8', '1');
    HyphenTooMany(x, y, blank);
    assert x + ("-" + (y + "-")) == l;
    BlankBehindComma(x, z, blank);
    assert x + (", " + z) == m;
  }
}
