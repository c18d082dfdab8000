/** tickets.js: the unpadded text form of bytes (section 5 of RFC 4648), and which texts are accepted back. */
module Base64Url {
  import opened Text
  import opened Numbers

  /** The value of six bits. */
  newtype Sextet = x: int | 0 <= x < 64

  function Letter(v: Sextet): char {
    if v < 26 then 'A' + v as char
    else if v < 52 then 'a' + (v - 26) as char
    else if v < 62 then '0' + (v - 52) as char
    else if v == 62 then '-' else '_'
  }

  function Meaning(c: char): Option<Sextet> {
    if 'A' <= c <= 'Z' then Some((c - 'A') as Sextet)
    else if 'a' <= c <= 'z' then Some((c - 'a') as Sextet + 26)
    else if '0' <= c <= '9' then Some((c - '0') as Sextet + 52)
    else if c == '-' then Some(62)
    else if c == '_' then Some(63)
    else None
  }

  lemma LetterMeaning(v: Sextet)
    ensures Meaning(Letter(v)) == Some(v)
  {
  }

  lemma MeaningLetter(c: char)
    requires Meaning(c).Some?
    ensures Letter(Meaning(c).value) == c
  {
  }

  function Letters(vs: seq<Sextet>): (r: string)
    ensures |r| == |vs|
  {
    if vs == [] then "" else [Letter(vs[0])] + Letters(vs[1..])
  }

  /** None if a character is not in the alphabet. */
  function Meanings(s: string): (r: Option<seq<Sextet>>)
    ensures r.Some? ==> |r.value| == |s|
  {
    if s == "" then Some([])
    else
      var rest := Meanings(s[1..]);
      if Meaning(s[0]).Some? && rest.Some? then Some([Meaning(s[0]).value] + rest.value) else None
  }

  lemma {:induction false} LettersMean(vs: seq<Sextet>)
    ensures Meanings(Letters(vs)) == Some(vs)
  {
    hide Letter, Meaning;
    if vs != [] {
      LetterMeaning(vs[0]);
      LettersMean(vs[1..]);
      assert Letters(vs)[1..] == Letters(vs[1..]) && vs == [vs[0]] + vs[1..];
    }
  }

  lemma {:induction false} MeaningsSpell(s: string)
    requires Meanings(s).Some?
    ensures Letters(Meanings(s).value) == s
  {
    hide Letter, Meaning;
    if s != "" {
      MeaningLetter(s[0]);
      MeaningsSpell(s[1..]);
      assert Meanings(s).value[1..] == Meanings(s[1..]).value;
    }
  }

  // ----- bytes in groups of three -----

  function Regroup(bytes: seq<Octet>): (r: seq<Sextet>)
    ensures bytes != [] ==> r != []
  {
    if |bytes| == 0 then []
    else if |bytes| == 1 then
      [(bytes[0] / 4) as Sextet, (bytes[0] % 4) as Sextet * 16]
    else if |bytes| == 2 then
      [(bytes[0] / 4) as Sextet, (bytes[0] % 4) as Sextet * 16 + (bytes[1] / 16) as Sextet,
       (bytes[1] % 16) as Sextet * 4]
    else
      Three(bytes[0], bytes[1], bytes[2]) + Regroup(bytes[3..])
  }

  function Three(a: Octet, b: Octet, c: Octet): seq<Sextet> {
    [(a / 4) as Sextet, (a % 4) as Sextet * 16 + (b / 16) as Sextet,
     (b % 16) as Sextet * 4 + (c / 64) as Sextet, (c % 64) as Sextet]
  }

  function High(a: Sextet, b: Sextet): Octet {
    a as Octet * 4 + (b / 16) as Octet
  }

  function Middle(a: Sextet, b: Sextet): Octet {
    (a % 16) as Octet * 16 + (b / 4) as Octet
  }

  function Low(a: Sextet, b: Sextet): Octet {
    (a % 4) as Octet * 64 + b as Octet
  }

  /** atob: the bits left over at the end are dropped; a single left-over character is refused before. */
  function Ungroup(vs: seq<Sextet>): seq<Octet> {
    if |vs| < 2 then []
    else if |vs| == 2 then [High(vs[0], vs[1])]
    else if |vs| == 3 then [High(vs[0], vs[1]), Middle(vs[1], vs[2])]
    else [High(vs[0], vs[1]), Middle(vs[1], vs[2]), Low(vs[2], vs[3])] + Ungroup(vs[4..])
  }

  /** b64. */
  function Encode(bytes: seq<Octet>): string {
    Letters(Regroup(bytes))
  }

  /** unb64. */
  function Decode(text: string): Option<seq<Octet>> {
    if text == "" || Meanings(text).None? || |text| % 4 == 1 then None
    else
      var bytes := Ungroup(Meanings(text).value);
      if Encode(bytes) != text then None else Some(bytes)
  }

  lemma ThreeBack(a: Octet, b: Octet, c: Octet)
    ensures var t := Three(a, b, c); High(t[0], t[1]) == a && Middle(t[1], t[2]) == b && Low(t[2], t[3]) == c
  {
  }

  lemma OneBack(a: Octet)
    ensures High((a / 4) as Sextet, (a % 4) as Sextet * 16) == a
  {
  }

  lemma TwoBack(a: Octet, b: Octet)
    ensures High((a / 4) as Sextet, (a % 4) as Sextet * 16 + (b / 16) as Sextet) == a
    ensures Middle((a % 4) as Sextet * 16 + (b / 16) as Sextet, (b % 16) as Sextet * 4) == b
  {
  }

  lemma UngroupFour(vs: seq<Sextet>)
    requires |vs| >= 4
    ensures var bytes := Ungroup(vs);
            && |bytes| >= 3 && bytes[0] == High(vs[0], vs[1]) && bytes[1] == Middle(vs[1], vs[2]) &&
                 bytes[2] == Low(vs[2], vs[3])
            && bytes[3..] == Ungroup(vs[4..])
  {
    hide High, Middle, Low;
  }

  lemma RegroupThree(bytes: seq<Octet>)
    requires |bytes| >= 3
    ensures Regroup(bytes) == Three(bytes[0], bytes[1], bytes[2]) + Regroup(bytes[3..])
  {
    hide Three;
  }

  lemma {:induction false} UngroupRegroup(bytes: seq<Octet>)
    ensures Ungroup(Regroup(bytes)) == bytes && |Regroup(bytes)| % 4 != 1
  {
    hide High, Middle, Low;
    if |bytes| == 1 {
      OneBack(bytes[0]);
    } else if |bytes| == 2 {
      TwoBack(bytes[0], bytes[1]);
    } else if |bytes| >= 3 {
      UngroupRegroup(bytes[3..]);
      GroupStep(bytes);
    }
  }

  lemma GroupStep(bytes: seq<Octet>)
    requires |bytes| >= 3 && Ungroup(Regroup(bytes[3..])) == bytes[3..] && |Regroup(bytes[3..])| % 4 != 1
    ensures Ungroup(Regroup(bytes)) == bytes && |Regroup(bytes)| % 4 != 1
  {
    hide High, Middle, Low, Regroup, Ungroup;
    var t, rest := Three(bytes[0], bytes[1], bytes[2]), Regroup(bytes[3..]);
    RegroupThree(bytes);
    ThreeBack(bytes[0], bytes[1], bytes[2]);
    var vs := Regroup(bytes);
    assert vs == t + rest && vs[4..] == rest && |t| == 4;
    assert vs[0] == t[0] && vs[1] == t[1] && vs[2] == t[2] && vs[3] == t[3];
    UngroupFour(vs);
    assert bytes == bytes[..3] + bytes[3..];
  }

  /** What is encoded is decoded to the same bytes. */
  lemma DecodeEncode(bytes: seq<Octet>)
    requires bytes != []
    ensures Decode(Encode(bytes)) == Some(bytes)
  {
    hide Regroup, Ungroup, Letters, Meanings;
    LettersMean(Regroup(bytes));
    UngroupRegroup(bytes);
  }

  /** The bits behind the last whole byte are zero. */
  predicate ZeroTail(vs: seq<Sextet>) {
    (|vs| % 4 == 2 ==> vs[|vs| - 1] % 16 == 0) && (|vs| % 4 == 3 ==> vs[|vs| - 1] % 4 == 0)
  }

  lemma HighBack(p: Sextet, q: Sextet)
    ensures (High(p, q) / 4) as Sextet == p && (High(p, q) % 4) as Sextet == q / 16
  {
  }

  lemma MiddleBack(q: Sextet, r: Sextet)
    ensures (Middle(q, r) / 16) as Sextet == q % 16 && (Middle(q, r) % 16) as Sextet == r / 4
  {
  }

  lemma LowBack(r: Sextet, s: Sextet)
    ensures (Low(r, s) / 64) as Sextet == r % 4 && (Low(r, s) % 64) as Sextet == s
  {
  }

  lemma GroupBack(p: Sextet, q: Sextet, r: Sextet, s: Sextet)
    ensures Three(High(p, q), Middle(q, r), Low(r, s)) == [p, q, r, s]
  {
    hide High, Middle, Low;
    HighBack(p, q);
    MiddleBack(q, r);
    LowBack(r, s);
    assert (q / 16) * 16 + q % 16 == q && (r / 4) * 4 + r % 4 == r;
  }

  lemma RoundedDown(q: Sextet)
    ensures (q / 16) * 16 == q <==> q % 16 == 0
    ensures (q / 4) * 4 == q <==> q % 4 == 0
    ensures (q % 16) + (q / 16) * 16 == q
  {
  }

  lemma PairBack(p: Sextet, q: Sextet)
    ensures Regroup([High(p, q)]) == [p, q] <==> q % 16 == 0
  {
    hide High;
    HighBack(p, q);
    RoundedDown(q);
  }

  lemma TripleBack(p: Sextet, q: Sextet, r: Sextet)
    ensures Regroup([High(p, q), Middle(q, r)]) == [p, q, r] <==> r % 4 == 0
  {
    hide High, Middle;
    HighBack(p, q);
    MiddleBack(q, r);
    RoundedDown(q);
    RoundedDown(r);
  }

  lemma ShortBack(vs: seq<Sextet>)
    requires |vs| == 0 || |vs| == 2 || |vs| == 3
    ensures Regroup(Ungroup(vs)) == vs <==> ZeroTail(vs)
    ensures vs != [] ==> Ungroup(vs) != []
  {
    hide High, Middle, Low, Regroup;
    if |vs| == 2 {
      PairBack(vs[0], vs[1]);
      assert vs == [vs[0], vs[1]];
    } else if |vs| == 3 {
      TripleBack(vs[0], vs[1], vs[2]);
      assert vs == [vs[0], vs[1], vs[2]];
    } else {
      assert Regroup([]) == [] by { NothingRegrouped(); }
    }
  }

  lemma NothingRegrouped()
    ensures Regroup([]) == []
  {
  }

  lemma {:induction false} RegroupUngroup(vs: seq<Sextet>)
    requires |vs| % 4 != 1
    ensures Regroup(Ungroup(vs)) == vs <==> ZeroTail(vs)
    ensures vs != [] ==> Ungroup(vs) != []
  {
    hide High, Middle, Low, Three, ZeroTail;
    if |vs| >= 4 {
      RegroupUngroup(vs[4..]);
      GroupBack(vs[0], vs[1], vs[2], vs[3]);
      UngroupFour(vs);
      RegroupThree(Ungroup(vs));
      FourMore(vs, Regroup(Ungroup(vs[4..])));
    } else {
      ShortBack(vs);
    }
  }

  lemma FourMore(vs: seq<Sextet>, rest: seq<Sextet>)
    requires |vs| >= 4
    ensures [vs[0], vs[1], vs[2], vs[3]] + rest == vs <==> rest == vs[4..]
    ensures ZeroTail(vs) <==> ZeroTail(vs[4..])
  {
    var four := [vs[0], vs[1], vs[2], vs[3]];
    assert vs == four + vs[4..];
    assert (four + rest)[4..] == rest;
    assert |vs| % 4 == |vs[4..]| % 4;
  }

  /** A non-empty text in the alphabet that is the canonical form of some bytes. */
  predicate Canonical(text: string) {
    text != "" && Meanings(text).Some? && |text| % 4 != 1 && ZeroTail(Meanings(text).value)
  }

  /** Exactly the canonical texts are accepted, and each stands for the bytes it encodes. */
  lemma DecodesExactly(text: string)
    ensures Decode(text).Some? <==> Canonical(text)
    ensures Decode(text).Some? ==> Decode(text).value != [] && Encode(Decode(text).value) == text
  {
    hide Regroup, Ungroup, Letters, Meanings;
    if text != "" && Meanings(text).Some? && |text| % 4 != 1 {
      var vs := Meanings(text).value;
      MeaningsSpell(text);
      RegroupUngroup(vs);
      LettersMean(vs);
      LettersMean(Regroup(Ungroup(vs)));
    }
  }
}
