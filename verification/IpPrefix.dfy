/** IpMatch: whether a prefix contains an address, decided bit by bit, and what that means for numbers. */
module IpPrefix {
  import opened Numbers

  /** bytes, in network order: 4 or 16 of them; length: how many leading bits count. */
  datatype Prefix = Prefix(bytes: seq<Octet>, length: nat)

  function Mask(k: nat): Octet
    requires k < 8
  {
    if k == 0 then 128 else if k == 1 then 64 else if k == 2 then 32 else if k == 3 then 16
    else if k == 4 then 8 else if k == 5 then 4 else if k == 6 then 2 else 1
  }

  /** The bit under the mask, the highest being bit 0. */
  predicate BitOf(b: Octet, k: nat)
    requires k < 8
  {
    (b / Mask(k)) % 2 == 1
  }

  function OctetBits(b: Octet): seq<bool> {
    [BitOf(b, 0), BitOf(b, 1), BitOf(b, 2), BitOf(b, 3), BitOf(b, 4), BitOf(b, 5), BitOf(b, 6), BitOf(b, 7)]
  }

  function Bits(bytes: seq<Octet>): (r: seq<bool>)
    ensures |r| == 8 * |bytes|
  {
    if bytes == [] then [] else OctetBits(bytes[0]) + Bits(bytes[1..])
  }

  lemma {:induction false} BitAt(bytes: seq<Octet>, i: nat)
    requires i < 8 * |bytes|
    ensures i / 8 < |bytes| && Bits(bytes)[i] == BitOf(bytes[i / 8], i % 8)
  {
    hide BitOf;
    if i >= 8 {
      BitAt(bytes[1..], i - 8);
      assert (i - 8) / 8 == i / 8 - 1 && (i - 8) % 8 == i % 8;
    } else {
      FirstBits(bytes[0], i);
    }
  }

  lemma FirstBits(b: Octet, k: nat)
    requires k < 8
    ensures OctetBits(b)[k] == BitOf(b, k)
  {
    hide BitOf;
  }

  /** The address begins with the prefix's bits. */
  predicate Holds(p: Prefix, addr: seq<Octet>) {
    |p.bytes| == |addr| && p.length <= 8 * |addr| && Bits(addr)[..p.length] == Bits(p.bytes)[..p.length]
  }

  /** contains. */
  method Contains(p: Prefix, addr: seq<Octet>) returns (r: bool)
    ensures r == Holds(p, addr)
  {
    hide BitOf, Bits;
    if |p.bytes| != |addr| || p.length > 8 * |p.bytes| { return false; }
    for i := 0 to p.length
      invariant forall k | 0 <= k < i :: Bits(addr)[k] == Bits(p.bytes)[k]
    {
      BitAt(p.bytes, i);
      BitAt(addr, i);
      if BitOf(p.bytes[i / 8], i % 8) != BitOf(addr[i / 8], i % 8) {
        assert Bits(addr)[..p.length][i] == Bits(addr)[i] && Bits(p.bytes)[..p.length][i] == Bits(p.bytes)[i];
        return false;
      }
    }
    r := true;
  }

  // ----- prefixes as intervals of numbers -----

  function Number(bits: seq<bool>): nat {
    if bits == [] then 0 else 2 * Number(bits[..|bits| - 1]) + if bits[|bits| - 1] then 1 else 0
  }

  function Power(n: nat): (r: nat)
    ensures r > 0
  {
    if n == 0 then 1 else 2 * Power(n - 1)
  }

  /** The address as a number. */
  function Value(addr: seq<Octet>): nat {
    Number(Bits(addr))
  }

  lemma NumberMore(bits: seq<bool>, b: bool)
    ensures Number(bits + [b]) == 2 * Number(bits) + if b then 1 else 0
  {
    assert (bits + [b])[..|bits|] == bits;
  }

  lemma {:induction false} NumberSplits(top: seq<bool>, rest: seq<bool>)
    ensures Number(top + rest) == Number(top) * Power(|rest|) + Number(rest)
    ensures Number(rest) < Power(|rest|)
  {
    hide Number;
    if rest == [] {
      assert top + rest == top;
      assert Number(rest) == 0 by { NumberOfNone(); }
    } else {
      var init, last := rest[..|rest| - 1], rest[|rest| - 1];
      NumberSplits(top, init);
      assert top + rest == top + init + [last] && rest == init + [last];
      NumberMore(top + init, last);
      NumberMore(init, last);
      Doubled(Number(top), Power(|init|));
    }
  }

  lemma Doubled(a: nat, b: nat)
    ensures 2 * (a * b) == a * (2 * b)
  {
  }

  lemma NumberOfNone()
    ensures Number([]) == 0
  {
  }

  lemma {:induction false} SameNumber(a: seq<bool>, b: seq<bool>)
    requires |a| == |b|
    ensures Number(a) == Number(b) <==> a == b
  {
    if a != [] {
      var x, y := a[..|a| - 1], b[..|b| - 1];
      SameNumber(x, y);
      assert a == x + [a[|a| - 1]] && b == y + [b[|b| - 1]];
    }
  }

  lemma InBlock(t: nat, u: nat, size: nat, x: nat)
    requires x < size
    ensures u * size <= t * size + x < (u + 1) * size <==> t == u
  {
    if t < u {
      assert (t + 1) * size <= u * size;
    } else if u < t {
      assert (u + 1) * size <= t * size;
    }
  }

  /** The first and the number of addresses of a prefix. */
  function Size(p: Prefix): nat
    requires p.length <= 8 * |p.bytes|
  {
    Power(8 * |p.bytes| - p.length)
  }

  function Base(p: Prefix): nat
    requires p.length <= 8 * |p.bytes|
  {
    Number(Bits(p.bytes)[..p.length]) * Size(p)
  }

  /** A prefix holds exactly the addresses of one interval. */
  lemma HoldsIsInterval(p: Prefix, addr: seq<Octet>)
    requires |p.bytes| == |addr| && p.length <= 8 * |addr|
    ensures Holds(p, addr) <==> Base(p) <= Value(addr) < Base(p) + Size(p)
  {
    hide Bits, Number, Power;
    var bits := Bits(addr);
    var top, rest := bits[..p.length], bits[p.length..];
    var net := Bits(p.bytes)[..p.length];
    assert bits == top + rest;
    NumberSplits(top, rest);
    SameNumber(top, net);
    InBlock(Number(top), Number(net), Size(p), Number(rest));
    NextBlock(Number(net), Size(p));
  }

  lemma NextBlock(u: nat, size: nat)
    requires size > 0
    ensures (u + 1) * size == u * size + size
  {
  }

  /** Two prefixes with an address in common are nested: the longer one lies in the shorter one. */
  lemma NestedOrDisjoint(p: Prefix, q: Prefix, common: seq<Octet>, addr: seq<Octet>)
    requires Holds(p, common) && Holds(q, common) && p.length <= q.length && Holds(q, addr)
    ensures Holds(p, addr)
  {
    hide Bits;
    var a, c, n := Bits(addr), Bits(common), p.length;
    assert a[..n] == a[..q.length][..n] == Bits(q.bytes)[..q.length][..n] == c[..q.length][..n] == c[..n];
  }
}
