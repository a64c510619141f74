/** Networks as blocks of consecutive addresses: a masked network is determined by its members. */
module Networks {
  import opened Addresses

  /** A masked network is a block of consecutive addresses. */
  lemma InMasked(net: Net, ip: Ip)
    requires Masked(net)
    ensures InNet(ip, net) <==>
            ip.V4? == net.base.V4? && net.base.Value() <= ip.Value() < net.base.Value() + Size(net)
  {
    DivideBlock(net.base.Value(), Size(net), ip.Value());
  }

  lemma DivideBlock(base: nat, size: nat, v: nat)
    requires size > 0 && base % size == 0
    ensures v / size == base / size <==> base <= v < base + size
  {
    var p, q := base / size, v / size;
    assert base == p * size && v == q * size + v % size;
    MultiplesStep(q, p, size);
    MultiplesStep(p, q, size);
  }

  lemma MultiplesStep(q: nat, p: nat, size: nat)
    ensures q < p ==> q * size + size <= p * size
  {
    if q < p {
      assert (q + 1) * size <= p * size;
    }
  }

  lemma {:induction false} PowersMultiply(a: nat, b: nat)
    ensures Pow2(a + b) == Pow2(a) * Pow2(b)
  {
    if a > 0 {
      PowersMultiply(a - 1, b);
    }
  }

  lemma {:induction false} SameSizeSamePower(j: nat, k: nat)
    requires Pow2(j) == Pow2(k)
    ensures j == k
  {
    if j > 0 && k > 0 {
      SameSizeSamePower(j - 1, k - 1);
    }
  }

  lemma FamilySizes()
    ensures Pow2(32) == 0x1_0000_0000
    ensures Pow2(128) == 0x1_0000_0000_0000_0000_0000_0000_0000_0000
  {
    assert Pow2(8) == 0x100;
    Doubled(8, 0x100);
    Doubled(16, 0x1_0000);
    Doubled(32, 0x1_0000_0000);
    Doubled(64, 0x1_0000_0000_0000_0000);
  }

  lemma Doubled(k: nat, p: nat)
    requires Pow2(k) == p
    ensures Pow2(2 * k) == p * p
  {
    PowersMultiply(k, k);
  }

  /** The block of a masked network ends within its family. */
  lemma BlockFits(net: Net)
    requires Masked(net)
    ensures net.base.Value() + Size(net) <= Pow2(net.base.Bits())
  {
    FamilySizes();
    PowersMultiply(net.prefix, net.base.Bits() - net.prefix);
    MultipleFits(net.base.Value(), Size(net), Pow2(net.prefix));
  }

  lemma MultipleFits(base: nat, size: nat, count: nat)
    requires size > 0 && base % size == 0 && base < count * size
    ensures base + size <= count * size
  {
    var q := base / size;
    assert base == q * size;
    MultiplesStep(q, count, size);
    assert q >= count ==> q * size >= count * size;
  }

  /** The address of a value in the family of another address. */
  function IpAt(like: Ip, v: nat): (ip: Ip)
    requires v < Pow2(like.Bits())
    ensures ip.V4? == like.V4? && ip.Value() == v
  {
    FamilySizes();
    if like.V4? then V4(v) else V6(v)
  }

  ghost predicate SameMembers(a: Net, b: Net) {
    forall ip :: InNet(ip, a) <==> InNet(ip, b)
  }

  /** A masked network is determined by the addresses in it. */
  lemma NetIsItsMembers(a: Net, b: Net)
    requires Masked(a) && Masked(b) && SameMembers(a, b)
    ensures a == b
  {
    InMasked(a, a.base);
    InMasked(b, a.base);
    InMasked(a, b.base);
    InMasked(b, b.base);
    EndInside(a, b);
    EndInside(b, a);
    SameSizeSamePower(a.base.Bits() - a.prefix, b.base.Bits() - b.prefix);
  }

  /** The last address of a network is in another with the same base and members. */
  lemma EndInside(a: Net, b: Net)
    requires Masked(a) && Masked(b) && SameMembers(a, b) && a.base == b.base
    ensures Size(a) <= Size(b)
  {
    BlockFits(a);
    var last := IpAt(a.base, a.base.Value() + Size(a) - 1);
    InMasked(a, last);
    InMasked(b, last);
  }
}
