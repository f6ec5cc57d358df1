/** IPv4 networks in CIDR notation (section 3.1 of RFC 4632) and the tests the code makes on them. */
module Cidr {

  /** Number of addresses behind a prefix length. */
  function Size(prefix: nat): (size: nat)
    requires prefix <= 32
    ensures size >= 1
    decreases 32 - prefix
  {
    if prefix == 32 then 1 else 2 * Size(prefix + 1)
  }

  /** A normalised network: the host bits of its base address are zero. */
  datatype Net = Net(base: nat, prefix: nat) {
    predicate Valid() {
      prefix <= 32 && base % Size(prefix) == 0 && base + Size(prefix) <= Size(0)
    }

    function Last(): nat
      requires prefix <= 32
    {
      base + Size(prefix) - 1
    }

    predicate Contains(address: nat)
      requires prefix <= 32
    {
      base <= address <= Last()
    }

    /** `overlaps`: one of the four end addresses lies in the other network. */
    predicate Overlaps(other: Net)
      requires prefix <= 32 && other.prefix <= 32
    {
      Contains(other.base) || Contains(other.Last()) || other.Contains(base) || other.Contains(Last())
    }

    predicate SubnetOf(other: Net)
      requires prefix <= 32 && other.prefix <= 32
    {
      other.base <= base && other.Last() >= Last()
    }
  }

  /** The end-address test is exact: two networks overlap exactly when they share an address. */
  lemma OverlapsIffShared(a: Net, b: Net)
    requires a.prefix <= 32 && b.prefix <= 32
    ensures a.Overlaps(b) <==> exists address :: a.Contains(address) && b.Contains(address)
    ensures a.Overlaps(b) == b.Overlaps(a)
  {
  }

  lemma SubnetIffContained(a: Net, b: Net)
    requires a.prefix <= 32 && b.prefix <= 32
    ensures a.SubnetOf(b) <==> forall address :: a.Contains(address) ==> b.Contains(address)
  {
    assert a.Contains(a.base) && a.Contains(a.Last());
  }

  lemma Doubled(h: nat, unit: nat, block: nat)
    requires block == h * unit
    ensures 2 * block == (2 * h) * unit
  {
  }

  /** A longer prefix divides the block of a shorter one. */
  lemma {:induction false} SizeDivides(shorter: nat, longer: nat) returns (k: nat)
    requires shorter <= longer <= 32
    ensures Size(shorter) == k * Size(longer)
    decreases longer - shorter
  {
    if shorter == longer {
      k := 1;
    } else {
      var h := SizeDivides(shorter + 1, longer);
      k := 2 * h;
      Doubled(h, Size(longer), Size(shorter + 1));
      assert Size(shorter) == 2 * Size(shorter + 1);
    }
  }

  lemma BaseIsMultiple(net: Net) returns (i: nat)
    requires net.Valid()
    ensures net.base == i * Size(net.prefix)
  {
    i := net.base / Size(net.prefix);
  }

  lemma NextBlock(i: nat, j: nat, size: nat)
    requires i < j
    ensures i * size + size <= j * size
  {
    assert j * size == i * size + (j - i) * size;
    assert (j - i) * size == size + (j - i - 1) * size;
  }

  /** Normalised networks overlap only by nesting. */
  lemma OverlapMeansNested(a: Net, b: Net)
    requires a.Valid() && b.Valid() && a.prefix >= b.prefix && a.Overlaps(b)
    ensures a.SubnetOf(b)
  {
    var k := SizeDivides(b.prefix, a.prefix);
    var i := BaseIsMultiple(a);
    var j := BaseIsMultiple(b);
    MultipleOfSmaller(j, k, Size(a.prefix), Size(b.prefix));
    BlocksNest(i, j * k, k, Size(a.prefix));
  }

  lemma MultipleOfSmaller(j: nat, k: nat, size: nat, bigger: nat)
    requires bigger == k * size
    ensures j * bigger == (j * k) * size
    ensures j * bigger + bigger == (j * k + k) * size
  {
  }

  /** A block of one unit that meets a row of `n` units lies inside the row. */
  lemma BlocksNest(i: nat, first: nat, n: nat, size: nat)
    requires i * size < (first + n) * size && first * size < i * size + size
    ensures first * size <= i * size && i * size + size <= (first + n) * size
  {
    if i < first {
      NextBlock(i, first, size);
    } else if first + n <= i {
      if first + n < i {
        NextBlock(first + n, i, size);
      }
    } else {
      NextBlock(i, first + n, size);
      if first < i {
        NextBlock(first, i, size);
      }
    }
  }
}
