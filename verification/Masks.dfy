/** The subnet test (ifAddress & mask) == (address & mask) of socketLib/CInterfaces.cpp, and what it
    means for the addresses as numbers in host byte order. */
module Masks {
  import opened Kernel

  // Bitwise and.
  function And(a: nat, b: nat): nat {
    if a == 0 || b == 0 then 0
    else (if a % 2 == 1 && b % 2 == 1 then 1 else 0) + 2 * And(a / 2, b / 2)
  }

  predicate Matches(x: Address, address: Address, mask: Address) {
    && And(x.a, mask.a) == And(address.a, mask.a) && And(x.b, mask.b) == And(address.b, mask.b)
    && And(x.c, mask.c) == And(address.c, mask.c) && And(x.d, mask.d) == And(address.d, mask.d)
  }

  // ntohl: the first octet becomes the most significant one.
  function Ntohl(x: Address): nat {
    0x100_0000 * x.a + 0x1_0000 * x.b + 0x100 * x.c + x.d
  }

  // Bit i of a number, counted from the least significant one.
  predicate Bit(n: nat, i: nat) {
    if i == 0 then n % 2 == 1 else Bit(n / 2, i - 1)
  }

  ghost predicate AgreeOn(x: nat, y: nat, mask: nat) {
    forall i: nat :: Bit(mask, i) ==> (Bit(x, i) <==> Bit(y, i))
  }

  // Two addresses agree on every bit that is set in the mask.
  ghost predicate SameSubnet(x: Address, y: Address, mask: Address) {
    AgreeOn(Ntohl(x), Ntohl(y), Ntohl(mask))
  }

  function Pow2(j: nat): (r: nat)
    ensures r > 0
  {
    if j == 0 then 1 else 2 * Pow2(j - 1)
  }

  /* ----- The test is bitwise ----- */

  lemma {:induction false} NoBits(i: nat)
    ensures !Bit(0, i)
  {
    if i > 0 { NoBits(i - 1); }
  }

  lemma AndStep(a: nat, m: nat)
    ensures And(a, m) == (if a % 2 == 1 && m % 2 == 1 then 1 else 0) + 2 * And(a / 2, m / 2)
  {
  }

  lemma {:induction false} AndIsBitwise(a: nat, b: nat, m: nat)
    ensures And(a, m) == And(b, m) <==> AgreeOn(a, b, m)
  {
    if m == 0 {
      forall i: nat ensures !Bit(m, i) { NoBits(i); }
    } else {
      AndStep(a, m);
      AndStep(b, m);
      AndIsBitwise(a / 2, b / 2, m / 2);
      AgreementStep(a, b, m);
    }
  }

  lemma AgreementStep(a: nat, b: nat, m: nat)
    ensures AgreeOn(a, b, m) <==> (m % 2 == 1 ==> a % 2 == b % 2) && AgreeOn(a / 2, b / 2, m / 2)
  {
    if AgreeOn(a, b, m) {
      assert Bit(m, 0) ==> (Bit(a, 0) <==> Bit(b, 0));
      forall i: nat | Bit(m / 2, i) ensures Bit(a / 2, i) <==> Bit(b / 2, i) {
        assert Bit(m, i + 1);
        assert Bit(a, i + 1) <==> Bit(b, i + 1);
      }
    }
    if (m % 2 == 1 ==> a % 2 == b % 2) && AgreeOn(a / 2, b / 2, m / 2) {
      forall i: nat | Bit(m, i) ensures Bit(a, i) <==> Bit(b, i) {
        if i > 0 { assert Bit(m / 2, i - 1); }
      }
    }
  }

  // The low j bits of a number and the others.
  lemma {:induction false} BitOfSum(h: nat, o: nat, j: nat, i: nat)
    requires o < Pow2(j)
    ensures Bit(Pow2(j) * h + o, i) <==> if i < j then Bit(o, i) else Bit(h, i - j)
    decreases j
  {
    if j > 0 {
      var n := Pow2(j - 1) * h;
      assert Pow2(j) * h == 2 * n;
      assert (2 * n + o) / 2 == n + o / 2 && (2 * n + o) % 2 == o % 2;
      if i > 0 { BitOfSum(h, o / 2, j - 1, i - 1); }
    }
  }

  lemma BitOfOctets(h: nat, o: Octet, i: nat)
    ensures Bit(0x100 * h + o, i) <==> if i < 8 then Bit(o, i) else Bit(h, i - 8)
  {
    assert Pow2(4) == 16;
    assert Pow2(8) == 0x100;
    BitOfSum(h, o, 8, i);
  }

  lemma OctetEnds(o: Octet, i: nat)
    ensures Bit(o, i) ==> i < 8
  {
    BitOfOctets(0, o, i);
    if i >= 8 { NoBits(i - 8); }
  }

  lemma BitOfAddress(x: Address, i: nat)
    ensures Bit(Ntohl(x), i) <==>
      if i < 8 then Bit(x.d, i) else if i < 16 then Bit(x.c, i - 8)
      else if i < 24 then Bit(x.b, i - 16) else Bit(x.a, i - 24)
  {
    var ab := 0x100 * x.a + x.b;
    var abc := 0x100 * ab + x.c;
    assert Ntohl(x) == 0x100 * abc + x.d;
    BitOfOctets(abc, x.d, i);
    if i >= 8 { BitOfOctets(ab, x.c, i - 8); }
    if i >= 16 { BitOfOctets(x.a, x.b, i - 16); }
  }

  // An octet of three addresses is at bit `shift`.
  lemma OctetAgrees(x: Address, y: Address, mask: Address, a: Octet, b: Octet, m: Octet, shift: nat)
    requires SameSubnet(x, y, mask)
    requires (shift, a, b, m) in {(0, x.d, y.d, mask.d), (8, x.c, y.c, mask.c), (16, x.b, y.b, mask.b),
                                  (24, x.a, y.a, mask.a)}
    ensures AgreeOn(a, b, m)
  {
    forall i: nat | Bit(m, i) ensures Bit(a, i) <==> Bit(b, i) {
      OctetEnds(m, i);
      BitOfAddress(x, i + shift);
      BitOfAddress(y, i + shift);
      BitOfAddress(mask, i + shift);
    }
  }

  // The test of the code, octet by octet, compares the bits that are set in the mask, for any
  // mask at all.
  lemma MatchesIsBitwise(x: Address, y: Address, mask: Address)
    ensures Matches(x, y, mask) <==> SameSubnet(x, y, mask)
  {
    AndIsBitwise(x.a, y.a, mask.a);
    AndIsBitwise(x.b, y.b, mask.b);
    AndIsBitwise(x.c, y.c, mask.c);
    AndIsBitwise(x.d, y.d, mask.d);
    if SameSubnet(x, y, mask) {
      OctetAgrees(x, y, mask, x.a, y.a, mask.a, 24);
      OctetAgrees(x, y, mask, x.b, y.b, mask.b, 16);
      OctetAgrees(x, y, mask, x.c, y.c, mask.c, 8);
      OctetAgrees(x, y, mask, x.d, y.d, mask.d, 0);
    }
    if Matches(x, y, mask) {
      forall i: nat | Bit(Ntohl(mask), i) ensures Bit(Ntohl(x), i) <==> Bit(Ntohl(y), i) {
        BitOfAddress(x, i);
        BitOfAddress(y, i);
        BitOfAddress(mask, i);
      }
    }
  }

  /* ----- Prefixes ----- */

  lemma {:induction false} EqualBits(a: nat, b: nat)
    requires forall i: nat :: Bit(a, i) <==> Bit(b, i)
    ensures a == b
    decreases a + b
  {
    assert Bit(a, 0) <==> Bit(b, 0);
    if a > 0 || b > 0 {
      forall i: nat ensures Bit(a / 2, i) <==> Bit(b / 2, i) { assert Bit(a, i + 1) <==> Bit(b, i + 1); }
      EqualBits(a / 2, b / 2);
    }
  }

  // A number without its last q bits.
  function Leading(n: nat, q: nat): (h: nat)
    ensures Pow2(q) * h <= n < Pow2(q) * h + Pow2(q)
    ensures h == n / Pow2(q)
  {
    Quotient(n, Pow2(q))
  }

  function Quotient(n: nat, d: nat): (h: nat)
    requires d > 0
    ensures d * h <= n < d * h + d && h == n / d
  {
    n / d
  }

  lemma BitOfLeading(n: nat, q: nat, i: nat)
    ensures Bit(Leading(n, q), i) <==> Bit(n, i + q)
  {
    var h := Leading(n, q);
    BitOfSum(h, n - Pow2(q) * h, q, i + q);
  }

  lemma {:induction false} BitsOfOnes(p: nat, i: nat)
    ensures Bit(Pow2(p) - 1, i) <==> i < p
    decreases p
  {
    if p == 0 {
      NoBits(i);
    } else {
      assert (Pow2(p) - 1) / 2 == Pow2(p - 1) - 1 && (Pow2(p) - 1) % 2 == 1;
      if i > 0 { BitsOfOnes(p - 1, i - 1); }
    }
  }

  // A mask of p leading ones.
  predicate IsPrefix(mask: Address, p: nat) {
    p <= 32 && Ntohl(mask) == Pow2(32 - p) * (Pow2(p) - 1)
  }

  lemma BitOfPrefix(mask: Address, p: nat, i: nat)
    requires IsPrefix(mask, p)
    ensures Bit(Ntohl(mask), i) <==> 32 - p <= i < 32
  {
    var q, ones := 32 - p, Pow2(p) - 1;
    assert Ntohl(mask) == Pow2(q) * ones + 0;
    BitOfSum(ones, 0, q, i);
    if i >= q { BitsOfOnes(p, i - q); } else { NoBits(i); }
  }

  lemma AddressEnds(x: Address, i: nat)
    ensures Bit(Ntohl(x), i) ==> i < 32
  {
    BitOfAddress(x, i);
    if i >= 24 { OctetEnds(x.a, i - 24); }
  }

  // It compares the first p bits: the two numbers without their last 32 - p bits.
  lemma PrefixesAreCompared(x: Address, y: Address, mask: Address, p: nat)
    requires IsPrefix(mask, p)
    ensures Matches(x, y, mask) <==> Leading(Ntohl(x), 32 - p) == Leading(Ntohl(y), 32 - p)
  {
    var q := 32 - p;
    MatchesIsBitwise(x, y, mask);
    if SameSubnet(x, y, mask) {
      forall i: nat ensures Bit(Leading(Ntohl(x), q), i) <==> Bit(Leading(Ntohl(y), q), i) {
        BitOfLeading(Ntohl(x), q, i);
        BitOfLeading(Ntohl(y), q, i);
        BitOfPrefix(mask, p, i + q);
        AddressEnds(x, i + q);
        AddressEnds(y, i + q);
      }
      EqualBits(Leading(Ntohl(x), q), Leading(Ntohl(y), q));
    } else {
      var i: nat :| Bit(Ntohl(mask), i) && (Bit(Ntohl(x), i) <==> !Bit(Ntohl(y), i));
      BitOfPrefix(mask, p, i);
      BitOfLeading(Ntohl(x), q, i - q);
      BitOfLeading(Ntohl(y), q, i - q);
    }
  }

  // 255.255.255.0 is a prefix of 24 bits.
  lemma ClassCMaskIsAPrefix()
    ensures IsPrefix(Address(255, 255, 255, 0), 24)
  {
    assert Pow2(4) == 16;
    assert Pow2(8) == 0x100;
    assert Pow2(12) == 0x1000;
    assert Pow2(16) == 0x1_0000;
    assert Pow2(20) == 0x10_0000;
    assert Pow2(24) == 0x100_0000;
  }
}
