/** Interface queries (socketLib/CInterfaces.cpp).

    std::set<in_addr_t> is a strictly ascending sequence here, so that begin() is its first
    element.  It is ordered by the number that a little-endian machine sees in the four octets. */
module Interfaces {
  import opened Kernel
  import opened Masks

  /* ----- std::set ----- */

  function Raw(x: Address): nat {
    x.a + 0x100 * x.b + 0x1_0000 * x.c + 0x100_0000 * x.d
  }

  predicate Less(x: Address, y: Address) {
    Raw(x) < Raw(y)
  }

  lemma RawIsInjective(x: Address, y: Address)
    requires Raw(x) == Raw(y)
    ensures x == y
  {
    assert x.d == y.d;
    assert x.c == y.c;
    assert x.b == y.b;
  }

  // The order in terms of the octets: on a little-endian machine the last one counts most.
  ghost predicate Precedes(x: Address, y: Address) {
    if x.d != y.d then x.d < y.d
    else if x.c != y.c then x.c < y.c
    else if x.b != y.b then x.b < y.b
    else x.a < y.a
  }

  lemma LessOnOctets(x: Address, y: Address)
    ensures Less(x, y) <==> Precedes(x, y)
  {
  }

  predicate Ascending(s: seq<Address>) {
    |s| <= 1 || (Less(s[0], s[1]) && Ascending(s[1..]))
  }

  // begin() is the least element, and no element occurs twice.
  lemma {:induction false} AscendingFacts(s: seq<Address>)
    requires Ascending(s)
    ensures forall x :: x in s ==> !Less(x, s[0])
    ensures forall i, j :: 0 <= i < j < |s| ==> s[i] != s[j]
  {
    if |s| > 1 {
      AscendingFacts(s[1..]);
      assert forall x :: x in s <==> x == s[0] || x in s[1..];
      assert forall x :: x in s[1..] ==> Less(s[0], x);
      forall i, j | 0 <= i < j < |s| ensures s[i] != s[j] {
        assert s[j] == s[1..][j - 1] && s[j] in s[1..];
        if i > 0 { assert s[i] == s[1..][i - 1]; }
      }
    }
  }

  function Insert(s: seq<Address>, x: Address): (r: seq<Address>)
    ensures forall y :: y in r <==> y in s || y == x
  {
    if s == [] then [x]
    else if Less(x, s[0]) then [x] + s
    else if x == s[0] then s
    else [s[0]] + Insert(s[1..], x)
  }

  lemma {:induction false} InsertKeepsOrder(s: seq<Address>, x: Address)
    requires Ascending(s)
    ensures Ascending(Insert(s, x))
  {
    if s != [] && !Less(x, s[0]) && x != s[0] {
      if !Less(s[0], x) { RawIsInjective(x, s[0]); }
      InsertKeepsOrder(s[1..], x);
      assert ([s[0]] + Insert(s[1..], x))[1..] == Insert(s[1..], x);
    } else if s != [] && Less(x, s[0]) {
      assert ([x] + s)[1..] == s;
    }
  }

  /* ----- What the queries compute ----- */

  // The addresses gathered by walking the list.
  function Collect(found: seq<Address>, entries: seq<IfEntry>, address: Address, mask: Address): seq<Address>
    decreases entries
  {
    if entries == [] then found
    else
      var e := entries[0];
      Collect(if e.Inet? && Matches(e.address, address, mask) then Insert(found, e.address) else found,
              entries[1..], address, mask)
  }

  // The address of the first interface on whose own subnet `address` lies, else INADDR_ANY.
  function FirstOnSubnet(entries: seq<IfEntry>, address: Address): Address {
    if entries == [] then INADDR_ANY
    else if entries[0].Inet? && Matches(entries[0].address, address, entries[0].mask) then entries[0].address
    else FirstOnSubnet(entries[1..], address)
  }

  ghost predicate Present(entries: seq<IfEntry>, x: Address) {
    exists mask :: Inet(x, mask) in entries
  }

  lemma {:induction false} CollectedMatch(found: seq<Address>, entries: seq<IfEntry>, address: Address, mask: Address)
    requires Ascending(found)
    ensures var r := Collect(found, entries, address, mask);
      Ascending(r) && forall x :: x in r <==> x in found || (Present(entries, x) && Matches(x, address, mask))
    decreases entries
  {
    if entries != [] {
      var e := entries[0];
      var more := if e.Inet? && Matches(e.address, address, mask) then Insert(found, e.address) else found;
      if e.Inet? { InsertKeepsOrder(found, e.address); }
      CollectedMatch(more, entries[1..], address, mask);
      forall x
        ensures Present(entries, x) <==> (e.Inet? && e.address == x) || Present(entries[1..], x)
      {
        if e.Inet? && e.address == x { assert Inet(x, e.mask) in entries; }
        if Present(entries[1..], x) { var m :| Inet(x, m) in entries[1..]; assert Inet(x, m) in entries; }
        if Present(entries, x) { var m :| Inet(x, m) in entries; assert e == Inet(x, m) || Inet(x, m) in entries[1..]; }
      }
    }
  }

  // The walk gathers exactly the addresses in the list that agree on the bits of the mask.
  lemma CollectIsExact(entries: seq<IfEntry>, address: Address, mask: Address)
    ensures var r := Collect([], entries, address, mask);
      Ascending(r) && forall x :: x in r <==> Present(entries, x) && SameSubnet(x, address, mask)
  {
    CollectedMatch([], entries, address, mask);
    forall x: Address ensures Matches(x, address, mask) <==> SameSubnet(x, address, mask) {
      MatchesIsBitwise(x, address, mask);
    }
  }

  // An IPv4 entry on whose own subnet an address lies.
  ghost predicate IsOnSubnet(e: IfEntry, address: Address) {
    e.Inet? && SameSubnet(e.address, address, e.mask)
  }

  lemma {:induction false} FirstOnSubnetIsFirst(entries: seq<IfEntry>, address: Address, i: nat)
    requires i <= |entries|
    requires forall j :: 0 <= j < i ==> !IsOnSubnet(entries[j], address)
    requires i < |entries| ==> IsOnSubnet(entries[i], address)
    ensures FirstOnSubnet(entries, address) == if i < |entries| then entries[i].address else INADDR_ANY
  {
    if entries != [] {
      if entries[0].Inet? { MatchesIsBitwise(entries[0].address, address, entries[0].mask); }
      if i > 0 { FirstOnSubnetIsFirst(entries[1..], address, i - 1); }
    }
  }

  // INADDR_ANY means that no interface is on the subnet, unless one has that very address.
  lemma {:induction false} NothingOnSubnetIff(entries: seq<IfEntry>, address: Address)
    requires !Present(entries, INADDR_ANY)
    ensures FirstOnSubnet(entries, address) == INADDR_ANY <==> forall e :: e in entries ==> !IsOnSubnet(e, address)
  {
    if entries != [] {
      var e := entries[0];
      if e.Inet? {
        MatchesIsBitwise(e.address, address, e.mask);
        assert Inet(e.address, e.mask) in entries;
      }
      assert forall m :: Inet(INADDR_ANY, m) in entries[1..] ==> Inet(INADDR_ANY, m) in entries;
      NothingOnSubnetIff(entries[1..], address);
    }
  }

  // Of two neighbouring networks of 256 addresses, the one of the address is chosen: its first
  // 24 bits are compared, and no fewer.
  lemma NeighbourIsNotTaken()
    ensures var mask := Address(255, 255, 255, 0);
      FirstOnSubnet([Inet(Address(192, 168, 1, 1), mask), Inet(Address(192, 168, 2, 1), mask)],
                    Address(192, 168, 2, 7)) == Address(192, 168, 2, 1)
  {
    var mask, address := Address(255, 255, 255, 0), Address(192, 168, 2, 7);
    ClassCMaskIsAPrefix();
    PrefixesAreCompared(Address(192, 168, 1, 1), address, mask, 24);
    PrefixesAreCompared(Address(192, 168, 2, 1), address, mask, 24);
    ClassCLeading();
  }

  lemma ClassCLeading()
    ensures Leading(Ntohl(Address(192, 168, 1, 1)), 8) == 0xc0_a801
    ensures Leading(Ntohl(Address(192, 168, 2, 1)), 8) == Leading(Ntohl(Address(192, 168, 2, 7)), 8) == 0xc0_a802
  {
    assert Pow2(8) == 0x100;
  }

  /* ----- The queries ----- */

  // Frees the interface list when it goes out of scope.
  class ScopedIfaddr {
    const os: Os
    var ifaddr: Ifaddrs?
    var thrown: Option<Errno>

    constructor (os: Os)
      modifies os`k, os`errno
      ensures this.os == os
      ensures var r := SysGetifaddrs(os.answer, os.network, old(os.k));
              os.k == r.k && thrown == r.errno
      ensures thrown.Some? ==> ifaddr == null
      ensures thrown.None? ==> Lists(ifaddr, os.network(old(os.k.calls)))
      ensures ifaddr != null ==> ifaddr.block == old(os.k.calls)
    {
      this.os := os;
      ifaddr, thrown := null, None;
      new;
      var result, head := os.Getifaddrs();
      ifaddr := head;
      if result == -1 { thrown := Some(os.errno); }
    }

    method Destroy()
      requires ifaddr != null ==> ifaddr.block in os.k.lists
      modifies os`k
      ensures os.k == if ifaddr == null then old(os.k)
                      else old(os.k).(lists := old(os.k).lists - {ifaddr.block})
    {
      if ifaddr != null { os.Freeifaddrs(ifaddr); }
    }
  }

  // The state after a query, whether or not it throws: one call was made and every interface
  // list that was handed out to it has been freed.
  function AfterQuery(k: Kernel): Kernel {
    k.(calls := k.calls + 1)
  }

  function AddressQuery(answer: Oracle, network: Network, k: Kernel, address: Address, mask: Address)
    : Result<seq<Address>>
  {
    match answer(Getifaddrs, k.calls)
    case Failed(e) => Err(Error(RetrievingInterfaces, e, None))
    case Done(_) => Ok(Collect([], network(k.calls), address, mask))
  }

  function SubnetQuery(answer: Oracle, network: Network, k: Kernel, address: Address): Result<Address> {
    match answer(Getifaddrs, k.calls)
    case Failed(e) => Err(Error(RetrievingInterfaces, e, None))
    case Done(_) => Ok(FirstOnSubnet(network(k.calls), address))
  }

  // What the two queries give, bit by bit: the interfaces at the time of the call that lie on
  // the subnet, or the errno of getifaddrs.
  lemma SubnetQueryIsExact(answer: Oracle, network: Network, k: Kernel, address: Address)
    ensures match answer(Getifaddrs, k.calls)
      case Failed(errno) =>
        SubnetQuery(answer, network, k, address) == Err(Error(RetrievingInterfaces, errno, None))
      case Done(_) =>
        var entries := network(k.calls);
        || (SubnetQuery(answer, network, k, address) == Ok(INADDR_ANY)
            && forall e :: e in entries ==> !IsOnSubnet(e, address))
        || exists i :: 0 <= i < |entries| && IsOnSubnet(entries[i], address)
             && SubnetQuery(answer, network, k, address) == Ok(entries[i].address)
             && forall j :: 0 <= j < i ==> !IsOnSubnet(entries[j], address)
  {
    var i := FindOnSubnet(network(k.calls), address);
    FirstOnSubnetIsFirst(network(k.calls), address, i);
  }

  lemma {:induction false} FindOnSubnet(entries: seq<IfEntry>, address: Address) returns (i: nat)
    ensures i <= |entries| && (forall j :: 0 <= j < i ==> !IsOnSubnet(entries[j], address))
    ensures i < |entries| ==> IsOnSubnet(entries[i], address)
  {
    i := 0;
    if entries != [] && !IsOnSubnet(entries[0], address) {
      i := FindOnSubnet(entries[1..], address);
      i := i + 1;
    }
  }

  lemma AddressQueryIsExact(answer: Oracle, network: Network, k: Kernel, address: Address, mask: Address)
    ensures match answer(Getifaddrs, k.calls)
      case Failed(errno) =>
        AddressQuery(answer, network, k, address, mask) == Err(Error(RetrievingInterfaces, errno, None))
      case Done(_) =>
        var r := AddressQuery(answer, network, k, address, mask);
        && r.Ok? && Ascending(r.value)
        && forall x :: x in r.value <==> Present(network(k.calls), x) && SameSubnet(x, address, mask)
  {
    CollectIsExact(network(k.calls), address, mask);
  }

  method RetrieveInterfaceAddressFromAddress(os: Os, address: Address) returns (r: Result<Address>)
    requires Sane(os.k)
    modifies os`k, os`errno
    ensures r == SubnetQuery(os.answer, os.network, old(os.k), address)
    ensures os.k == AfterQuery(old(os.k))
  {
    var scoped := new ScopedIfaddr(os);
    if scoped.thrown.Some? {
      return Err(Error(RetrievingInterfaces, scoped.thrown.value, None));
    }
    var ifa := scoped.ifaddr;
    ghost var entries := os.network(old(os.k.calls));
    while ifa != null
      modifies os`k
      invariant Lists(ifa, entries)
      invariant os.k == SysGetifaddrs(os.answer, os.network, old(os.k)).k
      invariant FirstOnSubnet(entries, address) == FirstOnSubnet(os.network(old(os.k.calls)), address)
      decreases entries
    {
      if ifa.entry.Inet? && Matches(ifa.entry.address, address, ifa.entry.mask) {
        r := Ok(ifa.entry.address);
        scoped.Destroy();
        return;
      }
      ifa, entries := ifa.next, entries[1..];
    }
    r := Ok(INADDR_ANY);
    scoped.Destroy();
  }

  method GetIpV4InterfaceAddressesMatching(os: Os, address: Address, mask: Address) returns (r: Result<seq<Address>>)
    requires Sane(os.k)
    modifies os`k, os`errno
    ensures r == AddressQuery(os.answer, os.network, old(os.k), address, mask)
    ensures os.k == AfterQuery(old(os.k))
  {
    var scoped := new ScopedIfaddr(os);
    if scoped.thrown.Some? {
      return Err(Error(RetrievingInterfaces, scoped.thrown.value, None));
    }
    var addresses: seq<Address> := [];
    var ifa := scoped.ifaddr;
    ghost var entries := os.network(old(os.k.calls));
    while ifa != null
      modifies {}
      invariant Lists(ifa, entries)
      invariant Collect(addresses, entries, address, mask) == Collect([], os.network(old(os.k.calls)), address, mask)
      decreases entries
    {
      if ifa.entry.Inet? && Matches(ifa.entry.address, address, mask) {
        addresses := Insert(addresses, ifa.entry.address);
      }
      ifa, entries := ifa.next, entries[1..];
    }
    r := Ok(addresses);
    scoped.Destroy();
  }

  method GetIpV4InterfaceAddresses(os: Os) returns (r: Result<seq<Address>>)
    requires Sane(os.k)
    modifies os`k, os`errno
    ensures r == AddressQuery(os.answer, os.network, old(os.k), INADDR_ANY, INADDR_ANY)
    ensures os.k == AfterQuery(old(os.k))
  {
    r := GetIpV4InterfaceAddressesMatching(os, INADDR_ANY, INADDR_ANY);
  }

  // Without a mask the query returns every IPv4 interface address, each once.
  lemma UnmaskedQueryReturnsEveryAddress(entries: seq<IfEntry>)
    ensures var r := Collect([], entries, INADDR_ANY, INADDR_ANY);
      Ascending(r) && forall x :: x in r <==> Present(entries, x)
  {
    CollectedMatch([], entries, INADDR_ANY, INADDR_ANY);
  }

  /* ----- Private networks ----- */

  datatype Block = Block(address: Address, mask: Address)

  function ClassC(): Block { Block(Address(192, 168, 0, 0), Address(255, 255, 0, 0)) }
  function ClassB(): Block { Block(Address(172, 16, 0, 0), Address(255, 240, 0, 0)) }
  function ClassA(): Block { Block(Address(10, 0, 0, 0), Address(255, 0, 0, 0)) }

  predicate InBlock(x: Address, b: Block) {
    Matches(x, b.address, b.mask)
  }

  // The numerical value of the address in host byte order lies in a range.
  predicate InRange(x: Address, low: nat, high: nat) {
    low <= Ntohl(x) <= high
  }

  // A mask of ones keeps its operand, and a shifted mask acts on the shifted operand.
  predicate Ones(m: nat) {
    m == 0 || (m % 2 == 1 && Ones(m / 2))
  }

  lemma {:induction false} AndOnes(a: nat, m: nat)
    requires a <= m && Ones(m)
    ensures And(a, m) == a
  {
    if a > 0 { AndOnes(a / 2, m / 2); }
  }

  lemma AndShifted(a: nat, m: nat)
    ensures And(a, 2 * m) == 2 * And(a / 2, m)
  {
  }

  lemma AndHighNibble(a: nat)
    requires a < 0x100
    ensures And(a, 240) == a - a % 16
  {
    AndShifted(a, 120);
    AndShifted(a / 2, 60);
    AndShifted(a / 2 / 2, 30);
    AndShifted(a / 2 / 2 / 2, 15);
    assert a / 2 / 2 / 2 / 2 == a / 16;
    assert Ones(15);
    AndOnes(a / 16, 15);
  }

  // On one octet, a full mask is an equality test and a high-nibble mask a test on a / 16.
  lemma OctetTests(x: Octet, y: Octet)
    ensures And(x, 255) == And(y, 255) <==> x == y
    ensures And(x, 240) == And(y, 240) <==> x / 16 == y / 16
    ensures And(x, 0) == And(y, 0)
  {
    assert Ones(255);
    AndOnes(x, 255);
    AndOnes(y, 255);
    AndHighNibble(x);
    AndHighNibble(y);
  }

  // A number in base 256 is bounded by its leading digits.
  lemma HighOctets(high: int, c: Octet, d: Octet, low: int, up: int)
    ensures 0x1_0000 * low <= 0x1_0000 * high + 0x100 * c + d <= 0x1_0000 * up + 0xffff <==> low <= high <= up
  {
  }

  lemma ClassCIsARange(x: Address)
    ensures InBlock(x, ClassC()) <==> InRange(x, 0xc0a8_0000, 0xc0a8_ffff)
  {
    OctetTests(x.a, 192);
    OctetTests(x.b, 168);
    OctetTests(x.c, 0);
    OctetTests(x.d, 0);
    HighOctets(0x100 * x.a + x.b, x.c, x.d, 0xc0a8, 0xc0a8);
  }

  lemma ClassBIsARange(x: Address)
    ensures InBlock(x, ClassB()) <==> InRange(x, 0xac10_0000, 0xac1f_ffff)
  {
    OctetTests(x.a, 172);
    OctetTests(x.b, 16);
    OctetTests(x.c, 0);
    OctetTests(x.d, 0);
    HighOctets(0x100 * x.a + x.b, x.c, x.d, 0xac10, 0xac1f);
  }

  lemma ClassAIsARange(x: Address)
    ensures InBlock(x, ClassA()) <==> InRange(x, 0x0a00_0000, 0x0aff_ffff)
  {
    OctetTests(x.a, 10);
    OctetTests(x.b, 0);
    OctetTests(x.c, 0);
    OctetTests(x.d, 0);
    HighOctets(0x100 * x.a + x.b, x.c, x.d, 0x0a00, 0x0aff);
  }

  // The mask tests in network order are the host-order ranges of RFC 1918, section 3.
  lemma BlocksAreRfc1918Ranges(x: Address)
    ensures InBlock(x, ClassC()) <==> InRange(x, 0xc0a8_0000, 0xc0a8_ffff)
    ensures InBlock(x, ClassB()) <==> InRange(x, 0xac10_0000, 0xac1f_ffff)
    ensures InBlock(x, ClassA()) <==> InRange(x, 0x0a00_0000, 0x0aff_ffff)
  {
    ClassCIsARange(x);
    ClassBIsARange(x);
    ClassAIsARange(x);
  }

  // In order of preference.
  function PrivateBlocks(): seq<Block> {
    [ClassC(), ClassB(), ClassA()]
  }

  // One query per block, until a block has an interface or a query throws.
  function Search(answer: Oracle, network: Network, k: Kernel, blocks: seq<Block>): (Kernel, Result<Address>)
    decreases |blocks|
  {
    if blocks == [] then (k, Ok(INADDR_ANY))
    else
      match AddressQuery(answer, network, k, blocks[0].address, blocks[0].mask)
      case Err(e) => (AfterQuery(k), Err(e))
      case Ok(addresses) =>
        if |addresses| > 0 then (AfterQuery(k), Ok(addresses[0]))
        else Search(answer, network, AfterQuery(k), blocks[1..])
  }

  ghost predicate Empty(entries: seq<IfEntry>, b: Block) {
    forall x :: Present(entries, x) ==> !InBlock(x, b)
  }

  ghost predicate LeastIn(entries: seq<IfEntry>, b: Block, x: Address) {
    Present(entries, x) && InBlock(x, b) && forall y :: Present(entries, y) && InBlock(y, b) ==> !Precedes(y, x)
  }

  // The i-th query of a search that made `first` calls before it ran and found nothing.
  ghost predicate Barren(answer: Oracle, network: Network, first: nat, blocks: seq<Block>, i: nat)
    requires i < |blocks|
  {
    answer(Getifaddrs, first + i).Done? && Empty(network(first + i), blocks[i])
  }

  // How a search ended, in terms of the interfaces that existed at each of its queries.
  ghost predicate EndsAt(answer: Oracle, network: Network, first: nat, blocks: seq<Block>, i: nat, r: Result<Address>)
    requires i <= |blocks|
  {
    && (forall j: nat | j < i :: Barren(answer, network, first, blocks, j))
    && if i == |blocks| then r == Ok(INADDR_ANY)
       else match answer(Getifaddrs, first + i)
            case Failed(e) => r == Err(Error(RetrievingInterfaces, e, None))
            case Done(_) => r.Ok? && LeastIn(network(first + i), blocks[i], r.value)
  }

  lemma {:induction false} SearchIsExact(answer: Oracle, network: Network, k: Kernel, blocks: seq<Block>)
    returns (i: nat)
    ensures i <= |blocks|
    ensures EndsAt(answer, network, k.calls, blocks, i, Search(answer, network, k, blocks).1)
    ensures Search(answer, network, k, blocks).0
         == k.(calls := k.calls + if i == |blocks| then i else i + 1)
    decreases |blocks|
  {
    i := 0;
    if blocks != [] {
      QueryFindsTheLeast(network(k.calls), blocks[0]);
      if answer(Getifaddrs, k.calls).Done? && Empty(network(k.calls), blocks[0]) {
        i := SearchIsExact(answer, network, AfterQuery(k), blocks[1..]);
        EndsLater(answer, network, k.calls, blocks, i, Search(answer, network, k, blocks).1);
        i := i + 1;
      }
    }
  }

  lemma QueryFindsTheLeast(entries: seq<IfEntry>, b: Block)
    ensures var found := Collect([], entries, b.address, b.mask);
      (found == [] <==> Empty(entries, b)) && (found != [] ==> LeastIn(entries, b, found[0]))
  {
    CollectedMatch([], entries, b.address, b.mask);
    var found := Collect([], entries, b.address, b.mask);
    forall x, y: Address ensures Less(x, y) <==> Precedes(x, y) { LessOnOctets(x, y); }
    if found != [] {
      AscendingFacts(found);
      assert found[0] in found;
    }
  }

  lemma EndsLater(answer: Oracle, network: Network, first: nat, blocks: seq<Block>, i: nat, r: Result<Address>)
    requires 0 < |blocks| && i < |blocks| && Barren(answer, network, first, blocks, 0)
    requires EndsAt(answer, network, first + 1, blocks[1..], i, r)
    ensures EndsAt(answer, network, first, blocks, i + 1, r)
  {
    forall j: nat | j < i + 1 ensures Barren(answer, network, first, blocks, j) {
      if j > 0 { assert Barren(answer, network, first + 1, blocks[1..], j - 1); }
    }
  }

  method GetAPrivateNetworkInterface(os: Os) returns (r: Result<Address>)
    requires Sane(os.k)
    modifies os`k, os`errno
    ensures (os.k, r) == Search(os.answer, os.network, old(os.k), PrivateBlocks())
  {
    var c := ClassC();
    var addresses := GetIpV4InterfaceAddressesMatching(os, c.address, c.mask);
    if addresses.Err? { return Err(addresses.error); }
    if |addresses.value| > 0 { return Ok(addresses.value[0]); }

    var b := ClassB();
    addresses := GetIpV4InterfaceAddressesMatching(os, b.address, b.mask);
    if addresses.Err? { return Err(addresses.error); }
    if |addresses.value| > 0 { return Ok(addresses.value[0]); }

    var a := ClassA();
    addresses := GetIpV4InterfaceAddressesMatching(os, a.address, a.mask);
    if addresses.Err? { return Err(addresses.error); }
    if |addresses.value| > 0 { return Ok(addresses.value[0]); }

    return Ok(INADDR_ANY);
  }

  ghost predicate HasAddressIn(entries: seq<IfEntry>, low: nat, high: nat) {
    exists x :: Present(entries, x) && InRange(x, low, high)
  }

  lemma EmptyMeansNoAddress(entries: seq<IfEntry>)
    ensures Empty(entries, ClassC()) <==> !HasAddressIn(entries, 0xc0a8_0000, 0xc0a8_ffff)
    ensures Empty(entries, ClassB()) <==> !HasAddressIn(entries, 0xac10_0000, 0xac1f_ffff)
    ensures Empty(entries, ClassA()) <==> !HasAddressIn(entries, 0x0a00_0000, 0x0aff_ffff)
  {
    forall x | Present(entries, x) {
      BlocksAreRfc1918Ranges(x);
    }
  }

  // The three queries that a search may make all succeed, and find the same interfaces.
  ghost predicate IsStable(answer: Oracle, network: Network, first: nat, entries: seq<IfEntry>) {
    forall n :: first <= n < first + 3 ==> answer(Getifaddrs, n).Done? && network(n) == entries
  }

  lemma SearchPrefersEarlierBlocks(answer: Oracle, network: Network, k: Kernel, entries: seq<IfEntry>)
    returns (x: Address)
    requires IsStable(answer, network, k.calls, entries)
    ensures Search(answer, network, k, PrivateBlocks()).1 == Ok(x)
    ensures if !Empty(entries, ClassC()) then LeastIn(entries, ClassC(), x)
            else if !Empty(entries, ClassB()) then LeastIn(entries, ClassB(), x)
            else if !Empty(entries, ClassA()) then LeastIn(entries, ClassA(), x)
            else x == INADDR_ANY
  {
    var i := SearchIsExact(answer, network, k, PrivateBlocks());
    x := Search(answer, network, k, PrivateBlocks()).1.value;
    assert i > 0 ==> Barren(answer, network, k.calls, PrivateBlocks(), 0);
    assert i > 1 ==> Barren(answer, network, k.calls, PrivateBlocks(), 1);
    assert i > 2 ==> Barren(answer, network, k.calls, PrivateBlocks(), 2);
  }

  // While the interfaces stay as they are, the result is an existing interface address in the
  // first RFC 1918 range that has one, and INADDR_ANY if and only if none has one.
  lemma PrivateInterfaceOnAStableNetwork(answer: Oracle, network: Network, k: Kernel, entries: seq<IfEntry>)
    returns (x: Address)
    requires IsStable(answer, network, k.calls, entries)
    ensures Search(answer, network, k, PrivateBlocks()).1 == Ok(x)
    ensures x != INADDR_ANY ==> Present(entries, x)
    ensures if HasAddressIn(entries, 0xc0a8_0000, 0xc0a8_ffff) then InRange(x, 0xc0a8_0000, 0xc0a8_ffff)
            else if HasAddressIn(entries, 0xac10_0000, 0xac1f_ffff) then InRange(x, 0xac10_0000, 0xac1f_ffff)
            else if HasAddressIn(entries, 0x0a00_0000, 0x0aff_ffff) then InRange(x, 0x0a00_0000, 0x0aff_ffff)
            else x == INADDR_ANY
    ensures x == INADDR_ANY <==>
            && !HasAddressIn(entries, 0xc0a8_0000, 0xc0a8_ffff)
            && !HasAddressIn(entries, 0xac10_0000, 0xac1f_ffff)
            && !HasAddressIn(entries, 0x0a00_0000, 0x0aff_ffff)
  {
    x := SearchPrefersEarlierBlocks(answer, network, k, entries);
    EmptyMeansNoAddress(entries);
    BlocksAreRfc1918Ranges(x);
  }

  // In general, INADDR_ANY is returned if and only if each of the three queries succeeded and
  // found no interface in its own block.
  lemma SearchFindsNothingIff(answer: Oracle, network: Network, k: Kernel)
    ensures Search(answer, network, k, PrivateBlocks()).1 == Ok(INADDR_ANY)
       <==> forall i: nat | i < 3 :: Barren(answer, network, k.calls, PrivateBlocks(), i)
  {
    var i := SearchIsExact(answer, network, k, PrivateBlocks());
    AnyIsNotPrivate();
    NothingFoundIff(answer, network, k.calls, PrivateBlocks(), i, Search(answer, network, k, PrivateBlocks()).1);
  }

  lemma NothingFoundIff(answer: Oracle, network: Network, first: nat, blocks: seq<Block>, i: nat, r: Result<Address>)
    requires i <= |blocks| && EndsAt(answer, network, first, blocks, i, r)
    requires forall b :: b in blocks ==> !InBlock(INADDR_ANY, b)
    ensures r == Ok(INADDR_ANY) <==> forall j: nat | j < |blocks| :: Barren(answer, network, first, blocks, j)
  {
    if i < |blocks| {
      assert blocks[i] in blocks;
      assert !Barren(answer, network, first, blocks, i);
    }
  }

  lemma AnyIsNotPrivate()
    ensures !InBlock(INADDR_ANY, ClassC()) && !InBlock(INADDR_ANY, ClassB()) && !InBlock(INADDR_ANY, ClassA())
  {
    BlocksAreRfc1918Ranges(INADDR_ANY);
  }

  // An interface that changes its address from 10.0.0.1 to 192.168.0.1 after the first query is
  // not found, although it has a private address at each of them.
  lemma ChangingAddressIsMissed() returns (answer: Oracle, network: Network)
    ensures var before, after, mask := Address(10, 0, 0, 1), Address(192, 168, 0, 1), Address(255, 255, 255, 0);
      && InBlock(before, ClassA()) && InBlock(after, ClassC())
      && (forall n :: network(n) == [Inet(if n == 0 then before else after, mask)])
      && Search(answer, network, Kernel(map[], {}, 0), PrivateBlocks()).1 == Ok(INADDR_ANY)
  {
    var before, after := Address(10, 0, 0, 1), Address(192, 168, 0, 1);
    answer := (call: Call, n: nat) => Done(0);
    network := (n: nat) => [Inet(if n == 0 then before else after, Address(255, 255, 255, 0))];
    BlocksAreRfc1918Ranges(before);
    BlocksAreRfc1918Ranges(after);
    SearchFindsNothingIff(answer, network, Kernel(map[], {}, 0));
  }
}
