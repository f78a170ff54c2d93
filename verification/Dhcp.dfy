/**
 The DHCP pool arithmetic of the settings editors: pool sizes and ends, the check that keeps a
 pool inside its subnet, and the addresses that follow from a pool start.
 */
module Dhcp {
  import opened Records
  import opened Words

  type Octet = n: int | 0 <= n < 256
  type Word = n: int | 0 <= n < WORD

  /** A dotted quad, or some other text with the number the lenient parser makes of it. */
  datatype Address = Quad(a: Octet, b: Octet, c: Octet, d: Octet) | Other(loose: Word)

  const DEFAULT_START := Quad(192, 168, 2, 10)
  const DEFAULT_END := Quad(192, 168, 2, 199)
  const DEFAULT_SUBNET := Quad(255, 255, 255, 0)
  const DEFAULT_BROADCAST := Quad(192, 168, 2, 255)
  const MAX_DHCP_POOL_SIZE := 65536

  /** The address as an unsigned number. */
  function Value(x: Address): Word {
    match x
    case Quad(a, b, c, d) => ((a * 256 + b) * 256 + c) * 256 + d
    case Other(loose) => loose
  }

  /** `ipToInt`: shifting the first octet up makes addresses from 128.0.0.0 negative. */
  function ToInt(x: Address): int {
    Signed(Value(x))
  }

  /** `intToIp`. */
  function FromInt(n: int): Address
    requires -WORD <= n < 2 * WORD
  {
    var u := Unsigned(n);
    QuadOf(u)
  }

  function QuadOf(u: Word): (q: Address)
    ensures q.Quad? && Value(q) == u
  {
    var high := u / 256;
    var higher := high / 256;
    Quad(higher / 256, higher % 256, high % 256, u % 256)
  }

  /** `compareIpv4`. */
  function Compare(x: Address, y: Address): int
    requires x.Quad? && y.Quad?
  {
    if x.a != y.a then x.a - y.a else if x.b != y.b then x.b - y.b else if x.c != y.c then x.c - y.c else x.d - y.d
  }

  /** `isContiguousMask`. */
  predicate Contiguous(mask: Address)
    requires mask.Quad?
  {
    var inverted := Not(Value(mask));
    And(Unsigned(inverted + 1), inverted) == 0
  }

  /** `computePoolSize`, on signed numbers. */
  function PoolSize(start: Address, end: Address): int {
    var a, b := ToInt(start), ToInt(end);
    if a == 0 || b == 0 || b < a then 0 else b - a + 1
  }

  /** `computeRangeEnd`, on unsigned ones. */
  function RangeEnd(start: Address, count: int): Option<Address> {
    var first := Unsigned(ToInt(start));
    if first == 0 || count < 1 then None
    else if first + count - 1 > WORD - 1 then None
    else Some(FromInt(first + count - 1))
  }

  /** `computeBroadcastAddress`. */
  function Broadcast(gateway: Address, netmask: Address): Address {
    var g, m := ToInt(gateway), ToInt(netmask);
    if g == 0 || m == 0 then DEFAULT_BROADCAST
    else FromInt(BitOr(BitAnd(g, m), Not(m)))
  }

  function OrDefault<T>(v: Option<T>, fallback: T): T {
    if v.Some? then v.value else fallback
  }

  function CurrentCount(start: Option<Address>, end: Option<Address>): int {
    PoolSize(OrDefault(start, DEFAULT_START), OrDefault(end, DEFAULT_END))
  }

  function RangeEndForCount(start: Option<Address>, count: Option<int>): Option<Address> {
    if count.None? then None else RangeEnd(OrDefault(start, DEFAULT_START), count.value)
  }

  datatype Problem =
    | NotPositive
    | TooMany
    | PastAddressSpace
    | PastBroadcast(end: Address, broadcast: Address, usable: int)

  /** The checks on the start and the mask in force. */
  function RangeProblem(first: Address, count: int, mask: Address): Option<Problem> {
    if !first.Quad? then None
    else
      var end := RangeEnd(first, count);
      if end.None? then Some(PastAddressSpace)
      else if !mask.Quad? || !Contiguous(mask) then None
      else
        var broadcast := Broadcast(first, mask);
        if Compare(end.value, broadcast) < 0 then None
        else Some(PastBroadcast(end.value, broadcast, PoolSize(first, broadcast) - 1))
  }

  /** `dhcpPoolProblem`; `usable` is the size the message advises when it is at least one. */
  function PoolProblem(start: Option<Address>, count: Option<int>, subnet: Option<Address>): Option<Problem> {
    if count.None? then None
    else if count.value < 1 then Some(NotPositive)
    else if count.value > MAX_DHCP_POOL_SIZE then Some(TooMany)
    else RangeProblem(OrDefault(start, DEFAULT_START), count.value, OrDefault(subnet, DEFAULT_SUBNET))
  }

  datatype Derived = Derived(gateway: Address, broadcast: Address, dns: seq<Address>)

  /** `dhcpDerivedAddresses`. */
  function DerivedAddresses(start: Address, subnet: Option<Address>): Option<Derived> {
    var mask := OrDefault(subnet, DEFAULT_SUBNET);
    if !start.Quad? || !mask.Quad? || !Contiguous(mask) then None
    else
      var broadcast := Broadcast(start, mask);
      Suggestion(FromInt(ToInt(broadcast) - 1), broadcast, start, mask)
  }

  /** The gateway is its own name server, when it passes. */
  function Suggestion(gateway: Address, broadcast: Address, start: Address, mask: Address): Option<Derived> {
    if Passes(gateway, start, mask) then Some(Derived(gateway, broadcast, [gateway])) else None
  }

  /** A usable gateway: in the subnet of the start, and not the address of the network itself. */
  predicate Passes(gateway: Address, start: Address, mask: Address)
  {
    && BitAnd(ToInt(gateway), ToInt(mask)) == BitAnd(ToInt(start), ToInt(mask))
    && gateway != FromInt(BitAnd(ToInt(start), ToInt(mask)))
  }

  // ---- addresses and numbers ----------------------------------------------------------

  lemma FromIntValue(n: int)
    requires -WORD <= n < 2 * WORD
    ensures FromInt(n).Quad? && Value(FromInt(n)) == Unsigned(n)
  {
  }

  lemma QuadsByValue(x: Address, y: Address)
    requires x.Quad? && y.Quad? && Value(x) == Value(y)
    ensures x == y
  {
  }

  /** Comparing octet by octet is comparing the numbers. */
  lemma CompareByValue(x: Address, y: Address)
    requires x.Quad? && y.Quad?
    ensures Compare(x, y) < 0 <==> Value(x) < Value(y)
    ensures Compare(x, y) == 0 <==> Value(x) == Value(y)
  {
  }

  lemma EndValue(start: Address, count: int)
    requires 1 <= count
    ensures RangeEnd(start, count).Some? <==> Value(start) != 0 && Value(start) + count - 1 < WORD
    ensures RangeEnd(start, count).Some? ==>
              RangeEnd(start, count).value.Quad? && Value(RangeEnd(start, count).value) == Value(start) + count - 1
  {
    SignedBack(Value(start));
  }

  // ---- end and count ------------------------------------------------------------------

  /** The two halves of the address space the signed conversion tears apart. */
  predicate Crosses(start: Address, end: Address) {
    Value(start) < WORD / 2 <= Value(end)
  }

  /** The size of the pool up to a computed end is the count again exactly when it stays in one half. */
  lemma CountOfEnd(start: Address, count: int)
    requires RangeEnd(start, count).Some?
    ensures PoolSize(start, RangeEnd(start, count).value) == count <==> !Crosses(start, RangeEnd(start, count).value)
  {
    EndValue(start, count);
  }

  /** A pool across the middle of the address space reads as empty: two addresses from 127.255.255.255. */
  lemma CrossingPoolReadsEmpty(start: Address)
    requires Value(start) == 0x7FFF_FFFF
    ensures RangeEnd(start, 2).Some? && PoolSize(start, RangeEnd(start, 2).value) == 0
  {
    EndValue(start, 2);
  }

  /** A pool that has a size has the end that size implies exactly when it is not inverted. */
  lemma EndOfCount(start: Address, end: Address)
    requires end.Quad? && PoolSize(start, end) > 0
    ensures RangeEnd(start, PoolSize(start, end)) == Some(end) <==> Value(start) <= Value(end)
    ensures Value(start) <= Value(end) ==> PoolSize(start, end) == Value(end) - Value(start) + 1
  {
    EndValue(start, PoolSize(start, end));
    if RangeEnd(start, PoolSize(start, end)).Some? && Value(RangeEnd(start, PoolSize(start, end)).value) == Value(end) {
      QuadsByValue(RangeEnd(start, PoolSize(start, end)).value, end);
    }
  }

  // ---- masks --------------------------------------------------------------------------

  /** The mask has this many host bits. */
  predicate HostBits(mask: Address, k: nat) {
    k <= 32 && mask.Quad? && Value(mask) == MaskOf(k)
  }

  /** A word and its successor as the bit test takes them: only all ones wrap around, and then they share no bit either. */
  lemma BitTest(inverted: Word)
    ensures And(Unsigned(inverted + 1), inverted) == 0 <==> AllOnes(inverted)
  {
    SuccessorSharesNoBit(inverted);
    if inverted == WORD - 1 {
      WordIsPow2();
      assert Ones(inverted, 32);
    }
  }

  lemma PrefixMeansOnes(mask: Address, k: nat)
    requires mask.Quad?
    ensures HostBits(mask, k) ==> Ones(Not(Value(mask)), k)
    ensures Ones(Not(Value(mask)), k) ==> HostBits(mask, k)
  {
    WordIsPow2();
    if k > 32 {
      Pow2Grows(33, k);
    }
  }

  /** The bit trick accepts exactly the prefixes. */
  lemma ContiguousIsPrefix(mask: Address)
    requires mask.Quad?
    ensures Contiguous(mask) <==> exists k: nat :: HostBits(mask, k)
  {
    var inverted := Not(Value(mask));
    BitTest(inverted);
    if AllOnes(inverted) {
      var k: nat :| Ones(inverted, k);
      PrefixMeansOnes(mask, k);
    }
    if k: nat :| HostBits(mask, k) {
      PrefixMeansOnes(mask, k);
    }
  }

  lemma MaskedValue(x: Address, mask: Address, k: nat)
    requires HostBits(mask, k)
    ensures Unsigned(BitAnd(ToInt(x), ToInt(mask))) == And(Value(x), Value(mask)) == Network(Value(x), k)
  {
    WordIsPow2();
    SignedBack(Value(x));
    SignedBack(Value(mask));
    AndMask(Value(x), 32, k);
    AndFits(Value(x), Value(mask));
    SignedBack(And(Value(x), Value(mask)));
  }

  /** The last address of the subnet. */
  function LastOf(x: Address, k: nat): int
    requires k <= 32
  {
    Network(Value(x), k) + Pow2(k) - 1
  }

  /** The computed broadcast is the last address of the subnet, except under a mask of zero. */
  lemma BroadcastValue(start: Address, mask: Address, k: nat)
    requires start.Quad? && HostBits(mask, k) && Value(start) != 0
    ensures Broadcast(start, mask).Quad?
    ensures Value(Broadcast(start, mask)) == if k == 32 then Value(DEFAULT_BROADCAST) else LastOf(start, k)
  {
    WordIsPow2();
    if k < 32 {
      var net := Network(Value(start), k);
      Pow2Grows(k, 31);
      MaskedValue(start, mask, k);
      MaskInverted(mask, k);
      NetworkFits(Value(start), k, 32);
      OrHosts(Value(start), k);
      SignedBack(net + Pow2(k) - 1);
      FromIntValue(BitOr(BitAnd(ToInt(start), ToInt(mask)), Not(ToInt(mask))));
    }
  }

  lemma MaskInverted(mask: Address, k: nat)
    requires HostBits(mask, k)
    ensures Not(ToInt(mask)) == Pow2(k) - 1
    ensures ToInt(mask) == 0 <==> k == 32
  {
    SignedBack(Value(mask));
    WordIsPow2();
    Pow2Grows(k, 32);
    if k < 32 {
      Pow2Grows(k, 31);
    }
  }

  // ---- the pool check -----------------------------------------------------------------

  ghost predicate Plain(start: Address, mask: Address, k: nat) {
    start.Quad? && HostBits(mask, k)
  }

  /** A valid start and a contiguous mask: accepted exactly when the pool ends below the computed broadcast. */
  lemma AcceptedExactly(start: Address, count: int, mask: Address, k: nat)
    requires Plain(start, mask, k)
    ensures PoolProblem(Some(start), Some(count), Some(mask)) == None
            <==> && 1 <= count <= MAX_DHCP_POOL_SIZE && Value(start) != 0
                 && Value(start) + count - 1 < Value(Broadcast(start, mask))
  {
    ContiguousIsPrefix(mask);
    if count >= 1 {
      EndValue(start, count);
      if Value(start) != 0 {
        BroadcastValue(start, mask, k);
      }
      if RangeEnd(start, count).Some? {
        CompareByValue(RangeEnd(start, count).value, Broadcast(start, mask));
      }
    }
  }

  /** Every address of an accepted pool is in the subnet of its start, below the last address. */
  lemma AcceptedPoolStaysInSubnet(start: Address, count: int, mask: Address, k: nat, address: Word)
    requires Plain(start, mask, k) && PoolProblem(Some(start), Some(count), Some(mask)) == None
    requires Value(start) <= address <= Value(start) + count - 1
    ensures And(address, Value(mask)) == And(Value(start), Value(mask))
    ensures address < LastOf(start, k)
  {
    WordIsPow2();
    AcceptedBelowLast(start, count, mask, k);
    NetworkBelow(Value(start), k);
    NetworkIsInterval(Value(start), address, k);
    AndMask(address, 32, k);
    AndMask(Value(start), 32, k);
  }

  /** An accepted pool ends below the last address of the subnet of its start. */
  lemma AcceptedBelowLast(start: Address, count: int, mask: Address, k: nat)
    requires Plain(start, mask, k) && PoolProblem(Some(start), Some(count), Some(mask)) == None
    ensures Value(start) + count - 1 < LastOf(start, k)
  {
    WordIsPow2();
    AcceptedExactly(start, count, mask, k);
    BroadcastValue(start, mask, k);
    if k == 32 {
      NetworkOfAll(Value(start), 32);
    }
  }

  /** The advised size, as a number: as many addresses as lie between the start and the broadcast. */
  lemma AdvisedSize(start: Address, count: int, mask: Address, k: nat)
    requires Plain(start, mask, k)
    requires PoolProblem(Some(start), Some(count), Some(mask)).Some?
    requires PoolProblem(Some(start), Some(count), Some(mask)).value.PastBroadcast?
    ensures var usable := PoolProblem(Some(start), Some(count), Some(mask)).value.usable;
      && 1 <= count <= MAX_DHCP_POOL_SIZE && Value(start) != 0 && usable < count
      && usable == PoolSize(start, Broadcast(start, mask)) - 1
      && (Value(start) < Value(Broadcast(start, mask)) ==> usable == Value(Broadcast(start, mask)) - Value(start))
      && (Value(start) >= Value(Broadcast(start, mask)) ==> usable < 1)
  {
    ContiguousIsPrefix(mask);
    EndValue(start, count);
    BroadcastValue(start, mask, k);
    CompareByValue(RangeEnd(start, count).value, Broadcast(start, mask));
    NetworkBelow(Value(start), k);
    if k < 32 {
      SameHalf(start, k, LastOf(start, k));
    }
  }

  /**
   The advice is exact: once a pool is refused for reaching the broadcast, the sizes accepted
   from that start are those up to the advised one, and no other.
   */
  lemma AdviceIsMaximal(start: Address, count: int, mask: Address, k: nat, other: int)
    requires Plain(start, mask, k)
    requires PoolProblem(Some(start), Some(count), Some(mask)).Some?
    requires PoolProblem(Some(start), Some(count), Some(mask)).value.PastBroadcast?
    ensures PoolProblem(Some(start), Some(other), Some(mask)) == None
            <==> 1 <= other <= PoolProblem(Some(start), Some(count), Some(mask)).value.usable
  {
    AdvisedSize(start, count, mask, k);
    AcceptedExactly(start, other, mask, k);
  }

  /** A subnet of more than zero prefix bits lies in one half of the address space. */
  lemma SameHalf(start: Address, k: nat, last: int)
    requires k < 32 && Value(start) <= last <= LastOf(start, k)
    ensures Value(start) < WORD / 2 <==> last < WORD / 2
  {
    WordIsPow2();
    if Value(start) < WORD / 2 {
      NetworkFits(Value(start), k, 31);
    }
  }

  /** Every pool that fits its subnet is accepted exactly when the mask has a prefix bit. */
  lemma FittingPoolsAccepted(start: Address, count: int, mask: Address, k: nat)
    requires Plain(start, mask, k) && Value(start) != 0 && 1 <= count <= MAX_DHCP_POOL_SIZE
    ensures k < 32 ==>
              (PoolProblem(Some(start), Some(count), Some(mask)) == None <==> Value(start) + count - 1 < LastOf(start, k))
    ensures k == 32 ==>
              (PoolProblem(Some(start), Some(count), Some(mask)) == None <==> Value(start) + count - 1 < Value(DEFAULT_BROADCAST))
  {
    AcceptedExactly(start, count, mask, k);
    BroadcastValue(start, mask, k);
  }

  /**
   Under a mask of zero (no prefix bit) the computed broadcast is the packaged one, so pools that
   fit are refused: one address at 200.0.0.1 is.
   */
  lemma ZeroMaskRefusesFittingPool(start: Address, mask: Address, k: nat)
    requires start.Quad? && Value(start) == 0xC800_0001
    requires mask.Quad? && Value(mask) == 0 && k == 32
    ensures HostBits(mask, k)
    ensures PoolProblem(Some(start), Some(1), Some(mask)).Some? && Value(start) < LastOf(start, k)
  {
    assert HostBits(mask, k) by {
      WordIsPow2();
    }
    FittingPoolsAccepted(start, 1, mask, k);
    assert LastOf(start, k) == WORD - 1 by {
      WordIsPow2();
      NetworkOfAll(Value(start), k);
    }
  }

  /** An accepted pool has its count back, unless the mask is zero and the pool crosses the middle. */
  lemma AcceptedPoolKeepsCount(start: Address, count: int, mask: Address, k: nat)
    requires Plain(start, mask, k) && PoolProblem(Some(start), Some(count), Some(mask)) == None
    ensures RangeEnd(start, count).Some?
    ensures PoolSize(start, RangeEnd(start, count).value) == count
            <==> !(k == 32 && Crosses(start, RangeEnd(start, count).value))
  {
    AcceptedExactly(start, count, mask, k);
    BroadcastValue(start, mask, k);
    EndValue(start, count);
    CountOfEnd(start, count);
    if k < 32 {
      SameHalf(start, k, Value(start) + count - 1);
    }
  }

  // ---- what a start implies -----------------------------------------------------------

  /** What the suggestion is made of, and what the two tests on the gateway come to. */
  predicate Suggested(start: Address, mask: Address, k: nat, d: Derived)
  {
    && d.gateway.Quad? && d.broadcast.Quad? && d.dns == [d.gateway]
    && Value(d.gateway) == Value(d.broadcast) - 1
    && Network(Value(d.gateway), k) == Network(Value(start), k) != Value(d.gateway)
  }

  lemma SuggestedIsGateway(start: Address, mask: Address, k: nat)
    requires Plain(start, mask, k) && DerivedAddresses(start, Some(mask)).Some?
    ensures Suggested(start, mask, k, DerivedAddresses(start, Some(mask)).value)
    ensures DerivedAddresses(start, Some(mask)).value.broadcast == Broadcast(start, mask)
  {
    BroadcastPositive(start, mask, k);
    GatewayValue(Broadcast(start, mask));
    GatewayTests(start, mask, k);
  }

  /**
   A gateway is suggested exactly for masks of /30 or wider and a start other than 0.0.0.0 -
   under a mask of zero even for that one. It is the address below the computed broadcast, in
   the subnet and not its first address.
   */
  lemma DerivedExactly(start: Address, mask: Address, k: nat)
    requires Plain(start, mask, k)
    ensures DerivedAddresses(start, Some(mask)).Some? <==> k == 32 || (k >= 2 && Value(start) != 0)
    ensures DerivedAddresses(start, Some(mask)).Some? ==>
              && Suggested(start, mask, k, DerivedAddresses(start, Some(mask)).value)
              && DerivedAddresses(start, Some(mask)).value.broadcast == Broadcast(start, mask)
  {
    if DerivedAddresses(start, Some(mask)).Some? {
      SuggestedIsGateway(start, mask, k);
    }
    BroadcastPositive(start, mask, k);
    GatewayValue(Broadcast(start, mask));
    GatewayTests(start, mask, k);
    GatewayFits(start, mask, k, Value(Broadcast(start, mask)) - 1);
  }

  /** The two tests on the gateway, as numbers. */
  lemma GatewayTests(start: Address, mask: Address, k: nat)
    requires Plain(start, mask, k)
    ensures
      var gateway := FromInt(ToInt(Broadcast(start, mask)) - 1);
      && (DerivedAddresses(start, Some(mask)).Some? <==>
            Network(Value(gateway), k) == Network(Value(start), k) != Value(gateway))
      && (DerivedAddresses(start, Some(mask)).Some? ==>
            DerivedAddresses(start, Some(mask)) == Some(Derived(gateway, Broadcast(start, mask), [gateway])))
  {
    var gateway := FromInt(ToInt(Broadcast(start, mask)) - 1);
    assert Contiguous(mask) by {
      ContiguousIsPrefix(mask);
    }
    DerivedBySuggestion(start, mask);
    assert gateway.Quad? by {
      BroadcastPositive(start, mask, k);
      GatewayValue(Broadcast(start, mask));
    }
    TestsAsNumbers(gateway, start, mask, k);
  }

  lemma DerivedBySuggestion(start: Address, mask: Address)
    requires start.Quad? && mask.Quad? && Contiguous(mask)
    ensures DerivedAddresses(start, Some(mask))
            == Suggestion(FromInt(ToInt(Broadcast(start, mask)) - 1), Broadcast(start, mask), start, mask)
  {
  }

  lemma TestsAsNumbers(gateway: Address, start: Address, mask: Address, k: nat)
    requires gateway.Quad? && HostBits(mask, k)
    ensures Passes(gateway, start, mask) <==> Network(Value(gateway), k) == Network(Value(start), k) != Value(gateway)
  {
    SameNetwork(gateway, start, mask, k);
    IsNetwork(gateway, start, mask, k);
  }

  /** The first test: both addresses masked alike. */
  lemma SameNetwork(x: Address, y: Address, mask: Address, k: nat)
    requires HostBits(mask, k)
    ensures BitAnd(ToInt(x), ToInt(mask)) == BitAnd(ToInt(y), ToInt(mask)) <==> Network(Value(x), k) == Network(Value(y), k)
  {
    MaskedValue(x, mask, k);
    MaskedValue(y, mask, k);
    MaskedEqual(x, y, mask);
  }

  /** The second test: the address is the network address itself. */
  lemma IsNetwork(x: Address, start: Address, mask: Address, k: nat)
    requires x.Quad? && HostBits(mask, k)
    ensures x == FromInt(BitAnd(ToInt(start), ToInt(mask))) <==> Value(x) == Network(Value(start), k)
  {
    MaskedValue(start, mask, k);
    FromIntValue(BitAnd(ToInt(start), ToInt(mask)));
    if Value(x) == Network(Value(start), k) {
      QuadsByValue(x, FromInt(BitAnd(ToInt(start), ToInt(mask))));
    }
  }

  lemma MaskedEqual(x: Address, y: Address, mask: Address)
    ensures BitAnd(ToInt(x), ToInt(mask)) == BitAnd(ToInt(y), ToInt(mask))
            <==> Unsigned(BitAnd(ToInt(x), ToInt(mask))) == Unsigned(BitAnd(ToInt(y), ToInt(mask)))
  {
    AndFits(Unsigned(ToInt(x)), Unsigned(ToInt(mask)));
    AndFits(Unsigned(ToInt(y)), Unsigned(ToInt(mask)));
    SignedBack(And(Unsigned(ToInt(x)), Unsigned(ToInt(mask))));
    SignedBack(And(Unsigned(ToInt(y)), Unsigned(ToInt(mask))));
  }

  lemma BroadcastPositive(start: Address, mask: Address, k: nat)
    requires Plain(start, mask, k)
    ensures Broadcast(start, mask).Quad? && Value(Broadcast(start, mask)) > 0
  {
    if Value(start) != 0 {
      BroadcastValue(start, mask, k);
      NetworkBelow(Value(start), k);
    }
  }

  /** Whether the address below the broadcast is inside the subnet and not its first. */
  lemma GatewayFits(start: Address, mask: Address, k: nat, gateway: Word)
    requires Plain(start, mask, k) && gateway == Value(Broadcast(start, mask)) - 1
    ensures Network(gateway, k) == Network(Value(start), k) != gateway <==> k == 32 || (k >= 2 && Value(start) != 0)
  {
    WordIsPow2();
    var x := Value(start);
    NetworkBelow(x, k);
    NetworkIsInterval(x, gateway, k);
    if k == 32 {
      if x != 0 {
        BroadcastValue(start, mask, k);
      }
      NetworkOfAll(x, 32);
    } else if x == 0 {
      Pow2Grows(k, 31);
      NetworkOfAll(0, k);
    } else {
      BroadcastValue(start, mask, k);
      assert Pow2(0) == 1 && Pow2(1) == 2 && Pow2(2) == 4;
      if k >= 2 {
        Pow2Grows(2, k);
      }
    }
  }

  lemma GatewayValue(broadcast: Address)
    requires broadcast.Quad? && Value(broadcast) > 0
    ensures FromInt(ToInt(broadcast) - 1).Quad?
    ensures Value(FromInt(ToInt(broadcast) - 1)) == Value(broadcast) - 1
  {
    FromIntValue(ToInt(broadcast) - 1);
  }
}
