/**
 The quick editor's DHCP pool edits: each input is checked against the settings as they are,
 and an accepted one rewrites them.
 */
module DhcpEdits {
  import opened Dhcp
  import opened Records
  import opened Words

  datatype Settings = Settings(
    rangeStart: Option<Address>,
    rangeEnd: Option<Address>,
    subnet: Option<Address>,
    gateway: Option<Address>,
    broadcast: Option<Address>,
    dns: seq<Address>)

  /** What the user enters; `None` is an emptied box. `confirmed` answers the auto-fill offer. */
  datatype Edit =
    | PoolStart(entered: Option<Address>, confirmed: bool)
    | PoolCount(number: Option<int>)
    | SubnetMask(mask: Option<Address>)

  /** `isAutoFillable`. */
  predicate AutoFillable(current: Option<Address>, previous: Option<Address>) {
    current.None? || (previous.Some? && current == previous)
  }

  predicate DnsAutoFillable(current: seq<Address>, previous: Option<seq<Address>>) {
    current == [] || (previous.Some? && current == previous.value)
  }

  function PreviousDerived(start: Option<Address>, subnet: Option<Address>): Option<Derived> {
    if start.Some? then DerivedAddresses(start.value, subnet) else None
  }

  function GatewayOf(d: Option<Derived>): Option<Address> {
    if d.Some? then Some(d.value.gateway) else None
  }

  function BroadcastOf(d: Option<Derived>): Option<Address> {
    if d.Some? then Some(d.value.broadcast) else None
  }

  function DnsOf(d: Option<Derived>): Option<seq<Address>> {
    if d.Some? then Some(d.value.dns) else None
  }

  function Filled(s: Settings, derived: Option<Derived>, previous: Option<Derived>): Settings {
    if derived.None? then s
    else
      s.(gateway := if AutoFillable(s.gateway, GatewayOf(previous)) then Some(derived.value.gateway) else s.gateway,
         broadcast := if AutoFillable(s.broadcast, BroadcastOf(previous)) then Some(derived.value.broadcast) else s.broadcast,
         dns := if DnsAutoFillable(s.dns, DnsOf(previous)) then derived.value.dns else s.dns)
  }

  /** `offerPoolAutoFill`, once confirmed. */
  function AutoFilled(s: Settings, start: Address, previousStart: Option<Address>): Settings {
    Filled(s, DerivedAddresses(start, s.subnet), PreviousDerived(previousStart, s.subnet))
  }

  function CountOf(s: Settings): int {
    CurrentCount(s.rangeStart, s.rangeEnd)
  }

  /** The input box lets an entry through. */
  predicate Accepted(s: Settings, e: Edit) {
    match e
    case PoolStart(entered, _) =>
      entered.Some? ==> entered.value.Quad? && PoolProblem(entered, Some(CountOf(s)), s.subnet).None?
    case PoolCount(number) =>
      number.Some? ==> PoolProblem(s.rangeStart, number, s.subnet).None?
    case SubnetMask(mask) =>
      mask.Some? ==>
        mask.value.Quad? && Contiguous(mask.value) && PoolProblem(s.rangeStart, Some(CountOf(s)), mask).None?
  }

  /** An entry that shows the setting as it is changes nothing. */
  predicate Unchanged(s: Settings, e: Edit) {
    match e
    case PoolStart(entered, _) => entered == s.rangeStart
    case PoolCount(number) => number == if CountOf(s) > 0 then Some(CountOf(s)) else None
    case SubnetMask(mask) => mask == s.subnet
  }

  function Applied(s: Settings, e: Edit): Settings {
    match e
    case PoolStart(entered, confirmed) =>
      var moved := s.(rangeStart := entered, rangeEnd := RangeEndForCount(entered, Some(CountOf(s))));
      if entered.Some? && confirmed then AutoFilled(moved, entered.value, s.rangeStart) else moved
    case PoolCount(number) => s.(rangeEnd := RangeEndForCount(s.rangeStart, number))
    case SubnetMask(mask) => s.(subnet := mask)
  }

  function After(s: Settings, e: Edit): Settings {
    if !Accepted(s, e) || Unchanged(s, e) then s else Applied(s, e)
  }

  function Run(s: Settings, edits: seq<Edit>): Settings
    decreases |edits|
  {
    if edits == [] then s else Run(After(s, edits[0]), edits[1..])
  }

  // ---- the editor ---------------------------------------------------------------------

  class QuickEditor {
    var rangeStart: Option<Address>
    var rangeEnd: Option<Address>
    var subnet: Option<Address>
    var gateway: Option<Address>
    var broadcast: Option<Address>
    var dns: seq<Address>

    constructor (s: Settings)
      ensures Stored() == s
    {
      rangeStart, rangeEnd, subnet := s.rangeStart, s.rangeEnd, s.subnet;
      gateway, broadcast, dns := s.gateway, s.broadcast, s.dns;
    }

    function Stored(): Settings
      reads this
    {
      Settings(rangeStart, rangeEnd, subnet, gateway, broadcast, dns)
    }

    /** Writes what may be replaced, once the offer is confirmed. */
    method FillIn(derived: Derived, previous: Option<Derived>, confirmed: bool)
      modifies this
      ensures Stored() == if confirmed then Filled(old(Stored()), Some(derived), previous) else old(Stored())
    {
      var gatewayWrite := AutoFillable(gateway, GatewayOf(previous));
      var broadcastWrite := AutoFillable(broadcast, BroadcastOf(previous));
      var dnsWrite := DnsAutoFillable(dns, DnsOf(previous));
      if !(gatewayWrite || broadcastWrite || dnsWrite) || !confirmed {
        return;
      }
      if gatewayWrite {
        gateway := Some(derived.gateway);
      }
      if broadcastWrite {
        broadcast := Some(derived.broadcast);
      }
      if dnsWrite {
        dns := derived.dns;
      }
    }

    method OfferPoolAutoFill(start: Address, previousStart: Option<Address>, confirmed: bool)
      modifies this
      ensures Stored() == if confirmed then AutoFilled(old(Stored()), start, previousStart) else old(Stored())
    {
      var derived := DerivedAddresses(start, subnet);
      if derived.Some? {
        FillIn(derived.value, PreviousDerived(previousStart, subnet), confirmed);
      }
    }

    method EditPoolStart(entered: Option<Address>, confirmed: bool) returns (edited: bool)
      modifies this
      ensures Stored() == After(old(Stored()), PoolStart(entered, confirmed))
      ensures edited == (Accepted(old(Stored()), PoolStart(entered, confirmed)) && !Unchanged(old(Stored()), PoolStart(entered, confirmed)))
    {
      var count, previous := CurrentCount(rangeStart, rangeEnd), rangeStart;
      if entered.Some? && (!entered.value.Quad? || PoolProblem(entered, Some(count), subnet).Some?) {
        return false;
      }
      if entered == rangeStart {
        return false;
      }
      rangeStart := entered;
      rangeEnd := RangeEndForCount(entered, Some(count));
      if entered.Some? {
        OfferPoolAutoFill(entered.value, previous, confirmed);
      }
      edited := true;
    }

    method EditPoolCount(number: Option<int>) returns (edited: bool)
      modifies this
      ensures Stored() == After(old(Stored()), PoolCount(number))
      ensures edited == (Accepted(old(Stored()), PoolCount(number)) && !Unchanged(old(Stored()), PoolCount(number)))
    {
      var count := CurrentCount(rangeStart, rangeEnd);
      if number.Some? && PoolProblem(rangeStart, number, subnet).Some? {
        return false;
      }
      if number == (if count > 0 then Some(count) else None) {
        return false;
      }
      rangeEnd := RangeEndForCount(rangeStart, number);
      edited := true;
    }

    method EditSubnetMask(mask: Option<Address>) returns (edited: bool)
      modifies this
      ensures Stored() == After(old(Stored()), SubnetMask(mask))
      ensures edited == (Accepted(old(Stored()), SubnetMask(mask)) && !Unchanged(old(Stored()), SubnetMask(mask)))
    {
      var count := CurrentCount(rangeStart, rangeEnd);
      if mask.Some? && (!mask.value.Quad? || !Contiguous(mask.value) || PoolProblem(rangeStart, Some(count), mask).Some?) {
        return false;
      }
      if mask == subnet {
        return false;
      }
      subnet := mask;
      edited := true;
    }

    method Perform(edits: seq<Edit>)
      modifies this
      ensures Stored() == Run(old(Stored()), edits)
    {
      var k := 0;
      while k < |edits|
        invariant 0 <= k <= |edits|
        invariant Run(Stored(), edits[k..]) == Run(old(Stored()), edits)
      {
        assert edits[k..][1..] == edits[k + 1..];
        var edited;
        match edits[k] {
          case PoolStart(entered, confirmed) => edited := EditPoolStart(entered, confirmed);
          case PoolCount(number) => edited := EditPoolCount(number);
          case SubnetMask(mask) => edited := EditSubnetMask(mask);
        }
        k := k + 1;
      }
    }
  }

  // ---- what every run keeps -----------------------------------------------------------

  function StartOf(s: Settings): Address { OrDefault(s.rangeStart, DEFAULT_START) }

  function EndOf(s: Settings): Address { OrDefault(s.rangeEnd, DEFAULT_END) }

  function MaskInForce(s: Settings): Address { OrDefault(s.subnet, DEFAULT_SUBNET) }

  /** Valid settings whose pool runs upwards, within its start's subnet, below the broadcast. */
  ghost predicate Consistent(s: Settings, k: nat) {
    && HostBits(MaskInForce(s), k)
    && StartOf(s).Quad? && EndOf(s).Quad? && Value(StartOf(s)) != 0
    && Value(StartOf(s)) <= Value(EndOf(s)) < Value(StartOf(s)) + MAX_DHCP_POOL_SIZE
    && Value(EndOf(s)) < Value(Broadcast(StartOf(s), MaskInForce(s)))
  }

  /** The pool is one whose size the editor can read. */
  predicate Readable(s: Settings) {
    !Crosses(StartOf(s), EndOf(s))
  }

  lemma CountIsSize(s: Settings, k: nat)
    requires Consistent(s, k)
    ensures CountOf(s) == if Readable(s) then Value(EndOf(s)) - Value(StartOf(s)) + 1 else 0
    ensures k < 32 ==> Readable(s)
  {
    BroadcastValue(StartOf(s), MaskInForce(s), k);
    if k < 32 {
      SameHalf(StartOf(s), k, Value(EndOf(s)));
    }
  }

  ghost predicate NonBlank(e: Edit) {
    match e
    case PoolStart(entered, _) => entered.Some?
    case PoolCount(number) => number.Some?
    case SubnetMask(mask) => mask.Some?
  }

  lemma AutoFillKeepsPool(s: Settings, start: Address, previous: Option<Address>)
    ensures AutoFilled(s, start, previous).(gateway := s.gateway, broadcast := s.broadcast, dns := s.dns) == s
  {
  }

  /** A pool the check accepts, written as start and computed end. */
  lemma AcceptedIsConsistent(s: Settings, count: int, k: nat)
    requires HostBits(MaskInForce(s), k) && StartOf(s).Quad?
    requires PoolProblem(Some(StartOf(s)), Some(count), Some(MaskInForce(s))).None?
    requires s.rangeEnd == RangeEnd(StartOf(s), count)
    ensures Consistent(s, k) && s.rangeEnd.Some? && Value(EndOf(s)) == Value(StartOf(s)) + count - 1
  {
    AcceptedExactly(StartOf(s), count, MaskInForce(s), k);
    BroadcastValue(StartOf(s), MaskInForce(s), k);
    EndValue(StartOf(s), count);
  }

  /** The check reads blanks as the packaged values. */
  lemma ProblemByDefaults(start: Option<Address>, count: int, subnet: Option<Address>)
    ensures PoolProblem(start, Some(count), subnet)
         == PoolProblem(Some(OrDefault(start, DEFAULT_START)), Some(count), Some(OrDefault(subnet, DEFAULT_SUBNET)))
  {
  }

  ghost predicate SomeConsistent(s: Settings) {
    exists k: nat :: Consistent(s, k)
  }

  lemma StartKeeps(s: Settings, entered: Address, confirmed: bool, k: nat)
    requires Consistent(s, k) && Accepted(s, PoolStart(Some(entered), confirmed))
    ensures Consistent(Applied(s, PoolStart(Some(entered), confirmed)), k)
    ensures Value(EndOf(Applied(s, PoolStart(Some(entered), confirmed)))) == Value(entered) + CountOf(s) - 1
  {
    var moved := s.(rangeStart := Some(entered), rangeEnd := RangeEnd(entered, CountOf(s)));
    ProblemByDefaults(Some(entered), CountOf(s), s.subnet);
    AcceptedIsConsistent(moved, CountOf(s), k);
    AutoFillKeepsPool(moved, entered, s.rangeStart);
    var after := Applied(s, PoolStart(Some(entered), confirmed));
    assert after.rangeStart == moved.rangeStart && after.rangeEnd == moved.rangeEnd && after.subnet == moved.subnet;
  }

  lemma CountKeeps(s: Settings, number: int, k: nat)
    requires Consistent(s, k) && Accepted(s, PoolCount(Some(number)))
    ensures Consistent(Applied(s, PoolCount(Some(number))), k)
  {
    ProblemByDefaults(s.rangeStart, number, s.subnet);
    AcceptedIsConsistent(Applied(s, PoolCount(Some(number))), number, k);
  }

  lemma MaskKeeps(s: Settings, mask: Address, k: nat)
    requires Consistent(s, k) && Accepted(s, SubnetMask(Some(mask)))
    ensures SomeConsistent(Applied(s, SubnetMask(Some(mask))))
  {
    var after := s.(subnet := Some(mask));
    ContiguousIsPrefix(mask);
    var k': nat :| HostBits(mask, k');
    CountIsSize(s, k);
    ProblemByDefaults(s.rangeStart, CountOf(s), Some(mask));
    AcceptedExactly(StartOf(s), CountOf(s), mask, k');
    assert Consistent(after, k');
  }

  lemma AppliedKeeps(s: Settings, e: Edit, k: nat)
    requires Consistent(s, k) && NonBlank(e) && Accepted(s, e)
    ensures SomeConsistent(Applied(s, e))
  {
    match e
    case PoolStart(entered, confirmed) =>
      StartKeeps(s, entered.value, confirmed, k);
      assert Consistent(Applied(s, PoolStart(Some(entered.value), confirmed)), k);
    case PoolCount(number) =>
      CountKeeps(s, number.value, k);
      assert Consistent(Applied(s, PoolCount(Some(number.value))), k);
    case SubnetMask(mask) =>
      MaskKeeps(s, mask.value, k);
  }

  lemma StepStaysConsistent(s: Settings, e: Edit)
    requires SomeConsistent(s) && NonBlank(e)
    ensures SomeConsistent(After(s, e))
  {
    var k: nat :| Consistent(s, k);
    if Accepted(s, e) && !Unchanged(s, e) {
      AppliedKeeps(s, e, k);
    }
  }

  /**
   Over any run of non-blank start, count and mask edits, accepted or refused, the stored range
   stays valid, in one subnet and below its broadcast.
   */
  lemma {:induction false} RunsStayConsistent(s: Settings, edits: seq<Edit>)
    requires SomeConsistent(s) && forall i | 0 <= i < |edits| :: NonBlank(edits[i])
    ensures SomeConsistent(Run(s, edits))
    decreases |edits|
  {
    if edits != [] {
      StepStaysConsistent(s, edits[0]);
      RunsStayConsistent(After(s, edits[0]), edits[1..]);
    }
  }

  /** Every address of a consistent pool is in the start's subnet and below its last address. */
  lemma ConsistentPoolInSubnet(s: Settings, k: nat, address: Word)
    requires Consistent(s, k) && Value(StartOf(s)) <= address <= Value(EndOf(s))
    ensures And(address, Value(MaskInForce(s))) == And(Value(StartOf(s)), Value(MaskInForce(s)))
    ensures address < LastOf(StartOf(s), k)
  {
    var count := Value(EndOf(s)) - Value(StartOf(s)) + 1;
    AcceptedExactly(StartOf(s), count, MaskInForce(s), k);
    AcceptedPoolStaysInSubnet(StartOf(s), count, MaskInForce(s), k, address);
  }

  /**
   Moving the start keeps the size of the pool - unless the mask has no prefix bit and the new
   pool crosses the middle of the address space, where its size reads as zero.
   */
  lemma StartMovePreservesSize(s: Settings, entered: Address, confirmed: bool, k: nat)
    requires Consistent(s, k) && Accepted(s, PoolStart(Some(entered), confirmed))
    ensures var after := Applied(s, PoolStart(Some(entered), confirmed));
      && Value(EndOf(after)) - Value(StartOf(after)) == Value(EndOf(s)) - Value(StartOf(s))
      && (CountOf(after) == CountOf(s) <==> !(k == 32 && Crosses(entered, EndOf(after))))
  {
    var after := Applied(s, PoolStart(Some(entered), confirmed));
    StartKeeps(s, entered, confirmed, k);
    CountIsSize(s, k);
    CountIsSize(after, k);
    AcceptedPositive(s, entered, confirmed);
  }

  lemma AcceptedPositive(s: Settings, entered: Address, confirmed: bool)
    requires Accepted(s, PoolStart(Some(entered), confirmed))
    ensures CountOf(s) >= 1
  {
  }

  /** A field is kept, or was blank or derived before and is derived now. */
  predicate Replaced<T(==)>(before: T, after: T, blank: T, previous: Option<T>, derived: Option<T>) {
    after == before || ((before == blank || Some(before) == previous) && Some(after) == derived)
  }

  ghost predicate OnlyDerivedReplaced(s: Settings, after: Settings, derived: Option<Derived>, previous: Option<Derived>) {
    && Replaced(s.gateway, after.gateway, None, Lifted(GatewayOf(previous)), Lifted(GatewayOf(derived)))
    && Replaced(s.broadcast, after.broadcast, None, Lifted(BroadcastOf(previous)), Lifted(BroadcastOf(derived)))
    && Replaced(s.dns, after.dns, [], DnsOf(previous), DnsOf(derived))
    && after.subnet == s.subnet
  }

  function Lifted(v: Option<Address>): Option<Option<Address>> {
    if v.Some? then Some(v) else None
  }

  lemma FilledOnlyDerived(s: Settings, derived: Option<Derived>, previous: Option<Derived>)
    ensures OnlyDerivedReplaced(s, Filled(s, derived, previous), derived, previous)
  {
  }

  /** What an accepted start writes, and what the offer adds. */
  function Moved(s: Settings, entered: Address): Settings {
    s.(rangeStart := Some(entered), rangeEnd := RangeEnd(entered, CountOf(s)))
  }

  /**
   Once a start is let through, auto-fill replaces a gateway, a broadcast or the DNS list only
   when it was blank or was what the previous start implied, then by what the new start implies,
   and only on confirmation.
   */
  lemma AutoFillReplacesOnlyDerived(s: Settings, entered: Address, confirmed: bool)
    ensures
      var after := Applied(s, PoolStart(Some(entered), confirmed));
      && after.rangeStart == Some(entered) && after.rangeEnd == Moved(s, entered).rangeEnd
      && (!confirmed ==> after == Moved(s, entered))
      && OnlyDerivedReplaced(s, after, DerivedAddresses(entered, s.subnet), PreviousDerived(s.rangeStart, s.subnet))
  {
    FilledOnlyDerived(Moved(s, entered), DerivedAddresses(entered, s.subnet), PreviousDerived(s.rangeStart, s.subnet));
  }

  // ---- what each edit does ------------------------------------------------------------

  /** A pool of so many addresses from this start fits below the broadcast. */
  predicate Fits(start: Address, count: int, mask: Address) {
    && 1 <= count <= MAX_DHCP_POOL_SIZE && Value(start) != 0
    && Value(start) + count - 1 < Value(Broadcast(start, mask))
  }

  lemma FitsExactly(s: Settings, start: Option<Address>, count: int, mask: Option<Address>, k: nat)
    requires OrDefault(start, DEFAULT_START).Quad? && HostBits(OrDefault(mask, DEFAULT_SUBNET), k)
    ensures PoolProblem(start, Some(count), mask).None?
            <==> Fits(OrDefault(start, DEFAULT_START), count, OrDefault(mask, DEFAULT_SUBNET))
  {
    ProblemByDefaults(start, count, mask);
    AcceptedExactly(OrDefault(start, DEFAULT_START), count, OrDefault(mask, DEFAULT_SUBNET), k);
  }

  /** The end a fitting count implies is stored, and lies that many addresses on. */
  lemma FittingEnd(start: Address, count: int, mask: Address, k: nat)
    requires start.Quad? && HostBits(mask, k) && Fits(start, count, mask)
    ensures var end := RangeEnd(start, count); end.Some? && end.value.Quad? && Value(end.value) == Value(start) + count - 1
  {
    AcceptedExactly(start, count, mask, k);
    BroadcastValue(start, mask, k);
    EndValue(start, count);
  }

  /**
   The count entered is the count stored: one that fits puts the end that many addresses from
   the start, one that does not changes nothing, and an emptied one clears the end, unless the
   pool shown had no size. Nothing else is written.
   */
  lemma CountEditExactly(s: Settings, number: Option<int>, k: nat)
    requires Consistent(s, k)
    ensures
      var after := After(s, PoolCount(number));
      && after.(rangeEnd := s.rangeEnd) == s
      && match number
         case None => after.rangeEnd == if CountOf(s) > 0 then None else s.rangeEnd
         case Some(n) =>
           if Fits(StartOf(s), n, MaskInForce(s))
           then EndOf(after).Quad? && Value(EndOf(after)) == Value(StartOf(s)) + n - 1 && (n != CountOf(s) ==> after.rangeEnd.Some?)
           else after == s
  {
    if number.Some? {
      FitsExactly(s, s.rangeStart, number.value, s.subnet, k);
      CountIsSize(s, k);
      if Fits(StartOf(s), number.value, MaskInForce(s)) {
        FittingEnd(StartOf(s), number.value, MaskInForce(s), k);
      }
    }
  }

  /** A mask that is a netmask and leaves the pool where it fits is stored, with the pool as it was; another changes nothing. */
  lemma MaskEditExactly(s: Settings, mask: Option<Address>)
    requires StartOf(s).Quad?
    ensures
      After(s, SubnetMask(mask))
      == if mask.None? || (mask.value.Quad? && Contiguous(mask.value) && Fits(StartOf(s), CountOf(s), mask.value))
         then s.(subnet := mask) else s
  {
    if mask.Some? && mask.value.Quad? && Contiguous(mask.value) {
      ContiguousIsPrefix(mask.value);
      var k: nat :| HostBits(mask.value, k);
      FitsExactly(s, s.rangeStart, CountOf(s), mask, k);
    }
  }

  /** The value the offer leaves: the derived one where the field was blank or held what the previous start implied. */
  function Offered<T(==)>(before: T, blank: T, previous: Option<T>, derived: Option<T>): T {
    if derived.Some? && (before == blank || previous == Some(before)) then derived.value else before
  }

  ghost predicate FilledIn(s: Settings, after: Settings, derived: Option<Derived>, previous: Option<Derived>) {
    && after.gateway == Offered(s.gateway, None, Lifted(GatewayOf(previous)), Lifted(GatewayOf(derived)))
    && after.broadcast == Offered(s.broadcast, None, Lifted(BroadcastOf(previous)), Lifted(BroadcastOf(derived)))
    && after.dns == Offered(s.dns, [], DnsOf(previous), DnsOf(derived))
  }

  lemma FilledExactly(s: Settings, derived: Option<Derived>, previous: Option<Derived>)
    ensures FilledIn(s, Filled(s, derived, previous), derived, previous)
    ensures Filled(s, derived, previous).(gateway := s.gateway, broadcast := s.broadcast, dns := s.dns) == s
  {
  }

  lemma LetThroughStart(s: Settings, entered: Address, confirmed: bool, k: nat)
    requires Consistent(s, k) && entered.Quad?
    ensures Accepted(s, PoolStart(Some(entered), confirmed)) <==> Fits(entered, CountOf(s), MaskInForce(s))
    ensures Fits(entered, CountOf(s), MaskInForce(s)) ==>
              RangeEnd(entered, CountOf(s)).Some? && Value(RangeEnd(entered, CountOf(s)).value) == Value(entered) + CountOf(s) - 1
  {
    FitsExactly(s, Some(entered), CountOf(s), s.subnet, k);
    if Fits(entered, CountOf(s), MaskInForce(s)) {
      FittingEnd(entered, CountOf(s), MaskInForce(s), k);
    }
  }

  /**
   A start that is an address and lets the pool fit is stored with the end that keeps the pool's
   size; on confirmation each of gateway, broadcast and DNS takes the derived value where it may
   be replaced. A start that does not, or that is there already, changes nothing.
   */
  lemma StartEditExactly(s: Settings, entered: Address, confirmed: bool, k: nat)
    requires Consistent(s, k)
    ensures
      var after := After(s, PoolStart(Some(entered), confirmed));
      var derived := DerivedAddresses(entered, s.subnet);
      var previous := if s.rangeStart.Some? then DerivedAddresses(s.rangeStart.value, s.subnet) else None;
      if !entered.Quad? || !Fits(entered, CountOf(s), MaskInForce(s)) || s.rangeStart == Some(entered) then after == s
      else
        && after.rangeStart == Some(entered) && after.subnet == s.subnet
        && after.rangeEnd.Some? && Value(after.rangeEnd.value) == Value(entered) + CountOf(s) - 1
        && (if confirmed then FilledIn(s, after, derived, previous)
            else after.gateway == s.gateway && after.broadcast == s.broadcast && after.dns == s.dns)
  {
    if entered.Quad? {
      LetThroughStart(s, entered, confirmed, k);
      FilledExactly(Moved(s, entered), DerivedAddresses(entered, s.subnet), PreviousDerived(s.rangeStart, s.subnet));
    }
  }

  /** An emptied start goes back to the packaged one, with the end that keeps the size; an empty one stays. */
  lemma ClearedStartExactly(s: Settings, confirmed: bool)
    ensures
      After(s, PoolStart(None, confirmed))
      == if s.rangeStart.None? then s else s.(rangeStart := None, rangeEnd := RangeEnd(DEFAULT_START, CountOf(s)))
  {
  }
}
