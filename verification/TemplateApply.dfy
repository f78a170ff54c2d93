/**
 Applying a device template to a folder: the write loop, which re-reads each server and
 re-resolves each reference immediately before its own write because other commands run
 while a save is pending.
 */
module TemplateApply {
  import opened Records
  import opened Core

  datatype Field = ProxyField | FlagField(flag: Flag) | LinkField(link: Link)

  /** What one server receives: only the fields the plan sets, and their list. */
  datatype Write = Write(
    serverId: Id,
    proxy: Option<Proxy>,
    flags: map<Flag, bool>,
    links: map<Link, Id>,
    writtenFields: seq<Field>)

  /** The part of the core this command reads and writes. */
  datatype Fleet = Fleet(servers: map<Id, Server>, profiles: set<Id>)

  datatype Op = Perform(write: Write) | Interleave(event: ServerEvent)

  // ---- one write ----------------------------------------------------------------------

  predicate Sets(w: Write, f: Field) {
    match f
    case ProxyField => w.proxy.Some?
    case FlagField(flag) => flag in w.flags
    case LinkField(link) => link in w.links
  }

  ghost predicate Distinct<T(!new)>(s: seq<T>) {
    forall i, j :: 0 <= i < j < |s| ==> s[i] != s[j]
  }

  /** The planner lists each field it sets once, and no other. */
  ghost predicate Planned(w: Write) {
    && Distinct(w.writtenFields)
    && forall f: Field :: f in w.writtenFields <==> Sets(w, f)
  }

  /** `dropWritten`: remove the first occurrence. */
  function DropFirst(fields: seq<Field>, f: Field): seq<Field> {
    if fields == [] then []
    else if fields[0] == f then fields[1..]
    else [fields[0]] + DropFirst(fields[1..], f)
  }

  lemma {:induction false} DropFirstRemoves(fields: seq<Field>, f: Field)
    requires Distinct(fields)
    ensures Distinct(DropFirst(fields, f))
    ensures forall g: Field :: g in DropFirst(fields, f) <==> g in fields && g != f
  {
    if fields == [] {
    } else if fields[0] == f {
      assert fields == [f] + fields[1..];
    } else {
      DropFirstRemoves(fields[1..], f);
      assert fields == [fields[0]] + fields[1..];
      assert fields[0] !in DropFirst(fields[1..], f);
    }
  }

  /** Does the reference under this link, if the plan sets one, still name something? */
  predicate StillResolves(fleet: Fleet, w: Write, l: Link) {
    l in w.links ==> w.links[l] in Bucket(l, fleet.profiles, fleet.servers.Keys)
  }

  /** The plan sets this field and it may be persisted. */
  predicate Persists(fleet: Fleet, w: Write, f: Field) {
    Sets(w, f) && (f.LinkField? ==> StillResolves(fleet, w, f.link))
  }

  function KeepLink(fleet: Fleet, w: Write, l: Link, fields: seq<Field>): seq<Field> {
    if StillResolves(fleet, w, l) then fields else DropFirst(fields, LinkField(l))
  }

  /** The written fields left once every dangling reference has been declined. */
  function Kept(fleet: Fleet, w: Write): seq<Field> {
    KeepLink(fleet, w, Gateway, KeepLink(fleet, w, IpmiAuth, KeepLink(fleet, w, Auth, w.writtenFields)))
  }

  lemma KeptIsWhatPersists(fleet: Fleet, w: Write)
    requires Planned(w)
    ensures forall f: Field :: f in Kept(fleet, w) <==> Persists(fleet, w, f)
  {
    var a := KeepLink(fleet, w, Auth, w.writtenFields);
    var b := KeepLink(fleet, w, IpmiAuth, a);
    DropFirstRemoves(w.writtenFields, LinkField(Auth));
    DropFirstRemoves(a, LinkField(IpmiAuth));
    DropFirstRemoves(b, LinkField(Gateway));
  }

  /** `clearStampMembers`: the stamps of the written fields go. */
  function ClearStamps(s: Stamps, fields: seq<Field>): Stamps {
    Stamps(
      if ProxyField in fields then None else s.proxy,
      map f | f in s.flags && FlagField(f) !in fields :: s.flags[f],
      map l | l in s.links && LinkField(l) !in fields :: s.links[l])
  }

  function ClearOrigin(o: Claim<Origin>, fields: seq<Field>): Claim<Origin> {
    if o.Present? then Present(o.value.(stamps := ClearStamps(o.value.stamps, fields))) else o
  }

  function ClearMarker(d: Claim<Detached>, fields: seq<Field>): Claim<Detached> {
    if d.Present? then Present(d.value.(stamps := ClearStamps(d.value.stamps, fields))) else d
  }

  /** The record a write leaves behind, given the live one. */
  function WrittenRecord(fleet: Fleet, live: Server, w: Write): Server {
    live.(
      proxy := if w.proxy.Some? then w.proxy else live.proxy,
      flags := live.flags + w.flags,
      links := live.links + (map l | l in w.links && StillResolves(fleet, w, l) :: w.links[l]),
      origin := ClearOrigin(live.origin, Kept(fleet, w)),
      formerlySynced := ClearMarker(live.formerlySynced, Kept(fleet, w)))
  }

  /** A write happens when its server is still there and some field survived. */
  predicate Lands(fleet: Fleet, w: Write) {
    w.serverId in fleet.servers && Kept(fleet, w) != []
  }

  function AfterWrite(fleet: Fleet, w: Write): Fleet {
    if Lands(fleet, w)
    then fleet.(servers := fleet.servers[w.serverId := WrittenRecord(fleet, fleet.servers[w.serverId], w)])
    else fleet
  }

  // ---- runs ---------------------------------------------------------------------------

  /** A form offers only references that are there. */
  predicate Savable(fleet: Fleet, id: Id, server: Server) {
    LinksResolve(server.links, fleet.profiles, fleet.servers.Keys + {id})
  }

  function AfterEvent(fleet: Fleet, e: ServerEvent): Fleet {
    if e.Saved? && !Savable(fleet, e.id, e.server) then fleet
    else Fleet(ServersAfter(fleet.servers, e), if e.ProfileRemoved? then fleet.profiles - {e.profileId} else fleet.profiles)
  }

  function After(fleet: Fleet, op: Op): Fleet {
    match op
    case Perform(w) => AfterWrite(fleet, w)
    case Interleave(e) => AfterEvent(fleet, e)
  }

  /** The fleet after a run; every prefix of a run is itself a run that ends at a yield. */
  function Exec(fleet: Fleet, run: seq<Op>): Fleet
    decreases |run|
  {
    if run == [] then fleet else Exec(After(fleet, run[0]), run[1..])
  }

  /** How many writes of the run landed. */
  function Landed(fleet: Fleet, run: seq<Op>): nat
    decreases |run|
  {
    if run == [] then 0
    else (if run[0].Perform? && Lands(fleet, run[0].write) then 1 else 0) + Landed(After(fleet, run[0]), run[1..])
  }

  function LandedIds(fleet: Fleet, run: seq<Op>): set<Id>
    decreases |run|
  {
    if run == [] then {}
    else (if run[0].Perform? && Lands(fleet, run[0].write) then {run[0].write.serverId} else {})
         + LandedIds(After(fleet, run[0]), run[1..])
  }

  /** The same run with this command's own writes left out. */
  function OthersOnly(run: seq<Op>): seq<Op> {
    if run == [] then []
    else (if run[0].Perform? then [] else [run[0]]) + OthersOnly(run[1..])
  }

  ghost predicate NoDangling(fleet: Fleet) {
    NoDanglingServers(fleet.servers, fleet.profiles)
  }

  // ---- what a write does --------------------------------------------------------------

  /** The value under a field: of a record, of a write, or of a bag of stamps. */
  datatype Cell = Unset | ProxyCell(proxy: Proxy) | FlagCell(on: bool) | LinkCell(id: Id)

  function CellOf(proxy: Option<Proxy>, flags: map<Flag, bool>, links: map<Link, Id>, f: Field): Cell {
    match f
    case ProxyField => if proxy.Some? then ProxyCell(proxy.value) else Unset
    case FlagField(flag) => if flag in flags then FlagCell(flags[flag]) else Unset
    case LinkField(link) => if link in links then LinkCell(links[link]) else Unset
  }

  function FieldOf(s: Server, f: Field): Cell { CellOf(s.proxy, s.flags, s.links, f) }

  function PlannedValue(w: Write, f: Field): Cell { CellOf(w.proxy, w.flags, w.links, f) }

  function StampUnder(s: Stamps, f: Field): Cell { CellOf(s.proxy, s.flags, s.links, f) }

  function OriginStamp(s: Server, f: Field): Cell {
    if s.origin.Present? then StampUnder(s.origin.value.stamps, f) else Unset
  }

  function MarkerStamp(s: Server, f: Field): Cell {
    if s.formerlySynced.Present? then StampUnder(s.formerlySynced.value.stamps, f) else Unset
  }

  /** Everything but the templatable fields and their stamps. */
  predicate SameUntemplated(a: Server, b: Server) {
    && a.name == b.name && a.group == b.group && a.rest == b.rest && a.opensExplorer == b.opensExplorer
    && a.username == b.username && a.keyPath == b.keyPath && a.addressless == b.addressless
    && SameButStamps(a, b)
  }

  /** The provenance half of the origin and of the marker. */
  predicate SameButStamps(a: Server, b: Server) {
    var none := Stamps(None, map[], map[]);
    && (if a.origin.Present? && b.origin.Present?
        then a.origin.value.(stamps := none) == b.origin.value.(stamps := none)
        else a.origin == b.origin)
    && (if a.formerlySynced.Present? && b.formerlySynced.Present?
        then a.formerlySynced.value.(stamps := none) == b.formerlySynced.value.(stamps := none)
        else a.formerlySynced == b.formerlySynced)
  }

  /**
   For every field: either it takes the planned value and its stamp is gone from the origin
   and from the detached marker, or its value and both stamps are what they were. Which of
   the two is decided by whether the plan sets it and its reference still resolves. Nothing
   else changes.
   */
  lemma WriteTakesOverExactlyItsFields(fleet: Fleet, w: Write, f: Field)
    requires Planned(w) && w.serverId in fleet.servers
    ensures AfterWrite(fleet, w).servers.Keys == fleet.servers.Keys
    ensures forall id | id in fleet.servers && id != w.serverId :: AfterWrite(fleet, w).servers[id] == fleet.servers[id]
    ensures
      var before := fleet.servers[w.serverId];
      var after := AfterWrite(fleet, w).servers[w.serverId];
      && SameUntemplated(before, after)
      && (if Persists(fleet, w, f) then
            && FieldOf(after, f) == PlannedValue(w, f) != Unset
            && OriginStamp(after, f) == Unset
            && MarkerStamp(after, f) == Unset
          else
            && FieldOf(after, f) == FieldOf(before, f)
            && OriginStamp(after, f) == OriginStamp(before, f)
            && MarkerStamp(after, f) == MarkerStamp(before, f))
  {
    KeptIsWhatPersists(fleet, w);
    var before := fleet.servers[w.serverId];
    if Kept(fleet, w) == [] {
      assert f !in Kept(fleet, w);
    } else {
      WrittenIsUntemplated(fleet, before, w, before);
      WrittenField(fleet, before, w, f);
    }
  }

  lemma WrittenField(fleet: Fleet, live: Server, w: Write, f: Field)
    requires f in Kept(fleet, w) <==> Persists(fleet, w, f)
    ensures
      var after := WrittenRecord(fleet, live, w);
      if Persists(fleet, w, f)
      then FieldOf(after, f) == PlannedValue(w, f) != Unset && OriginStamp(after, f) == Unset && MarkerStamp(after, f) == Unset
      else SameAt(after, live, f)
  {
  }

  // ---- what whole runs keep -----------------------------------------------------------

  lemma StepKeepsLinks(fleet: Fleet, op: Op)
    requires NoDangling(fleet)
    ensures NoDangling(After(fleet, op))
  {
    match op
    case Perform(w) =>
      var after := AfterWrite(fleet, w);
      assert after.servers.Keys == fleet.servers.Keys;
      forall id | id in after.servers ensures LinksResolve(after.servers[id].links, after.profiles, after.servers.Keys) {
        assert LinksResolve(fleet.servers[id].links, fleet.profiles, fleet.servers.Keys);
      }
    case Interleave(e) =>
      match e
      case ServersRemoved(ids) => RemovingServersKeepsLinks(fleet.servers, fleet.profiles, ids);
      case ProfileRemoved(p) => RemovingProfileKeepsLinks(fleet.servers, fleet.profiles, p);
      case Edited(id, name, group, rest) =>
        var after := AfterEvent(fleet, e);
        forall k | k in after.servers ensures LinksResolve(after.servers[k].links, after.profiles, after.servers.Keys) {
          assert LinksResolve(fleet.servers[k].links, fleet.profiles, fleet.servers.Keys);
        }
      case Saved(id, server) =>
        var after := AfterEvent(fleet, e);
        forall k | k in after.servers ensures LinksResolve(after.servers[k].links, after.profiles, after.servers.Keys) {
          if k in fleet.servers {
            assert LinksResolve(fleet.servers[k].links, fleet.profiles, fleet.servers.Keys);
          }
        }
  }

  /** Running one part and then the other is running the whole. */
  lemma {:induction false} ExecSplits(fleet: Fleet, first: seq<Op>, second: seq<Op>)
    ensures Exec(fleet, first + second) == Exec(Exec(fleet, first), second)
    ensures Landed(fleet, first + second) == Landed(fleet, first) + Landed(Exec(fleet, first), second)
    decreases |first|
  {
    if first == [] {
      assert first + second == second;
    } else {
      assert (first + second)[1..] == first[1..] + second;
      ExecSplits(After(fleet, first[0]), first[1..], second);
    }
  }

  ghost predicate DistinctTargets(run: seq<Op>) {
    forall i, j :: 0 <= i < j < |run| && run[i].Perform? && run[j].Perform? ==>
      run[i].write.serverId != run[j].write.serverId
  }

  lemma {:induction false} LandedIdsAreTargets(fleet: Fleet, run: seq<Op>)
    ensures forall id | id in LandedIds(fleet, run) ::
              exists i :: 0 <= i < |run| && run[i].Perform? && run[i].write.serverId == id
    decreases |run|
  {
    if run != [] {
      LandedIdsAreTargets(After(fleet, run[0]), run[1..]);
      forall id | id in LandedIds(fleet, run)
        ensures exists i :: 0 <= i < |run| && run[i].Perform? && run[i].write.serverId == id
      {
        if id in LandedIds(After(fleet, run[0]), run[1..]) {
          var i :| 0 <= i < |run[1..]| && run[1..][i].Perform? && run[1..][i].write.serverId == id;
          assert run[i + 1] == run[1..][i];
        }
      }
    }
  }

  /** The count a run reports is the number of servers it wrote. */
  lemma {:induction false} CountIsServersWritten(fleet: Fleet, run: seq<Op>)
    requires DistinctTargets(run)
    ensures |LandedIds(fleet, run)| == Landed(fleet, run)
    decreases |run|
  {
    if run != [] {
      var rest := LandedIds(After(fleet, run[0]), run[1..]);
      assert forall i :: 0 <= i < |run[1..]| ==> run[1..][i] == run[i + 1];
      CountIsServersWritten(After(fleet, run[0]), run[1..]);
      LandedIdsAreTargets(After(fleet, run[0]), run[1..]);
      if run[0].Perform? {
        assert run[0].write.serverId !in rest;
      }
    }
  }

  ghost predicate SameForOthers(a: Fleet, b: Fleet) {
    && a.profiles == b.profiles
    && a.servers.Keys == b.servers.Keys
    && forall id | id in a.servers :: SameUntemplated(a.servers[id], b.servers[id])
  }

  lemma WrittenIsUntemplated(fleet: Fleet, live: Server, w: Write, other: Server)
    requires SameUntemplated(live, other)
    ensures SameUntemplated(WrittenRecord(fleet, live, w), other)
  {
  }

  lemma WriteInvisibleToOthers(a: Fleet, b: Fleet, w: Write)
    requires SameForOthers(a, b)
    ensures SameForOthers(AfterWrite(a, w), b)
  {
    if Lands(a, w) {
      WrittenIsUntemplated(a, a.servers[w.serverId], w, b.servers[w.serverId]);
      SameWithRecord(a, b, w.serverId, WrittenRecord(a, a.servers[w.serverId], w));
    }
  }

  lemma SameWithRecord(a: Fleet, b: Fleet, id: Id, server: Server)
    requires SameForOthers(a, b) && id in a.servers && SameUntemplated(server, b.servers[id])
    ensures SameForOthers(a.(servers := a.servers[id := server]), b)
  {
  }

  lemma SweepsAlike(a: Server, b: Server, lostA: set<Link>, lostB: set<Link>)
    requires SameUntemplated(a, b)
    ensures SameUntemplated(WithoutLinks(a, lostA), WithoutLinks(b, lostB))
  {
  }

  lemma RemovalActsAlike(a: Fleet, b: Fleet, ids: set<Id>)
    requires SameForOthers(a, b)
    ensures SameForOthers(AfterEvent(a, ServersRemoved(ids)), AfterEvent(b, ServersRemoved(ids)))
  {
    var a', b' := AfterEvent(a, ServersRemoved(ids)), AfterEvent(b, ServersRemoved(ids));
    forall id | id in a'.servers ensures SameUntemplated(a'.servers[id], b'.servers[id]) {
      SweepsAlike(a.servers[id], b.servers[id], LinksToServers(a.servers[id], ids), LinksToServers(b.servers[id], ids));
    }
  }

  lemma ProfileRemovalActsAlike(a: Fleet, b: Fleet, p: Id)
    requires SameForOthers(a, b)
    ensures SameForOthers(AfterEvent(a, ProfileRemoved(p)), AfterEvent(b, ProfileRemoved(p)))
  {
    var a', b' := AfterEvent(a, ProfileRemoved(p)), AfterEvent(b, ProfileRemoved(p));
    forall id | id in a'.servers ensures SameUntemplated(a'.servers[id], b'.servers[id]) {
      SweepsAlike(a.servers[id], b.servers[id], LinksToProfile(a.servers[id], p), LinksToProfile(b.servers[id], p));
    }
  }

  lemma EditActsAlike(a: Fleet, b: Fleet, e: ServerEvent)
    requires e.Edited? && SameForOthers(a, b)
    ensures SameForOthers(AfterEvent(a, e), AfterEvent(b, e))
  {
    if e.id in a.servers {
      EditedRecordAlike(a.servers[e.id], b.servers[e.id], e);
    }
  }

  lemma EditedRecordAlike(a: Server, b: Server, e: ServerEvent)
    requires e.Edited? && SameUntemplated(a, b)
    ensures SameUntemplated(a.(name := e.name, group := e.group, rest := e.rest), b.(name := e.name, group := e.group, rest := e.rest))
  {
  }

  lemma SaveActsAlike(a: Fleet, b: Fleet, saved: Id, server: Server)
    requires SameForOthers(a, b)
    ensures SameForOthers(AfterEvent(a, Saved(saved, server)), AfterEvent(b, Saved(saved, server)))
  {
    if Savable(a, saved, server) {
      var a', b' := Placed(a.servers, saved, server), Placed(b.servers, saved, server);
      forall id | id in a' && id != saved ensures SameUntemplated(a'[id], b'[id]) {
        assert SameUntemplated(a.servers[id], b.servers[id]);
      }
      assert SameUntemplated(server, server);
    }
  }

  lemma EventActsAlike(a: Fleet, b: Fleet, e: ServerEvent)
    requires SameForOthers(a, b)
    ensures SameForOthers(AfterEvent(a, e), AfterEvent(b, e))
  {
    match e
    case ServersRemoved(ids) => RemovalActsAlike(a, b, ids);
    case ProfileRemoved(p) => ProfileRemovalActsAlike(a, b, p);
    case Edited(_, _, _, _) => EditActsAlike(a, b, e);
    case Saved(saved, server) => SaveActsAlike(a, b, saved, server);
  }

  lemma {:induction false} RunsActAlike(a: Fleet, b: Fleet, run: seq<Op>)
    requires SameForOthers(a, b)
    ensures SameForOthers(Exec(a, run), Exec(b, OthersOnly(run)))
    decreases |run|
  {
    if run == [] {
    } else if run[0].Perform? {
      WriteInvisibleToOthers(a, b, run[0].write);
      RunsActAlike(After(a, run[0]), b, run[1..]);
      assert OthersOnly(run) == OthersOnly(run[1..]);
    } else {
      EventActsAlike(a, b, run[0].event);
      RunsActAlike(After(a, run[0]), After(b, run[0]), run[1..]);
      assert OthersOnly(run)[1..] == OthersOnly(run[1..]);
    }
  }

  /** One field alike: its value and its stamp in the origin and in the marker. */
  predicate SameAt(a: Server, b: Server, f: Field) {
    FieldOf(a, f) == FieldOf(b, f) && OriginStamp(a, f) == OriginStamp(b, f) && MarkerStamp(a, f) == MarkerStamp(b, f)
  }

  ghost predicate SameFieldOf(a: Fleet, b: Fleet, id: Id, f: Field) {
    id in a.servers && id in b.servers ==> SameAt(a.servers[id], b.servers[id], f)
  }

  /** Some write of the run sets this field of this server. */
  predicate Touches(run: seq<Op>, id: Id, f: Field) {
    exists i :: 0 <= i < |run| && run[i].Perform? && run[i].write.serverId == id && Sets(run[i].write, f)
  }

  ghost predicate AllPlanned(run: seq<Op>) {
    forall op | op in run && op.Perform? :: Planned(op.write)
  }

  /** A link swept for the same reason on two records alike in it leaves them alike in it. */
  lemma SweepsFieldAlike(a: Server, b: Server, lostA: set<Link>, lostB: set<Link>, f: Field)
    requires SameUntemplated(a, b) && SameAt(a, b, f)
    requires f.LinkField? ==> (f.link in lostA <==> f.link in lostB)
    ensures SameAt(WithoutLinks(a, lostA), WithoutLinks(b, lostB), f)
  {
  }

  lemma RemovalKeepsField(a: Fleet, b: Fleet, ids: set<Id>, id: Id, f: Field)
    requires SameForOthers(a, b) && SameFieldOf(a, b, id, f)
    ensures SameFieldOf(AfterEvent(a, ServersRemoved(ids)), AfterEvent(b, ServersRemoved(ids)), id, f)
  {
    if id in a.servers && id !in ids {
      var x, y := a.servers[id], b.servers[id];
      if f.LinkField? {
        assert f.link in LinksToServers(x, ids) <==> f.link in LinksToServers(y, ids);
      }
      SweepsFieldAlike(x, y, LinksToServers(x, ids), LinksToServers(y, ids), f);
    }
  }

  lemma ProfileRemovalKeepsField(a: Fleet, b: Fleet, p: Id, id: Id, f: Field)
    requires SameForOthers(a, b) && SameFieldOf(a, b, id, f)
    ensures SameFieldOf(AfterEvent(a, ProfileRemoved(p)), AfterEvent(b, ProfileRemoved(p)), id, f)
  {
    if id in a.servers {
      var x, y := a.servers[id], b.servers[id];
      if f.LinkField? {
        assert f.link in LinksToProfile(x, p) <==> f.link in LinksToProfile(y, p);
      }
      SweepsFieldAlike(x, y, LinksToProfile(x, p), LinksToProfile(y, p), f);
    }
  }

  lemma EditKeepsField(a: Fleet, b: Fleet, e: ServerEvent, id: Id, f: Field)
    requires e.Edited? && a.servers.Keys == b.servers.Keys && SameFieldOf(a, b, id, f)
    ensures SameFieldOf(AfterEvent(a, e), AfterEvent(b, e), id, f)
  {
  }

  lemma SaveKeepsField(a: Fleet, b: Fleet, saved: Id, server: Server, id: Id, f: Field)
    requires a.profiles == b.profiles && a.servers.Keys == b.servers.Keys && SameFieldOf(a, b, id, f)
    ensures SameFieldOf(AfterEvent(a, Saved(saved, server)), AfterEvent(b, Saved(saved, server)), id, f)
  {
    if id in a.servers && id != saved {
      assert SameAt(Quiet(a.servers[id]), Quiet(b.servers[id]), f);
    }
  }

  lemma EventKeepsField(a: Fleet, b: Fleet, e: ServerEvent, id: Id, f: Field)
    requires SameForOthers(a, b) && SameFieldOf(a, b, id, f)
    ensures SameFieldOf(AfterEvent(a, e), AfterEvent(b, e), id, f)
  {
    match e
    case ServersRemoved(ids) => RemovalKeepsField(a, b, ids, id, f);
    case ProfileRemoved(p) => ProfileRemovalKeepsField(a, b, p, id, f);
    case Edited(_, _, _, _) => EditKeepsField(a, b, e, id, f);
    case Saved(saved, server) => SaveKeepsField(a, b, saved, server, id, f);
  }

  /** A field the run does not set, and its stamps, end as the other commands alone leave them. */
  lemma {:induction false} UntouchedFieldKept(a: Fleet, b: Fleet, run: seq<Op>, id: Id, f: Field)
    requires SameForOthers(a, b) && SameFieldOf(a, b, id, f) && AllPlanned(run) && !Touches(run, id, f)
    ensures SameFieldOf(Exec(a, run), Exec(b, OthersOnly(run)), id, f)
    decreases |run|
  {
    if run != [] {
      assert forall i :: 0 <= i < |run[1..]| ==> run[1..][i] == run[i + 1];
      if run[0].Perform? {
        var w := run[0].write;
        WriteInvisibleToOthers(a, b, w);
        if w.serverId in a.servers {
          WriteTakesOverExactlyItsFields(a, w, f);
        }
        UntouchedFieldKept(After(a, run[0]), b, run[1..], id, f);
        assert OthersOnly(run) == OthersOnly(run[1..]);
      } else {
        EventActsAlike(a, b, run[0].event);
        EventKeepsField(a, b, run[0].event, id, f);
        UntouchedFieldKept(After(a, run[0]), After(b, run[0]), run[1..], id, f);
        assert OthersOnly(run)[1..] == OthersOnly(run[1..]);
      }
    }
  }

  /**
   A run leaves the servers, all that is not templated, and every field and stamp it does not
   set exactly as the other commands alone would have left them: nothing is reverted, revived
   or lost.
   */
  lemma OtherWritersKeepTheirWork(fleet: Fleet, run: seq<Op>)
    requires AllPlanned(run)
    ensures SameForOthers(Exec(fleet, run), Exec(fleet, OthersOnly(run)))
    ensures forall id, f | !Touches(run, id, f) :: SameFieldOf(Exec(fleet, run), Exec(fleet, OthersOnly(run)), id, f)
  {
    RunsActAlike(fleet, fleet, run);
    forall id, f | !Touches(run, id, f) ensures SameFieldOf(Exec(fleet, run), Exec(fleet, OthersOnly(run)), id, f) {
      UntouchedFieldKept(fleet, fleet, run, id, f);
    }
  }

  /**
   However deletions, edits and whole-record saves fall between the writes, at every yield no
   SSH, IPMI or gateway link dangles, and the servers there are those the other commands alone
   would have left: none that was removed is back.
   */
  lemma {:induction false} NoLinkDanglesAtAnyYield(fleet: Fleet, run: seq<Op>)
    requires NoDangling(fleet)
    ensures NoDangling(Exec(fleet, run))
    ensures Exec(fleet, run).servers.Keys == Exec(fleet, OthersOnly(run)).servers.Keys
    decreases |run|
  {
    RunsActAlike(fleet, fleet, run);
    if run != [] {
      StepKeepsLinks(fleet, run[0]);
      NoLinkDanglesAtAnyYield(After(fleet, run[0]), run[1..]);
    }
  }

  // ---- the loop -----------------------------------------------------------------------

  function Events(es: seq<ServerEvent>): seq<Op> {
    seq(|es|, i requires 0 <= i < |es| => Interleave(es[i]))
  }

  /**
   The run the loop performs from write `k` on: after each write that lands its save is
   awaited, and the events of that wait happen. The save of write `failing` rejects, which
   ends the loop with the record already changed in memory.
   */
  function LoopRun(fleet: Fleet, plan: seq<Write>, waits: seq<seq<ServerEvent>>, failing: Option<nat>, k: nat): seq<Op>
    requires |waits| == |plan| && k <= |plan|
    decreases |plan| - k
  {
    if k == |plan| then []
    else
      var turn := Turn(fleet, plan[k], waits[k]);
      if Lands(fleet, plan[k]) && failing == Some(k) then turn
      else turn + LoopRun(Exec(fleet, turn), plan, waits, failing, k + 1)
  }

  /** One turn: only a write that lands waits for its save. */
  function Turn(fleet: Fleet, write: Write, wait: seq<ServerEvent>): seq<Op> {
    [Perform(write)] + if Lands(fleet, write) then Events(wait) else []
  }

  /** The planner gives every server one write. */
  ghost predicate OneWriteEach(plan: seq<Write>) {
    forall i, j :: 0 <= i < j < |plan| ==> plan[i].serverId != plan[j].serverId
  }

  function Targets(run: seq<Op>): set<Id> {
    set op | op in run && op.Perform? :: op.write.serverId
  }

  function PlanIds(plan: seq<Write>, k: nat): set<Id>
    requires k <= |plan|
  {
    set j | k <= j < |plan| :: plan[j].serverId
  }

  lemma DistinctTargetsJoin(a: seq<Op>, b: seq<Op>)
    requires DistinctTargets(a) && DistinctTargets(b) && Targets(a) !! Targets(b)
    ensures DistinctTargets(a + b) && Targets(a + b) == Targets(a) + Targets(b)
  {
    var ab := a + b;
    forall i, j | 0 <= i < j < |ab| && ab[i].Perform? && ab[j].Perform?
      ensures ab[i].write.serverId != ab[j].write.serverId
    {
      if i < |a| <= j {
        assert a[i] in a && b[j - |a|] in b;
        assert ab[i].write.serverId in Targets(a) && ab[j].write.serverId in Targets(b);
      }
    }
  }

  lemma TurnTargets(fleet: Fleet, write: Write, wait: seq<ServerEvent>)
    ensures DistinctTargets(Turn(fleet, write, wait)) && Targets(Turn(fleet, write, wait)) == {write.serverId}
  {
    var turn := Turn(fleet, write, wait);
    assert turn[0] == Perform(write);
    assert forall i | 0 < i < |turn| :: turn[i].Interleave?;
    assert forall op | op in turn && op.Perform? :: op == turn[0];
  }

  lemma LaterTargets(plan: seq<Write>, k: nat)
    requires k < |plan| && OneWriteEach(plan)
    ensures plan[k].serverId !in PlanIds(plan, k + 1) && PlanIds(plan, k) == {plan[k].serverId} + PlanIds(plan, k + 1)
  {
  }

  lemma {:induction false} LoopRunTargets(fleet: Fleet, plan: seq<Write>, waits: seq<seq<ServerEvent>>, failing: Option<nat>, k: nat)
    requires |waits| == |plan| && k <= |plan| && OneWriteEach(plan)
    ensures DistinctTargets(LoopRun(fleet, plan, waits, failing, k))
    ensures Targets(LoopRun(fleet, plan, waits, failing, k)) <= PlanIds(plan, k)
    decreases |plan| - k
  {
    if k < |plan| {
      var turn := Turn(fleet, plan[k], waits[k]);
      TurnTargets(fleet, plan[k], waits[k]);
      LaterTargets(plan, k);
      if !(Lands(fleet, plan[k]) && failing == Some(k)) {
        var rest := LoopRun(Exec(fleet, turn), plan, waits, failing, k + 1);
        LoopRunTargets(Exec(fleet, turn), plan, waits, failing, k + 1);
        assert Targets(turn) !! Targets(rest);
        DistinctTargetsJoin(turn, rest);
        assert LoopRun(fleet, plan, waits, failing, k) == turn + rest;
      }
    }
  }

  /**
   The number the command reports: as many as there are distinct servers it wrote, whatever
   else ran meanwhile.
   */
  lemma ReportedCountIsServersWritten(fleet: Fleet, plan: seq<Write>, waits: seq<seq<ServerEvent>>, failing: Option<nat>)
    requires |waits| == |plan| && OneWriteEach(plan)
    ensures var run := LoopRun(fleet, plan, waits, failing, 0);
            Landed(fleet, run) == |LandedIds(fleet, run)|
  {
    LoopRunTargets(fleet, plan, waits, failing, 0);
    CountIsServersWritten(fleet, LoopRun(fleet, plan, waits, failing, 0));
  }

  /** The part of the core this command works on. */
  function View(core: NexusCore): Fleet
    reads core
  {
    Fleet(core.servers, core.profiles.Keys)
  }

  method Interfere(core: NexusCore, events: seq<ServerEvent>)
    requires core.Valid()
    modifies core
    ensures core.Valid() && View(core) == Exec(old(View(core)), Events(events))
  {
    var k := 0;
    while k < |events|
      invariant 0 <= k <= |events| && core.Valid()
      invariant View(core) == Exec(old(View(core)), Events(events[..k]))
    {
      label before:
      if !events[k].Saved? || Savable(View(core), events[k].id, events[k].server) {
        core.Perform(events[k]);
      }
      assert View(core) == After(old@before(View(core)), Interleave(events[k]));
      assert Events(events[..k + 1]) == Events(events[..k]) + [Interleave(events[k])];
      ExecSplits(old(View(core)), Events(events[..k]), [Interleave(events[k])]);
      k := k + 1;
    }
    assert events[..k] == events;
  }

  /** Passing over a field that is not the one. */
  lemma DropPasses(fields: seq<Field>, i: nat, f: Field)
    requires i < |fields| && fields[i] != f
    ensures fields[..i] + DropFirst(fields[i..], f) == fields[..i + 1] + DropFirst(fields[i + 1..], f)
  {
    assert fields[i..][1..] == fields[i + 1..];
    assert fields[..i + 1] == fields[..i] + [fields[i]];
  }

  /** `indexOf` and `splice` on the mutable copy of the written fields. */
  method DropWritten(fields: seq<Field>, f: Field) returns (r: seq<Field>)
    ensures r == DropFirst(fields, f)
  {
    var i := 0;
    while i < |fields| && fields[i] != f
      invariant 0 <= i <= |fields|
      invariant DropFirst(fields, f) == fields[..i] + DropFirst(fields[i..], f)
    {
      DropPasses(fields, i, f);
      i := i + 1;
    }
    assert i < |fields| ==> fields[i..][1..] == fields[i + 1..];
    r := if i < |fields| then fields[..i] + fields[i + 1..] else fields;
  }

  /** One reference of a write, re-resolved: set on `next`, or dropped from the written fields. */
  method ResolveLink(core: NexusCore, write: Write, l: Link, links: map<Link, Id>, fields: seq<Field>)
    returns (links': map<Link, Id>, fields': seq<Field>)
    ensures links' == SetLink(View(core), write, l, links)
    ensures fields' == KeepLink(View(core), write, l, fields)
  {
    links', fields' := links, fields;
    if l in write.links {
      var resolves := if l == Gateway then write.links[l] in core.servers else write.links[l] in core.profiles;
      if resolves {
        links' := links[l := write.links[l]];
      } else {
        fields' := DropWritten(fields, LinkField(l));
      }
    }
  }

  function SetFlag(write: Write, f: Flag, flags: map<Flag, bool>): map<Flag, bool> {
    if f in write.flags then flags[f := write.flags[f]] else flags
  }

  lemma FlagByFlag(write: Write, flags: map<Flag, bool>)
    ensures SetFlag(write, LogSession, SetFlag(write, LegacyAlgorithms, SetFlag(write, Multiplexing, flags)))
            == flags + write.flags
  {
    var set1 := SetFlag(write, LogSession, SetFlag(write, LegacyAlgorithms, SetFlag(write, Multiplexing, flags)));
    forall f: Flag ensures f in set1 <==> f in flags + write.flags {
      match f case Multiplexing => case LegacyAlgorithms => case LogSession =>
    }
    forall f: Flag | f in set1 ensures set1[f] == (flags + write.flags)[f] {
      match f case Multiplexing => case LegacyAlgorithms => case LogSession =>
    }
  }

  function SetLink(fleet: Fleet, write: Write, l: Link, links: map<Link, Id>): map<Link, Id> {
    if l in write.links && StillResolves(fleet, write, l) then links[l := write.links[l]] else links
  }

  lemma LinkByLink(fleet: Fleet, write: Write, links: map<Link, Id>)
    ensures SetLink(fleet, write, Gateway, SetLink(fleet, write, IpmiAuth, SetLink(fleet, write, Auth, links)))
            == links + (map l | l in write.links && StillResolves(fleet, write, l) :: write.links[l])
  {
    var set1 := SetLink(fleet, write, Gateway, SetLink(fleet, write, IpmiAuth, SetLink(fleet, write, Auth, links)));
    var merged := links + (map l | l in write.links && StillResolves(fleet, write, l) :: write.links[l]);
    forall l: Link ensures l in set1 <==> l in merged {
      match l case Auth => case IpmiAuth => case Gateway =>
    }
    forall l: Link | l in set1 ensures set1[l] == merged[l] {
      match l case Auth => case IpmiAuth => case Gateway =>
    }
  }

  /** One turn of the loop up to the save: builds `next` from the live record. */
  method PrepareWrite(core: NexusCore, write: Write, live: Server) returns (next: Server, writtenFields: seq<Field>)
    ensures writtenFields == Kept(View(core), write)
    ensures next == WrittenRecord(View(core), live, write)
  {
    var proxy := live.proxy;
    if write.proxy.Some? {
      proxy := write.proxy;
    }
    var flags := SetFlag(write, Multiplexing, live.flags);
    flags := SetFlag(write, LegacyAlgorithms, flags);
    flags := SetFlag(write, LogSession, flags);
    var links := live.links;
    links, writtenFields := ResolveLink(core, write, Auth, links, write.writtenFields);
    links, writtenFields := ResolveLink(core, write, IpmiAuth, links, writtenFields);
    links, writtenFields := ResolveLink(core, write, Gateway, links, writtenFields);
    FlagByFlag(write, live.flags);
    LinkByLink(View(core), write, live.links);
    next := live.(
      proxy := proxy, flags := flags, links := links,
      origin := ClearOrigin(live.origin, writtenFields),
      formerlySynced := ClearMarker(live.formerlySynced, writtenFields));
  }

  /** One turn of the loop: write when something survives, then wait for the save. */
  method WriteAndWait(core: NexusCore, write: Write, wait: seq<ServerEvent>) returns (landed: bool)
    requires core.Valid()
    modifies core
    ensures core.Valid() && landed == Lands(old(View(core)), write)
    ensures View(core) == Exec(old(View(core)), Turn(old(View(core)), write, wait))
  {
    landed := false;
    if write.serverId in core.servers {
      var next, writtenFields := PrepareWrite(core, write, core.servers[write.serverId]);
      if writtenFields != [] {
        PlacedAlone(core.servers, write.serverId, next);
        core.AddOrUpdateServer(write.serverId, next);
        assert View(core) == AfterWrite(old(View(core)), write);
        Interfere(core, wait);
        landed := true;
        assert ([Perform(write)] + Events(wait))[1..] == Events(wait);
      }
    }
  }

  /** `applyPlanWrites`; `None` when a save rejected. */
  method ApplyPlanWrites(core: NexusCore, plan: seq<Write>, waits: seq<seq<ServerEvent>>, failing: Option<nat>)
    returns (applied: Option<nat>)
    requires |waits| == |plan| && core.Valid()
    modifies core
    ensures core.Valid()
    ensures var run := LoopRun(old(View(core)), plan, waits, failing, 0);
            && View(core) == Exec(old(View(core)), run)
            && (applied.Some? ==> applied.value == Landed(old(View(core)), run))
    ensures failing.None? ==> applied.Some?
  {
    ghost var start := View(core);
    ghost var run := LoopRun(start, plan, waits, failing, 0);
    var count := 0;
    var k := 0;
    while k < |plan|
      invariant 0 <= k <= |plan| && core.Valid()
      invariant Exec(start, run) == Exec(View(core), LoopRun(View(core), plan, waits, failing, k))
      invariant Landed(start, run) == count + Landed(View(core), LoopRun(View(core), plan, waits, failing, k))
    {
      LoopTurn(View(core), plan, waits, failing, k);
      var landed := WriteAndWait(core, plan[k], waits[k]);
      if landed && failing == Some(k) {
        return None;
      }
      count := count + if landed then 1 else 0;
      k := k + 1;
    }
    applied := Some(count);
  }

  /** What one turn contributes to the rest of the run. */
  lemma LoopTurn(here: Fleet, plan: seq<Write>, waits: seq<seq<ServerEvent>>, failing: Option<nat>, k: nat)
    requires |waits| == |plan| && k < |plan|
    ensures
      var turn, all := Turn(here, plan[k], waits[k]), LoopRun(here, plan, waits, failing, k);
      if Lands(here, plan[k]) && failing == Some(k) then all == turn
      else
        var next := Exec(here, turn);
        var rest := LoopRun(next, plan, waits, failing, k + 1);
        && Exec(here, all) == Exec(next, rest)
        && Landed(here, all) == (if Lands(here, plan[k]) then 1 else 0) + Landed(next, rest)
  {
    var turn := Turn(here, plan[k], waits[k]);
    if !(Lands(here, plan[k]) && failing == Some(k)) {
      ExecSplits(here, turn, LoopRun(Exec(here, turn), plan, waits, failing, k + 1));
      TurnCount(here, plan[k], waits[k]);
    }
  }

  lemma TurnCount(fleet: Fleet, write: Write, wait: seq<ServerEvent>)
    ensures Landed(fleet, Turn(fleet, write, wait)) == if Lands(fleet, write) then 1 else 0
  {
    assert ([Perform(write)] + Events(wait))[1..] == Events(wait);
    NoWriteLandsAmongEvents(AfterWrite(fleet, write), wait);
  }

  lemma {:induction false} NoWriteLandsAmongEvents(fleet: Fleet, es: seq<ServerEvent>)
    ensures Landed(fleet, Events(es)) == 0
    decreases |es|
  {
    if es != [] {
      assert Events(es)[1..] == Events(es[1..]);
      NoWriteLandsAmongEvents(AfterEvent(fleet, es[0]), es[1..]);
    }
  }

  // ---- what a run gets done -----------------------------------------------------------

  /** The writes of a run, in order. */
  function WritesIn(run: seq<Op>): seq<Write> {
    if run == [] then [] else (if run[0].Perform? then [run[0].write] else []) + WritesIn(run[1..])
  }

  lemma {:induction false} WritesJoin(a: seq<Op>, b: seq<Op>)
    ensures WritesIn(a + b) == WritesIn(a) + WritesIn(b)
    decreases |a|
  {
    if a == [] {
      assert a + b == b;
    } else {
      assert (a + b)[0] == a[0] && (a + b)[1..] == a[1..] + b;
      WritesJoin(a[1..], b);
    }
  }

  lemma {:induction false} NoWritesAmongEvents(es: seq<ServerEvent>)
    ensures WritesIn(Events(es)) == []
    decreases |es|
  {
    if es != [] {
      assert Events(es)[1..] == Events(es[1..]);
      NoWritesAmongEvents(es[1..]);
    }
  }

  lemma TurnWrites(fleet: Fleet, write: Write, wait: seq<ServerEvent>)
    ensures WritesIn(Turn(fleet, write, wait)) == [write]
  {
    var later := if Lands(fleet, write) then Events(wait) else [];
    WritesJoin([Perform(write)], later);
    NoWritesAmongEvents(wait);
    assert WritesIn([Perform(write)]) == [write] + WritesIn([]);
  }

  /** The loop gets through the plan in its order, and ends before its last write only after the one whose save rejects. */
  lemma {:induction false} EveryWriteHasItsTurn(fleet: Fleet, plan: seq<Write>, waits: seq<seq<ServerEvent>>, failing: Option<nat>, k: nat)
    requires |waits| == |plan| && k <= |plan|
    ensures
      exists n: nat :: k <= n <= |plan| && WritesIn(LoopRun(fleet, plan, waits, failing, k)) == plan[k..n]
        && (n < |plan| ==> failing.Some? && failing.value + 1 == n)
    decreases |plan| - k
  {
    if k < |plan| {
      var turn := Turn(fleet, plan[k], waits[k]);
      TurnWrites(fleet, plan[k], waits[k]);
      if Lands(fleet, plan[k]) && failing == Some(k) {
        assert plan[k..k + 1] == [plan[k]];
      } else {
        var rest := LoopRun(Exec(fleet, turn), plan, waits, failing, k + 1);
        EveryWriteHasItsTurn(Exec(fleet, turn), plan, waits, failing, k + 1);
        var n: nat :| k + 1 <= n <= |plan| && WritesIn(rest) == plan[k + 1..n] && (n < |plan| ==> failing.Some? && failing.value + 1 == n);
        WritesJoin(turn, rest);
        assert plan[k..n] == [plan[k]] + plan[k + 1..n];
      }
    } else {
      assert plan[k..k] == [];
    }
  }

  /** A write lands exactly when its server is there and some field it sets may be persisted. */
  lemma LandsExactly(fleet: Fleet, w: Write)
    requires Planned(w)
    ensures Lands(fleet, w) <==> w.serverId in fleet.servers && exists f :: Persists(fleet, w, f)
  {
    KeptIsWhatPersists(fleet, w);
    if Kept(fleet, w) != [] {
      assert Kept(fleet, w)[0] in Kept(fleet, w);
    }
  }

  /** A record is written from itself and from which ids there are. */
  lemma WrittenAlike(a: Fleet, b: Fleet, w: Write)
    requires a.profiles == b.profiles && a.servers.Keys == b.servers.Keys
    ensures (Lands(a, w) <==> Lands(b, w)) && forall live :: WrittenRecord(a, live, w) == WrittenRecord(b, live, w)
  {
    assert forall l :: StillResolves(a, w, l) <==> StillResolves(b, w, l);
    assert Kept(a, w) == Kept(b, w);
  }

  /** Each planned server is what its write makes of what it was, and a server without a write is as it was. */
  ghost predicate PlanWritten(fleet: Fleet, after: Fleet, plan: seq<Write>, k: nat, id: Id)
    requires id in fleet.servers
  {
    && id in after.servers
    && (forall i | k <= i < |plan| && plan[i].serverId == id ::
          after.servers[id] == if Lands(fleet, plan[i]) then WrittenRecord(fleet, fleet.servers[id], plan[i]) else fleet.servers[id])
    && ((forall i | k <= i < |plan| :: plan[i].serverId != id) ==> after.servers[id] == fleet.servers[id])
  }

  lemma WriteFirst(fleet: Fleet, after: Fleet, plan: seq<Write>, k: nat, id: Id)
    requires k < |plan| && OneWriteEach(plan) && id in fleet.servers
    requires PlanWritten(AfterWrite(fleet, plan[k]), after, plan, k + 1, id)
    ensures PlanWritten(fleet, after, plan, k, id)
  {
    var next := AfterWrite(fleet, plan[k]);
    forall i | k <= i < |plan| && plan[i].serverId == id
      ensures after.servers[id] == if Lands(fleet, plan[i]) then WrittenRecord(fleet, fleet.servers[id], plan[i]) else fleet.servers[id]
    {
      if i > k {
        assert plan[k].serverId != id && next.servers[id] == fleet.servers[id];
        WrittenAlike(next, fleet, plan[i]);
      }
    }
  }

  lemma QuietTurn(fleet: Fleet, w: Write)
    ensures Exec(fleet, Turn(fleet, w, [])) == AfterWrite(fleet, w)
  {
    assert Events([]) == [] && Turn(fleet, w, []) == [Perform(w)] && [Perform(w)][1..] == [];
    assert Exec(AfterWrite(fleet, w), []) == AfterWrite(fleet, w);
  }

  /** With no other command and no rejected save, every planned server ends with what its write makes of it, and no other changes. */
  lemma {:induction false} UndisturbedRunWritesThePlan(fleet: Fleet, plan: seq<Write>, waits: seq<seq<ServerEvent>>, k: nat, id: Id)
    requires |waits| == |plan| && k <= |plan| && OneWriteEach(plan) && forall i | 0 <= i < |waits| :: waits[i] == []
    ensures
      var after := Exec(fleet, LoopRun(fleet, plan, waits, None, k));
      && after.profiles == fleet.profiles && after.servers.Keys == fleet.servers.Keys
      && (id in fleet.servers ==> PlanWritten(fleet, after, plan, k, id))
    decreases |plan| - k
  {
    if k < |plan| {
      var next := AfterWrite(fleet, plan[k]);
      assert waits[k] == [];
      QuietTurn(fleet, plan[k]);
      UndisturbedRunWritesThePlan(next, plan, waits, k + 1, id);
      ExecSplits(fleet, Turn(fleet, plan[k], []), LoopRun(next, plan, waits, None, k + 1));
      if id in fleet.servers {
        WriteFirst(fleet, Exec(next, LoopRun(next, plan, waits, None, k + 1)), plan, k, id);
      }
    }
  }
}
