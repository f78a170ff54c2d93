/**
 Linking an auth profile to a folder: what the user agreed to is checked again under the lock,
 and then exactly that is written, one field per live record.
 */
module AuthApply {
  import opened Core
  import opened FolderPaths
  import opened Records

  /** The part of the core the command reads and writes; profiles by name. */
  datatype Desk = Desk(servers: map<Id, Server>, profiles: map<Id, string>)

  /** What other commands may do. */
  datatype Event = OnServers(change: ServerEvent) | ProfileRenamed(profileId: Id, name: string)

  /** Profiles are neither removed nor renamed while the lock is held. */
  predicate LockFree(e: Event) {
    e.OnServers? && !e.change.ProfileRemoved?
  }

  /** A form saves the record as a whole. */
  predicate SavesWhole(e: Event) {
    e.OnServers? && e.change.Saved?
  }

  function AfterEvent(d: Desk, e: Event): Desk {
    match e
    case OnServers(change) =>
      Desk(ServersAfter(d.servers, change), if change.ProfileRemoved? then d.profiles - {change.profileId} else d.profiles)
    case ProfileRenamed(p, name) => if p in d.profiles then d.(profiles := d.profiles[p := name]) else d
  }

  function Others(d: Desk, events: seq<Event>): Desk
    decreases |events|
  {
    if events == [] then d else Others(AfterEvent(d, events[0]), events[1..])
  }

  // ---- what the user is shown ---------------------------------------------------------

  /** `serversInFolder`, subfolders included. */
  function Members(d: Desk, folder: string): set<Id> {
    set id | id in d.servers && d.servers[id].group.Some? && d.servers[id].group.value != ""
      && IsDescendantOrSelf(d.servers[id].group.value, folder)
  }

  function CountPhrase(show: nat -> string, count: nat): string {
    if count == 1 then "1 server" else show(count) + " servers"
  }

  /** What the confirmation says after the profile's name. */
  function AfterName(show: nat -> string, count: nat, folder: string): string {
    "\" to " + CountPhrase(show, count) + " in \"" + folder + "\"?\nThis links "
    + (if count == 1 then "its credentials" else "their credentials") + " to the auth profile."
  }

  /** `applyToFolderDisclosure`. */
  function Disclosure(show: nat -> string, name: string, count: nat, folder: string): string {
    "Link \"" + name + AfterName(show, count, folder)
  }

  lemma SameBetween(before: string, x: string, y: string, after: string)
    requires before + x + after == before + y + after
    ensures x == y
  {
    var s := before + x + after;
    assert |x| == |y|;
    assert x == s[|before|..|before| + |x|] && y == s[|before|..|before| + |y|];
  }

  /** For one folder and one count, the text tells the profile's name. */
  lemma DisclosureTellsName(show: nat -> string, x: string, y: string, count: nat, folder: string)
    requires Disclosure(show, x, count, folder) == Disclosure(show, y, count, folder)
    ensures x == y
  {
    SameBetween("Link \"", x, y, AfterName(show, count, folder));
  }

  // ---- the write ----------------------------------------------------------------------

  /** One turn of the loop: the live record, with the one field set. */
  function Link(d: Desk, id: Id, profileId: Id): Desk {
    if id in d.servers then d.(servers := d.servers[id := d.servers[id].(links := d.servers[id].links[Auth := profileId])]) else d
  }

  predicate Writes(d: Desk, id: Id, profileId: Id) {
    id in d.servers && !(Auth in d.servers[id].links && d.servers[id].links[Auth] == profileId)
  }

  /** What happens while the save of write `k` is awaited; a server skipped is not saved. */
  function Wait(d: Desk, id: Id, profileId: Id, wait: seq<Event>): seq<Event> {
    if Writes(d, id, profileId) then wait else []
  }

  /** `linkProfileToServers` from server `k` on; the save of write `failing` rejects. */
  function LinkAll(d: Desk, ids: seq<Id>, profileId: Id, waits: seq<seq<Event>>, failing: Option<nat>, k: nat): Desk
    requires |waits| == |ids| && k <= |ids|
    decreases |ids| - k
  {
    if k == |ids| then d
    else
      var next := Others(Link(d, ids[k], profileId), Wait(d, ids[k], profileId, waits[k]));
      if Writes(d, ids[k], profileId) && failing == Some(k) then next
      else LinkAll(next, ids, profileId, waits, failing, k + 1)
  }

  /** The events of the same run, without the command's own writes. */
  function Meanwhile(d: Desk, ids: seq<Id>, profileId: Id, waits: seq<seq<Event>>, failing: Option<nat>, k: nat): seq<Event>
    requires |waits| == |ids| && k <= |ids|
    decreases |ids| - k
  {
    if k == |ids| then []
    else
      var wait := Wait(d, ids[k], profileId, waits[k]);
      if Writes(d, ids[k], profileId) && failing == Some(k) then wait
      else wait + Meanwhile(Others(Link(d, ids[k], profileId), wait), ids, profileId, waits, failing, k + 1)
  }

  /** How many servers the loop got through. */
  function Reached(d: Desk, ids: seq<Id>, profileId: Id, waits: seq<seq<Event>>, failing: Option<nat>, k: nat): (r: nat)
    requires |waits| == |ids| && k <= |ids|
    ensures k <= r <= |ids| && (failing.None? ==> r == |ids|)
    decreases |ids| - k
  {
    if k == |ids| then k
    else if Writes(d, ids[k], profileId) && failing == Some(k) then k + 1
    else Reached(Others(Link(d, ids[k], profileId), Wait(d, ids[k], profileId, waits[k])), ids, profileId, waits, failing, k + 1)
  }

  /** One desk is the other, with the profile linked on the servers done so far. */
  ghost predicate LinkedOn(a: Desk, b: Desk, done: set<Id>, profileId: Id) {
    && a.profiles == b.profiles && a.servers.Keys == b.servers.Keys
    && forall id | id in a.servers ::
         a.servers[id] == if id in done then b.servers[id].(links := b.servers[id].links[Auth := profileId]) else b.servers[id]
  }

  lemma SweepCommutes(server: Server, profileId: Id, deleted: set<Id>)
    ensures var linked := server.(links := server.links[Auth := profileId]);
            var swept := WithoutServers(server, deleted);
            WithoutServers(linked, deleted) == swept.(links := swept.links[Auth := profileId])
  {
    var linked := server.(links := server.links[Auth := profileId]);
    var lost := LinksToServers(server, deleted);
    assert LinksToServers(linked, deleted) == lost;
    assert linked.links - lost == (server.links - lost)[Auth := profileId];
    if server.origin.Present? {
      assert Unstamp(server.origin.value.stamps, linked.links, lost) == Unstamp(server.origin.value.stamps, server.links, lost);
    }
    if server.formerlySynced.Present? {
      assert Unstamp(server.formerlySynced.value.stamps, linked.links, lost) == Unstamp(server.formerlySynced.value.stamps, server.links, lost);
    }
  }

  /** A server another command writes as a whole is no longer this one's doing. */
  function Unheld(done: set<Id>, e: Event): set<Id> {
    if SavesWhole(e) then done - {e.change.id} else done
  }

  /** The servers done that no event has since written over as a whole. */
  function Still(done: set<Id>, events: seq<Event>): set<Id>
    decreases |events|
  {
    if events == [] then done else Still(Unheld(done, events[0]), events[1..])
  }

  lemma WrittenKeepsLinked(a: Desk, b: Desk, done: set<Id>, profileId: Id, written: Id, server: Server)
    requires LinkedOn(a, b, done, profileId)
    ensures LinkedOn(AfterEvent(a, OnServers(Saved(written, server))), AfterEvent(b, OnServers(Saved(written, server))),
                     done - {written}, profileId)
  {
    var a', b' := Placed(a.servers, written, server), Placed(b.servers, written, server);
    forall id | id in a' && id != written
      ensures a'[id] == if id in done then b'[id].(links := b'[id].links[Auth := profileId]) else b'[id]
    {
    }
  }

  lemma EventKeepsLinked(a: Desk, b: Desk, done: set<Id>, profileId: Id, e: Event)
    requires LinkedOn(a, b, done, profileId) && LockFree(e)
    ensures LinkedOn(AfterEvent(a, e), AfterEvent(b, e), Unheld(done, e), profileId)
  {
    if e.change.ServersRemoved? {
      forall id | id in AfterEvent(a, e).servers
        ensures AfterEvent(a, e).servers[id] ==
          if id in done then AfterEvent(b, e).servers[id].(links := AfterEvent(b, e).servers[id].links[Auth := profileId])
          else AfterEvent(b, e).servers[id]
      {
        SweepCommutes(b.servers[id], profileId, e.change.ids);
      }
    } else if e.change.Saved? {
      WrittenKeepsLinked(a, b, done, profileId, e.change.id, e.change.server);
    }
  }

  lemma {:induction false} EventsKeepLinked(a: Desk, b: Desk, done: set<Id>, profileId: Id, events: seq<Event>)
    requires LinkedOn(a, b, done, profileId) && forall e | e in events :: LockFree(e)
    ensures LinkedOn(Others(a, events), Others(b, events), Still(done, events), profileId)
    decreases |events|
  {
    if events != [] {
      assert events == [events[0]] + events[1..];
      EventKeepsLinked(a, b, done, profileId, events[0]);
      EventsKeepLinked(AfterEvent(a, events[0]), AfterEvent(b, events[0]), Unheld(done, events[0]), profileId, events[1..]);
    }
  }

  lemma {:induction false} OthersSplits(d: Desk, first: seq<Event>, second: seq<Event>)
    ensures Others(d, first + second) == Others(Others(d, first), second)
    decreases |first|
  {
    if first == [] {
      assert first + second == second;
    } else {
      assert (first + second)[1..] == first[1..] + second;
      OthersSplits(AfterEvent(d, first[0]), first[1..], second);
    }
  }

  ghost predicate InLock(waits: seq<seq<Event>>) {
    forall k, e | 0 <= k < |waits| && e in waits[k] :: LockFree(e)
  }

  /** One turn of the loop adds one server to those done. */
  lemma TurnKeepsLinked(a: Desk, b: Desk, done: set<Id>, id: Id, profileId: Id, wait: seq<Event>)
    requires LinkedOn(a, b, done, profileId) && forall e | e in wait :: LockFree(e)
    ensures LinkedOn(Others(Link(a, id, profileId), wait), Others(b, wait), Still(done + {id}, wait), profileId)
  {
    LinkAddsOne(a, b, done, id, profileId);
    EventsKeepLinked(Link(a, id, profileId), b, done + {id}, profileId, wait);
  }

  lemma LinkAddsOne(a: Desk, b: Desk, done: set<Id>, id: Id, profileId: Id)
    requires LinkedOn(a, b, done, profileId)
    ensures LinkedOn(Link(a, id, profileId), b, done + {id}, profileId)
  {
  }

  /** The servers of the loop that nothing has written over since their turn. */
  function Held(d: Desk, ids: seq<Id>, profileId: Id, waits: seq<seq<Event>>, failing: Option<nat>, k: nat, done: set<Id>): set<Id>
    requires |waits| == |ids| && k <= |ids|
    decreases |ids| - k
  {
    if k == |ids| then done
    else
      var wait := Wait(d, ids[k], profileId, waits[k]);
      var held := Still(done + {ids[k]}, wait);
      if Writes(d, ids[k], profileId) && failing == Some(k) then held
      else Held(Others(Link(d, ids[k], profileId), wait), ids, profileId, waits, failing, k + 1, held)
  }

  function IdsBetween(ids: seq<Id>, lo: nat, hi: nat): set<Id>
    requires hi <= |ids|
  {
    set j | lo <= j < hi :: ids[j]
  }

  lemma OneMore(ids: seq<Id>, lo: nat, hi: nat)
    requires lo < hi <= |ids|
    ensures IdsBetween(ids, lo, hi) == {ids[lo]} + IdsBetween(ids, lo + 1, hi)
  {
  }

  predicate WrittenIn(events: seq<Event>, id: Id) {
    exists i :: 0 <= i < |events| && SavesWhole(events[i]) && events[i].change.id == id
  }

  lemma {:induction false} StillAre(done: set<Id>, events: seq<Event>)
    ensures Still(done, events) <= done
    ensures forall id | id in done && id !in Still(done, events) :: WrittenIn(events, id)
    decreases |events|
  {
    if events != [] {
      var next := Unheld(done, events[0]);
      StillAre(next, events[1..]);
      forall id | id in done && id !in Still(done, events) ensures WrittenIn(events, id) {
        if id in next {
          var i :| 0 <= i < |events[1..]| && SavesWhole(events[1..][i]) && events[1..][i].change.id == id;
          assert events[i + 1].change.id == id;
        } else {
          assert events[0].change.id == id;
        }
      }
    }
  }

  lemma WrittenInJoin(first: seq<Event>, second: seq<Event>, id: Id)
    requires WrittenIn(first, id) || WrittenIn(second, id)
    ensures WrittenIn(first + second, id)
  {
    var all := first + second;
    if WrittenIn(first, id) {
      var i :| 0 <= i < |first| && SavesWhole(first[i]) && first[i].change.id == id;
      assert all[i] == first[i];
    } else {
      var i :| 0 <= i < |second| && SavesWhole(second[i]) && second[i].change.id == id;
      assert all[|first| + i] == second[i];
    }
  }

  /** Of the servers the loop got to, only those another command saved meanwhile are not held. */
  lemma {:induction false} HeldAre(d: Desk, ids: seq<Id>, profileId: Id, waits: seq<seq<Event>>, failing: Option<nat>, k: nat, done: set<Id>)
    requires |waits| == |ids| && k <= |ids|
    ensures
      var held, reached := Held(d, ids, profileId, waits, failing, k, done), Reached(d, ids, profileId, waits, failing, k);
      && held <= done + IdsBetween(ids, k, reached)
      && forall id | id in done + IdsBetween(ids, k, reached) && id !in held ::
           WrittenIn(Meanwhile(d, ids, profileId, waits, failing, k), id)
    decreases |ids| - k
  {
    if k < |ids| {
      var wait := Wait(d, ids[k], profileId, waits[k]);
      var now, next := Still(done + {ids[k]}, wait), Others(Link(d, ids[k], profileId), wait);
      StillAre(done + {ids[k]}, wait);
      OneMore(ids, k, Reached(d, ids, profileId, waits, failing, k));
      if Writes(d, ids[k], profileId) && failing == Some(k) {
        assert IdsBetween(ids, k + 1, k + 1) == {};
      } else {
        HeldAre(next, ids, profileId, waits, failing, k + 1, now);
        var later := Meanwhile(next, ids, profileId, waits, failing, k + 1);
        forall id | WrittenIn(wait, id) || WrittenIn(later, id) ensures WrittenIn(wait + later, id) {
          WrittenInJoin(wait, later, id);
        }
      }
    }
  }

  /**
   Whatever runs between its writes, the loop leaves what the other commands alone would have
   left, with the profile linked on the servers it got to, save those another command wrote
   over since, and on no other: no field is reverted, no removed server comes back.
   */
  lemma {:induction false} LoopLinksExactly(a: Desk, b: Desk, done: set<Id>, ids: seq<Id>, profileId: Id,
                                            waits: seq<seq<Event>>, failing: Option<nat>, k: nat)
    requires |waits| == |ids| && k <= |ids| && InLock(waits) && LinkedOn(a, b, done, profileId)
    ensures LinkedOn(LinkAll(a, ids, profileId, waits, failing, k), Others(b, Meanwhile(a, ids, profileId, waits, failing, k)),
                     Held(a, ids, profileId, waits, failing, k, done), profileId)
    decreases |ids| - k
  {
    if k < |ids| {
      var wait := Wait(a, ids[k], profileId, waits[k]);
      var next, held := Others(Link(a, ids[k], profileId), wait), Still(done + {ids[k]}, wait);
      assert forall e | e in wait :: e in waits[k] && LockFree(e);
      TurnKeepsLinked(a, b, done, ids[k], profileId, wait);
      if !(Writes(a, ids[k], profileId) && failing == Some(k)) {
        LoopLinksExactly(next, Others(b, wait), held, ids, profileId, waits, failing, k + 1);
        OthersSplits(b, wait, Meanwhile(next, ids, profileId, waits, failing, k + 1));
      }
    }
  }

  // ---- the command --------------------------------------------------------------------

  datatype Outcome = NothingToDo | Cancelled | Refused | Linked(count: nat) | SaveFailed

  /** One invocation, and everything that happens around it. */
  datatype Call = Call(
    folder: string,
    profileId: Id,
    confirmed: bool,
    before: seq<Event>,
    waits: seq<Id> -> seq<seq<Event>>,
    failing: Option<nat>,
    order: set<Id> -> seq<Id>,
    show: nat -> string)

  /** The store lists every record once. */
  ghost predicate Enumerates(order: set<Id> -> seq<Id>) {
    forall s: set<Id> ::
      (set id | id in order(s)) == s && |order(s)| == |s|
  }

  ghost predicate Sound(call: Call) {
    && Enumerates(call.order)
    && forall ids: seq<Id> :: |call.waits(ids)| == |ids| && InLock(call.waits(ids))
  }

  /** The facts still are what was disclosed. */
  predicate StillAgreed(shown: Desk, now: Desk, call: Call)
    requires call.profileId in shown.profiles
  {
    && call.profileId in now.profiles
    && Members(now, call.folder) == Members(shown, call.folder)
    && Disclosure(call.show, now.profiles[call.profileId], |Members(now, call.folder)|, call.folder)
       == Disclosure(call.show, shown.profiles[call.profileId], |Members(shown, call.folder)|, call.folder)
  }

  function ApplyToFolder(shown: Desk, call: Call): (Outcome, Desk)
    requires Sound(call) && call.profileId in shown.profiles
  {
    if Members(shown, call.folder) == {} then (NothingToDo, shown)
    else
      var now := Others(shown, call.before);
      if !call.confirmed then (Cancelled, now)
      else if !StillAgreed(shown, now, call) then (Refused, now)
      else
        var ids := call.order(Members(now, call.folder));
        var waits := call.waits(ids);
        (if Fails(now, ids, call.profileId, waits, call.failing, 0) then SaveFailed else Linked(|ids|),
         LinkAll(now, ids, call.profileId, waits, call.failing, 0))
  }

  /** The loop ends in a rejected save. */
  predicate Fails(d: Desk, ids: seq<Id>, profileId: Id, waits: seq<seq<Event>>, failing: Option<nat>, k: nat)
    requires |waits| == |ids| && k <= |ids|
    decreases |ids| - k
  {
    k < |ids|
    && ((Writes(d, ids[k], profileId) && failing == Some(k))
        || Fails(Others(Link(d, ids[k], profileId), Wait(d, ids[k], profileId, waits[k])), ids, profileId, waits, failing, k + 1))
  }

  lemma {:induction false} ReachedAllUnlessFailed(d: Desk, ids: seq<Id>, profileId: Id, waits: seq<seq<Event>>, failing: Option<nat>, k: nat)
    requires |waits| == |ids| && k <= |ids| && !Fails(d, ids, profileId, waits, failing, k)
    ensures Reached(d, ids, profileId, waits, failing, k) == |ids|
    decreases |ids| - k
  {
    if k < |ids| {
      ReachedAllUnlessFailed(Others(Link(d, ids[k], profileId), Wait(d, ids[k], profileId, waits[k])), ids, profileId, waits, failing, k + 1);
    }
  }

  /** The servers of the folder the loop got to, and what the other commands did meanwhile. */
  function DoneIds(now: Desk, call: Call): set<Id>
    requires Sound(call)
  {
    var ids := call.order(Members(now, call.folder));
    IdsBetween(ids, 0, Reached(now, ids, call.profileId, call.waits(ids), call.failing, 0))
  }

  /** Those of them that no other command has since saved as a whole. */
  function HeldIds(now: Desk, call: Call): set<Id>
    requires Sound(call)
  {
    var ids := call.order(Members(now, call.folder));
    Held(now, ids, call.profileId, call.waits(ids), call.failing, 0, {})
  }

  function OthersDuring(now: Desk, call: Call): seq<Event>
    requires Sound(call)
  {
    var ids := call.order(Members(now, call.folder));
    Meanwhile(now, ids, call.profileId, call.waits(ids), call.failing, 0)
  }

  /**
   For every interleaving: either the command writes nothing at all, or the folder and the
   profile's name are what the user agreed to and the result is what the other commands alone
   would have left, with the profile linked on exactly the disclosed servers still there. Only
   a rejected save ends it on the way, and only a server another command saved as a whole
   after its turn is as that command left it.
   */
  lemma AppliesAsDisclosedOrNotAtAll(shown: Desk, call: Call)
    requires Sound(call) && call.profileId in shown.profiles
    ensures
      var now := Others(shown, call.before);
      var (outcome, final) := ApplyToFolder(shown, call);
      match outcome
      case NothingToDo => final == shown
      case Cancelled => final == now
      case Refused => final == now
      case Linked(count) =>
        && Members(now, call.folder) == Members(shown, call.folder) && count == |Members(shown, call.folder)|
        && call.profileId in now.profiles && now.profiles[call.profileId] == shown.profiles[call.profileId]
        && LinkedOn(final, Others(now, OthersDuring(now, call)), HeldIds(now, call), call.profileId)
        && HeldIds(now, call) <= Members(shown, call.folder)
        && forall id | id in Members(shown, call.folder) && id !in HeldIds(now, call) :: WrittenIn(OthersDuring(now, call), id)
      case SaveFailed =>
        && Members(now, call.folder) == Members(shown, call.folder)
        && LinkedOn(final, Others(now, OthersDuring(now, call)), HeldIds(now, call), call.profileId)
        && HeldIds(now, call) <= DoneIds(now, call) <= Members(shown, call.folder)
        && forall id | id in DoneIds(now, call) && id !in HeldIds(now, call) :: WrittenIn(OthersDuring(now, call), id)
  {
    var now := Others(shown, call.before);
    var (outcome, final) := ApplyToFolder(shown, call);
    if outcome.Linked? || outcome.SaveFailed? {
      var members := Members(now, call.folder);
      var ids := call.order(members);
      var waits := call.waits(ids);
      DisclosureTellsName(call.show, now.profiles[call.profileId], shown.profiles[call.profileId], |members|, call.folder);
      LoopLinksExactly(now, now, {}, ids, call.profileId, waits, call.failing, 0);
      HeldAre(now, ids, call.profileId, waits, call.failing, 0, {});
      assert {} + DoneIds(now, call) == DoneIds(now, call);
      forall id | id in DoneIds(now, call) ensures id in members {
        assert id in ids;
      }
      if outcome.Linked? {
        ReachedAllUnlessFailed(now, ids, call.profileId, waits, call.failing, 0);
        forall id | id in members ensures id in DoneIds(now, call) {
          assert id in (set x | x in ids);
          var j :| 0 <= j < |ids| && ids[j] == id;
        }
      }
    }
  }

  /** The servers of a folder are those whose group is the folder or a path below it. */
  lemma MembersAre(d: Desk, folder: string, id: Id)
    ensures id in Members(d, folder) <==>
      && id in d.servers && d.servers[id].group.Some? && d.servers[id].group.value != ""
      && (d.servers[id].group.value == folder || folder + "/" <= d.servers[id].group.value)
  {
  }

  /** By the time the lock is held, what the user was shown no longer is so. */
  predicate Outdated(shown: Desk, now: Desk, call: Call)
    requires call.profileId in shown.profiles
  {
    || call.profileId !in now.profiles
    || now.profiles[call.profileId] != shown.profiles[call.profileId]
    || Members(now, call.folder) != Members(shown, call.folder)
  }

  lemma {:induction false} NoFailure(d: Desk, ids: seq<Id>, profileId: Id, waits: seq<seq<Event>>, k: nat)
    requires |waits| == |ids| && k <= |ids|
    ensures !Fails(d, ids, profileId, waits, None, k)
    decreases |ids| - k
  {
    if k < |ids| {
      NoFailure(Others(Link(d, ids[k], profileId), Wait(d, ids[k], profileId, waits[k])), ids, profileId, waits, k + 1);
    }
  }

  /**
   When the command goes through: an empty folder ends it, then a declined confirmation; a
   confirmed one is refused exactly when the profile is gone by then, has another name, or the
   folder has other servers; and where it is not refused and no save rejects, it links them all.
   */
  lemma RefusedExactlyWhenOutdated(shown: Desk, call: Call)
    requires Sound(call) && call.profileId in shown.profiles
    ensures
      var now, outcome := Others(shown, call.before), ApplyToFolder(shown, call).0;
      && (outcome == NothingToDo <==> Members(shown, call.folder) == {})
      && (Members(shown, call.folder) != {} ==>
            && (outcome == Cancelled <==> !call.confirmed)
            && (call.confirmed ==> (outcome == Refused <==> Outdated(shown, now, call)))
            && (call.confirmed && !Outdated(shown, now, call) ==>
                  if call.failing.None? then outcome == Linked(|Members(shown, call.folder)|) else outcome.Linked? || outcome.SaveFailed?))
  {
    var now := Others(shown, call.before);
    if call.profileId in now.profiles {
      if Members(now, call.folder) == Members(shown, call.folder) && StillAgreed(shown, now, call) {
        DisclosureTellsName(call.show, now.profiles[call.profileId], shown.profiles[call.profileId], |Members(now, call.folder)|, call.folder);
      }
    }
    if call.failing.None? {
      var ids := call.order(Members(now, call.folder));
      NoFailure(now, ids, call.profileId, call.waits(ids), 0);
    }
  }

  lemma {:induction false} NothingWrittenIn(ids: seq<Id>, waits: seq<seq<Event>>, d: Desk, profileId: Id, failing: Option<nat>, k: nat)
    requires |waits| == |ids| && k <= |ids| && forall j | 0 <= j < |waits| :: waits[j] == []
    ensures Meanwhile(d, ids, profileId, waits, failing, k) == []
    decreases |ids| - k
  {
    if k < |ids| {
      NothingWrittenIn(ids, waits, Others(Link(d, ids[k], profileId), Wait(d, ids[k], profileId, waits[k])), profileId, failing, k + 1);
    }
  }

  /** Nothing else runs while the command does. */
  ghost predicate Undisturbed(call: Call) {
    call.before == [] && forall ids: seq<Id>, j | 0 <= j < |ids| && j < |call.waits(ids)| :: call.waits(ids)[j] == []
  }

  /** Confirmed, undisturbed and with no save rejecting, it links every server of the folder, and changes nothing else. */
  lemma UndisturbedLinksTheFolder(shown: Desk, call: Call)
    requires Sound(call) && call.profileId in shown.profiles && Undisturbed(call)
    requires call.confirmed && call.failing.None? && Members(shown, call.folder) != {}
    ensures
      ApplyToFolder(shown, call)
      == (Linked(|Members(shown, call.folder)|),
          shown.(servers := map id | id in shown.servers ::
            if id in Members(shown, call.folder)
            then shown.servers[id].(links := shown.servers[id].links[Auth := call.profileId]) else shown.servers[id]))
  {
    var ids := call.order(Members(shown, call.folder));
    NothingWrittenIn(ids, call.waits(ids), shown, call.profileId, call.failing, 0);
    assert OthersDuring(shown, call) == [];
    RefusedExactlyWhenOutdated(shown, call);
    AppliesAsDisclosedOrNotAtAll(shown, call);
    assert HeldIds(shown, call) == Members(shown, call.folder);
    var final := ApplyToFolder(shown, call).1;
    assert LinkedOn(final, shown, Members(shown, call.folder), call.profileId);
    assert final.servers == map id | id in shown.servers ::
      if id in Members(shown, call.folder)
      then shown.servers[id].(links := shown.servers[id].links[Auth := call.profileId]) else shown.servers[id];
  }

  // ---- step by step -------------------------------------------------------------------

  function View(core: NexusCore): Desk
    reads core
  {
    Desk(core.servers, map id | id in core.profiles :: core.profiles[id].name)
  }

  method Interfere(core: NexusCore, events: seq<Event>)
    requires core.Valid()
    modifies core
    ensures core.Valid() && View(core) == Others(old(View(core)), events)
  {
    var k := 0;
    while k < |events|
      invariant 0 <= k <= |events| && core.Valid()
      invariant Others(View(core), events[k..]) == Others(old(View(core)), events)
    {
      assert events[k..][1..] == events[k + 1..];
      label before:
      match events[k] {
        case OnServers(change) => core.Perform(change);
        case ProfileRenamed(p, name) =>
          if p in core.profiles {
            core.profiles := core.profiles[p := core.profiles[p].(name := name)];
          }
      }
      assert View(core) == AfterEvent(old@before(View(core)), events[k]);
      k := k + 1;
    }
  }

  /** `linkProfileToServers`: each server is re-read just before its own write. */
  method LinkProfileToServers(core: NexusCore, profileId: Id, ids: seq<Id>, waits: seq<seq<Event>>, failing: Option<nat>)
    returns (saved: bool)
    requires |waits| == |ids| && core.Valid()
    modifies core
    ensures core.Valid() && View(core) == LinkAll(old(View(core)), ids, profileId, waits, failing, 0)
    ensures saved == !Fails(old(View(core)), ids, profileId, waits, failing, 0)
  {
    var k := 0;
    while k < |ids|
      invariant 0 <= k <= |ids| && core.Valid()
      invariant LinkAll(View(core), ids, profileId, waits, failing, k) == LinkAll(old(View(core)), ids, profileId, waits, failing, 0)
      invariant Fails(View(core), ids, profileId, waits, failing, k) == Fails(old(View(core)), ids, profileId, waits, failing, 0)
    {
      ghost var here := View(core);
      var id := ids[k];
      if id in core.servers && !(Auth in core.servers[id].links && core.servers[id].links[Auth] == profileId) {
        var next := core.servers[id].(links := core.servers[id].links[Auth := profileId]);
        PlacedAlone(core.servers, id, next);
        core.AddOrUpdateServer(id, next);
        assert View(core) == Link(here, id, profileId);
        Interfere(core, waits[k]);
        if failing == Some(k) {
          return false;
        }
      } else {
        AlreadyLinked(here, id, profileId);
      }
      k := k + 1;
    }
    saved := true;
  }

  /** A server skipped is one the write would not have changed. */
  lemma AlreadyLinked(d: Desk, id: Id, profileId: Id)
    requires !Writes(d, id, profileId)
    ensures Link(d, id, profileId) == d
  {
    if id in d.servers {
      assert d.servers[id].links[Auth := profileId] == d.servers[id].links;
      assert d.servers[id].(links := d.servers[id].links) == d.servers[id];
    }
  }

  method Apply(core: NexusCore, call: Call) returns (outcome: Outcome)
    requires Sound(call) && call.profileId in core.profiles && core.Valid()
    modifies core
    ensures core.Valid() && (outcome, View(core)) == ApplyToFolder(old(View(core)), call)
  {
    var profile := core.profiles[call.profileId].name;
    var servers := Members(View(core), call.folder);
    if servers == {} {
      return NothingToDo;
    }
    var shownDisclosure := Disclosure(call.show, profile, |servers|, call.folder);
    Interfere(core, call.before);
    if !call.confirmed {
      return Cancelled;
    }
    if call.profileId !in core.profiles {
      return Refused;
    }
    var current := Members(View(core), call.folder);
    if current != servers {
      return Refused;
    }
    if Disclosure(call.show, core.profiles[call.profileId].name, |current|, call.folder) != shownDisclosure {
      return Refused;
    }
    var ids := call.order(current);
    var saved := LinkProfileToServers(core, call.profileId, ids, call.waits(ids), call.failing);
    outcome := if saved then Linked(|ids|) else SaveFailed;
  }
}
