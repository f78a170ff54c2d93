/**
 The records the commands move around: servers, their links into the other buckets, and
 the ownership stamps inventory synchronisation leaves on them.

 A record does not carry its own id: the core's buckets are maps from id to record, and a
 payload is a sequence of `Item`s. Optional members of one kind are a map, in which an
 absent key is `undefined`.
 */
module Records {
  type Id = string

  datatype Option<+T> = None | Some(value: T)

  /** An optional object read from an untrusted file. */
  datatype Claim<+T> = Absent | Malformed | Present(value: T)

  datatype Item<+T> = Item(id: Id, value: T)

  datatype Proxy =
    | Ssh(jumpHostId: Id)
    | Socks5(host: string, port: int, username: Option<string>)
    | Http(host: string, port: int, username: Option<string>)

  /** `multiplexing`, `legacyAlgorithms` and `logSession`. */
  datatype Flag = Multiplexing | LegacyAlgorithms | LogSession

  /** `authProfileId`, `ipmiAuthProfileId` and `ipmiGatewayServerId`. */
  datatype Link = Auth | IpmiAuth | Gateway

  /**
   Which fields synchronisation or a template wrote, and with what: `templated`, together
   with `syncedAuthProfileId` as the stamp of the `Auth` link.
   */
  datatype Stamps = Stamps(proxy: Option<Proxy>, flags: map<Flag, bool>, links: map<Link, Id>)

  datatype Origin = Origin(
    sourceId: Id,
    externalId: string,
    syncedAt: int,
    syncedUsername: Option<string>,
    syncedInstanceKey: Option<string>,
    syncedIpmiHost: Option<string>,
    syncedAltHost: Option<string>,
    syncedProtocol: Option<string>,
    syncedHost: Option<string>,
    syncedPort: Option<int>,
    stamps: Stamps)

  /** `formerlySynced`: the receipt of a server kept after its source was removed. */
  datatype Detached = Detached(
    sourceId: Id,
    sourceName: string,
    providerId: string,
    externalId: string,
    instanceKey: Option<string>,
    syncedIpmiHost: Option<string>,
    syncedAltHost: Option<string>,
    syncedProtocol: Option<string>,
    stamps: Stamps,
    detachedAt: int)

  /** `opensExplorer` is `openFileExplorerOnFirstConnect`, which at most one server has. */
  datatype Server = Server(
    name: string,
    group: Option<string>,
    username: string,
    keyPath: string,
    addressless: bool,
    opensExplorer: bool,
    proxy: Option<Proxy>,
    flags: map<Flag, bool>,
    links: map<Link, Id>,
    origin: Claim<Origin>,
    formerlySynced: Claim<Detached>,
    rest: string)

  datatype Profile = Profile(name: string, username: string, keyPath: Option<string>, rest: string)

  datatype Tunnel = Tunnel(defaultServerId: Option<Id>, rest: string)

  datatype Rule = Rule(id: Id, templateId: Id, filter: Option<string>)

  /** Every rule names a template that is there. */
  predicate RulesKnown(rules: seq<Rule>, templates: set<Id>) {
    forall i | 0 <= i < |rules| :: rules[i].templateId in templates
  }

  datatype Source = Source(
    name: string,
    providerId: string,
    authProfileId: Option<Id>,
    secretFieldIds: set<string>,
    templateRules: Option<seq<Rule>>,
    managedFolders: Claim<set<string>>,
    rest: string)

  /** A device template; `links` are the id references among its `fields`. */
  datatype Template = Template(links: map<Link, Id>, rest: string)

  /** The bucket a link points into. */
  function Bucket(link: Link, profiles: set<Id>, servers: set<Id>): set<Id> {
    if link == Gateway then servers else profiles
  }

  /** Links that are set, non-empty, and name nothing that exists. */
  function DanglingLinks(links: map<Link, Id>, profiles: set<Id>, servers: set<Id>): set<Link> {
    set l | l in links && links[l] != "" && links[l] !in Bucket(l, profiles, servers)
  }

  predicate LinksResolve(links: map<Link, Id>, profiles: set<Id>, servers: set<Id>) {
    forall l | l in links :: links[l] != "" ==> links[l] in Bucket(l, profiles, servers)
  }

  /** Nothing in the fleet names a profile or a gateway that is gone. */
  ghost predicate NoDanglingServers(servers: map<Id, Server>, profiles: set<Id>) {
    forall id | id in servers :: LinksResolve(servers[id].links, profiles, servers.Keys)
  }

  /** The link stamps that go when these links are cleared: those naming the same id. */
  function Unstamp(s: Stamps, links: map<Link, Id>, lost: set<Link>): Stamps {
    s.(links := map l | l in s.links && !(l in lost && l in links && links[l] == s.links[l]) :: s.links[l])
  }

  function UnstampOrigin(o: Claim<Origin>, links: map<Link, Id>, lost: set<Link>): Claim<Origin> {
    if o.Present? then Present(o.value.(stamps := Unstamp(o.value.stamps, links, lost))) else o
  }

  function UnstampMarker(d: Claim<Detached>, links: map<Link, Id>, lost: set<Link>): Claim<Detached> {
    if d.Present? then Present(d.value.(stamps := Unstamp(d.value.stamps, links, lost))) else d
  }

  /**
   Clears links, all at once. Each goes with the stamp that mirrors it, on the origin and on
   the detached marker, and only when that stamp names the very id being cleared.
   */
  function WithoutLinks(server: Server, lost: set<Link>): Server {
    server.(
      links := server.links - lost,
      origin := UnstampOrigin(server.origin, server.links, lost),
      formerlySynced := UnstampMarker(server.formerlySynced, server.links, lost))
  }

  /** Stamps from which exactly those of the cleared links are gone that named the same id. */
  ghost predicate StampsCleared(before: Stamps, after: Stamps, links: map<Link, Id>, lost: set<Link>) {
    && after.proxy == before.proxy && after.flags == before.flags
    && (forall l :: l in after.links <==>
          l in before.links && !(l in lost && l in links && links[l] == before.links[l]))
    && (forall l | l in after.links :: after.links[l] == before.links[l])
  }

  /** A server from which exactly these links are gone, and with each the stamps naming the same id; nothing else changes. */
  ghost predicate LinksCleared(before: Server, after: Server, lost: set<Link>) {
    && after.(links := before.links, origin := before.origin, formerlySynced := before.formerlySynced) == before
    && (forall l :: l in after.links <==> l in before.links && l !in lost)
    && (forall l | l in after.links :: after.links[l] == before.links[l])
    && (match before.origin
        case Present(o) =>
          && after.origin.Present? && after.origin.value.(stamps := o.stamps) == o
          && StampsCleared(o.stamps, after.origin.value.stamps, before.links, lost)
        case _ => after.origin == before.origin)
    && (match before.formerlySynced
        case Present(d) =>
          && after.formerlySynced.Present? && after.formerlySynced.value.(stamps := d.stamps) == d
          && StampsCleared(d.stamps, after.formerlySynced.value.stamps, before.links, lost)
        case _ => after.formerlySynced == before.formerlySynced)
  }

  lemma WithoutLinksClears(server: Server, lost: set<Link>)
    ensures LinksCleared(server, WithoutLinks(server, lost), lost)
  {
  }

  // ---- the one server that opens the file explorer ------------------------------------

  function Quiet(server: Server): Server {
    server.(opensExplorer := false)
  }

  function QuietAll(servers: map<Id, Server>): map<Id, Server> {
    map id | id in servers :: Quiet(servers[id])
  }

  ghost predicate SoleOpener(servers: map<Id, Server>) {
    forall a, b | a in servers && b in servers && servers[a].opensExplorer && servers[b].opensExplorer :: a == b
  }

  /** Everyone but the owner gives the flag up; without an owner nobody does. */
  function Solo(servers: map<Id, Server>, owner: Option<Id>): map<Id, Server> {
    map id | id in servers :: if owner.None? || owner == Some(id) then servers[id] else Quiet(servers[id])
  }

  /** One record put in; when it opens the file explorer, no other does any more. */
  function Placed(servers: map<Id, Server>, id: Id, server: Server): map<Id, Server> {
    (if server.opensExplorer then QuietAll(servers) else servers)[id := server]
  }

  /** Putting a record in leaves at most one opener. */
  lemma PlacedKeepsSole(servers: map<Id, Server>, id: Id, server: Server)
    requires SoleOpener(servers)
    ensures SoleOpener(Placed(servers, id, server))
  {
  }

  /** Rewriting a record without touching the flag touches no other record. */
  lemma PlacedAlone(servers: map<Id, Server>, id: Id, server: Server)
    requires SoleOpener(servers) && id in servers && servers[id].opensExplorer == server.opensExplorer
    ensures Placed(servers, id, server) == servers[id := server]
  {
    if server.opensExplorer {
      forall k | k in servers && k != id ensures Quiet(servers[k]) == servers[k] {
      }
    }
  }

  /** Clearing no link rewrites nothing. */
  lemma WithoutNoLinks(server: Server)
    ensures WithoutLinks(server, {}) == server
  {
    if server.origin.Present? {
      assert Unstamp(server.origin.value.stamps, server.links, {}).links == server.origin.value.stamps.links;
    }
    if server.formerlySynced.Present? {
      assert Unstamp(server.formerlySynced.value.stamps, server.links, {}).links == server.formerlySynced.value.stamps.links;
    }
  }

  /** One list is another with some entries left out: what stays is in its order. */
  ghost predicate Sublist<T>(some: seq<T>, all: seq<T>)
    decreases |all|
  {
    if some == [] then true
    else all != [] && (if some[0] == all[0] then Sublist(some[1..], all[1..]) else Sublist(some, all[1..]))
  }

  /** One list is the other without the rules that fail the test: the same ones, as often, in the order they had. */
  ghost predicate KeptInOrder(before: seq<Rule>, after: seq<Rule>, keep: Rule -> bool) {
    && Sublist(after, before)
    && forall r: Rule :: multiset(after)[r] == if keep(r) then multiset(before)[r] else 0
  }

  lemma KeptBehind(first: Rule, rest: seq<Rule>, after: seq<Rule>, keep: Rule -> bool)
    requires KeptInOrder(rest, after, keep)
    ensures KeptInOrder([first] + rest, if keep(first) then [first] + after else after, keep)
  {
    var all, kept := [first] + rest, [first] + after;
    assert all[1..] == rest && kept[1..] == after;
    assert multiset(all) == multiset{first} + multiset(rest) && multiset(kept) == multiset{first} + multiset(after);
    if !keep(first) {
      assert multiset(after)[first] == 0;
      SublistBehind(first, rest, after);
    }
  }

  lemma SublistBehind(first: Rule, rest: seq<Rule>, after: seq<Rule>)
    requires Sublist(after, rest) && multiset(after)[first] == 0
    ensures Sublist(after, [first] + rest)
  {
    assert ([first] + rest)[1..] == rest;
    if after != [] {
      assert after[0] in multiset(after);
    }
  }
}
