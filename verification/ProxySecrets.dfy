/**
 Template apply and the stored proxy passwords.

 A password is kept under the server's id and is sent to whatever authenticated proxy the
 record names, so it must never sit beside an endpoint it was not entered for. The command
 captures and deletes the stale ones first, publishes the new proxies one server at a time,
 and after a failed save puts back only what still belongs. Every step can fail, and other
 commands run between any two of them.
 */
module ProxySecrets {
  import opened Core
  import opened Records
  import opened TemplateApply

  /** A stored password, with the endpoint the user entered it for. */
  datatype Secret = Secret(text: string, enteredFor: Proxy)

  type Vault = map<Id, Secret>

  predicate Bearing(p: Option<Proxy>) {
    p.Some? && !p.value.Ssh?
  }

  predicate SameEndpoint(a: Option<Proxy>, b: Option<Proxy>) {
    Bearing(a) && Bearing(b) && a == b
  }

  /** A server whose proxy the plan sets, with the proxy it had when the lock was taken. */
  datatype Change = Change(id: Id, before: Option<Proxy>, after: Proxy)

  predicate Stale(c: Change) {
    (Bearing(c.before) || Bearing(Some(c.after))) && !SameEndpoint(c.before, Some(c.after))
  }

  datatype Captured = Captured(id: Id, before: Option<Proxy>, secret: Secret)

  datatype Phase =
    | Reading(next: nat)
    | Deleting(current: nat)
    | Undoing(todo: seq<Captured>)
    | Writing(write: nat)
    | Saving(write: nat)
    | Restoring(todo: seq<Captured>)
    | Finished(published: bool)

  datatype State = State(fleet: Fleet, vault: Vault, captured: seq<Captured>, lost: set<Id>, phase: Phase)

  /** What is fixed once the lock is held; `changes` is the list the hygiene helper is given. */
  datatype Job = Job(plan: seq<Write>, changes: seq<Change>, start: Fleet, vault: Vault)

  /**
   One atomic step: this command's next action succeeds or fails (a failed delete may have
   taken effect all the same), or another command acts. A record is changed in memory first;
   its save is an action of its own, and other commands act while it is pending.
   */
  datatype Move =
    | Succeed
    | Fail(landed: bool)
    | Elsewhere(event: ServerEvent, forgotten: set<Id>)

  function ChangesOf(plan: seq<Write>, fleet: Fleet): seq<Change> {
    if plan == [] then []
    else
      var w := plan[0];
      (if w.proxy.Some? && w.serverId in fleet.servers
       then [Change(w.serverId, fleet.servers[w.serverId].proxy, w.proxy.value)] else [])
      + ChangesOf(plan[1..], fleet)
  }

  function ReadFrom(job: Job, k: nat): Phase {
    if k < |job.changes| then Reading(k) else Writing(0)
  }

  function Initial(job: Job): State {
    State(job.start, job.vault, [], {}, ReadFrom(job, 0))
  }

  /** Captured secrets whose server is, right now, on the endpoint they were captured for. */
  function Restorable(captured: seq<Captured>, fleet: Fleet): seq<Captured> {
    if captured == [] then []
    else
      (if captured[0].id in fleet.servers && SameEndpoint(fleet.servers[captured[0].id].proxy, captured[0].before)
       then [captured[0]] else [])
      + Restorable(captured[1..], fleet)
  }

  /** Putting one secret back is best effort; either way the next one follows. */
  function PutBack(s: State, todo: seq<Captured>, m: Move): State
    requires todo != []
  {
    if m.Succeed? then s.(vault := s.vault[todo[0].id := todo[0].secret]) else s.(lost := s.lost + {todo[0].id})
  }

  /** Whole records saved meanwhile keep the proxy the live record has. */
  predicate MovesNoProxy(fleet: Fleet, e: ServerEvent) {
    e.Saved? ==> e.id in fleet.servers && e.server.proxy == fleet.servers[e.id].proxy
  }

  function Next(job: Job, s: State, m: Move): State {
    match m
    case Elsewhere(event, forgotten) =>
      var fleet := if MovesNoProxy(s.fleet, event) then AfterEvent(s.fleet, event) else s.fleet;
      s.(fleet := fleet, vault := s.vault - (forgotten - fleet.servers.Keys))
    case _ =>
      match s.phase
      case Reading(k) => if k < |job.changes| then NextRead(job, s, k, m) else s
      case Deleting(k) => if k < |job.changes| then NextDelete(job, s, k, m) else s
      case Undoing(todo) =>
        if todo == [] then s.(phase := Finished(false))
        else PutBack(s, todo, m).(phase := Undoing(todo[1..]))
      case Writing(k) => if k < |job.plan| then NextWrite(job, s, k) else s.(phase := Finished(true))
      case Saving(k) =>
        if m.Succeed? then s.(phase := Writing(k + 1))
        else s.(phase := Restoring(Restorable(s.captured, s.fleet)))
      case Restoring(todo) =>
        if todo == [] then s.(phase := Finished(false))
        else PutBack(s, todo, m).(phase := Restoring(todo[1..]))
      case Finished(_) => s
  }

  function NextRead(job: Job, s: State, k: nat, m: Move): State
    requires k < |job.changes|
  {
    var c := job.changes[k];
    if !Stale(c) then s.(phase := ReadFrom(job, k + 1))
    else if !m.Succeed? then s.(phase := Undoing(s.captured))
    else s.(
      captured := if c.id in s.vault then s.captured + [Captured(c.id, c.before, s.vault[c.id])] else s.captured,
      phase := Deleting(k))
  }

  function NextDelete(job: Job, s: State, k: nat, m: Move): State
    requires k < |job.changes|
  {
    var id := job.changes[k].id;
    if m.Succeed? then s.(vault := s.vault - {id}, phase := ReadFrom(job, k + 1))
    else s.(vault := if m.Fail? && m.landed then s.vault - {id} else s.vault, phase := Undoing(s.captured))
  }

  /** The record is changed in memory; a write that does not land has nothing to save. */
  function NextWrite(job: Job, s: State, k: nat): State
    requires k < |job.plan|
  {
    s.(fleet := AfterWrite(s.fleet, job.plan[k]), phase := if Lands(s.fleet, job.plan[k]) then Saving(k) else Writing(k + 1))
  }

  function Run(job: Job, s: State, moves: seq<Move>): State
    decreases |moves|
  {
    if moves == [] then s else Run(job, Next(job, s, moves[0]), moves[1..])
  }

  // ---- what must hold -----------------------------------------------------------------

  /** No server is on an authenticated endpoint other than the one its stored password is for. */
  ghost predicate Safe(fleet: Fleet, vault: Vault) {
    forall id | id in vault && id in fleet.servers && Bearing(fleet.servers[id].proxy) ::
      fleet.servers[id].proxy == Some(vault[id].enteredFor)
  }

  ghost predicate WellFormed(job: Job) {
    && job.changes == ChangesOf(job.plan, job.start)
    && Safe(job.start, job.vault)
    && OneWriteEach(job.plan)
    && forall w | w in job.plan :: Planned(w)
  }

  // ---- facts about changes and steps --------------------------------------------------

  predicate Plans(w: Write, c: Change) {
    w.serverId == c.id && w.proxy == Some(c.after)
  }

  /** The changes are the proxy writes of the plan, each with the proxy its server had. */
  ghost predicate ChangesTrack(plan: seq<Write>, changes: seq<Change>, fleet: Fleet) {
    && (forall c | c in changes ::
          && c.id in fleet.servers && c.before == fleet.servers[c.id].proxy
          && exists w :: w in plan && Plans(w, c))
    && (forall w | w in plan && w.proxy.Some? && w.serverId in fleet.servers ::
          Change(w.serverId, fleet.servers[w.serverId].proxy, w.proxy.value) in changes)
  }

  lemma {:induction false} ChangesAreWrites(plan: seq<Write>, fleet: Fleet)
    ensures ChangesTrack(plan, ChangesOf(plan, fleet), fleet)
  {
    if plan != [] {
      ChangesAreWrites(plan[1..], fleet);
      var changes, rest := ChangesOf(plan, fleet), ChangesOf(plan[1..], fleet);
      assert plan == [plan[0]] + plan[1..];
      forall c | c in changes
        ensures c.id in fleet.servers && c.before == fleet.servers[c.id].proxy
        ensures exists w :: w in plan && Plans(w, c)
      {
        if c in rest {
          var w :| w in plan[1..] && Plans(w, c);
          assert w in plan;
        } else {
          assert plan[0] in plan && Plans(plan[0], c);
        }
      }
    }
  }

  /** What the invariant's proofs use of a well-formed job. */
  ghost predicate Usable(job: Job) {
    && ChangesTrack(job.plan, job.changes, job.start)
    && Safe(job.start, job.vault)
    && (forall w | w in job.plan :: Planned(w))
    && (forall w, w' | w in job.plan && w' in job.plan && w.serverId == w'.serverId :: w == w')
  }

  lemma WellFormedIsUsable(job: Job)
    requires WellFormed(job)
    ensures Usable(job)
  {
    ChangesAreWrites(job.plan, job.start);
  }

  lemma {:induction false} RestorableIsExact(captured: seq<Captured>, fleet: Fleet)
    ensures forall c :: c in Restorable(captured, fleet) <==>
      c in captured && c.id in fleet.servers && SameEndpoint(fleet.servers[c.id].proxy, c.before)
  {
    if captured != [] {
      RestorableIsExact(captured[1..], fleet);
      assert captured == [captured[0]] + captured[1..];
    }
  }

  /** A write moves one proxy, the planned one; nothing appears or disappears. */
  lemma WriteMovesOneProxy(fleet: Fleet, w: Write)
    requires Planned(w)
    ensures AfterWrite(fleet, w).servers.Keys == fleet.servers.Keys
    ensures forall id | id in fleet.servers ::
      AfterWrite(fleet, w).servers[id].proxy ==
        if id == w.serverId && w.proxy.Some? then w.proxy else fleet.servers[id].proxy
  {
    KeptIsWhatPersists(fleet, w);
    if w.proxy.Some? {
      assert ProxyField in Kept(fleet, w);
    }
  }

  lemma EventMovesNoProxy(fleet: Fleet, e: ServerEvent)
    requires MovesNoProxy(fleet, e)
    ensures AfterEvent(fleet, e).servers.Keys <= fleet.servers.Keys
    ensures forall id | id in AfterEvent(fleet, e).servers ::
      AfterEvent(fleet, e).servers[id].proxy == fleet.servers[id].proxy
  {
  }

  // ---- the invariant ------------------------------------------------------------------

  predicate Moves(c: Change, id: Id, p: Option<Proxy>) {
    c.id == id && p == Some(c.after)
  }

  /** A live server is on its old proxy or on the one planned for it. */
  ghost predicate ProxiesTracked(job: Job, s: State) {
    && s.fleet.servers.Keys <= job.start.servers.Keys
    && forall id | id in s.fleet.servers && s.fleet.servers[id].proxy != job.start.servers[id].proxy ::
         exists c :: c in job.changes && Moves(c, id, s.fleet.servers[id].proxy)
  }

  ghost predicate Untouched(job: Job, s: State) {
    forall id | id in s.fleet.servers && id in job.start.servers ::
      s.fleet.servers[id].proxy == job.start.servers[id].proxy
  }

  ghost predicate WrittenBefore(job: Job, s: State, k: nat) {
    forall j | 0 <= j < k && j < |job.plan| && job.plan[j].proxy.Some? && job.plan[j].serverId in s.fleet.servers ::
      s.fleet.servers[job.plan[j].serverId].proxy == job.plan[j].proxy
  }

  ghost predicate HasStaleChange(job: Job, id: Id) {
    exists c :: c in job.changes && c.id == id && Stale(c)
  }

  predicate HasCapture(captured: seq<Captured>, id: Id) {
    exists c :: c in captured && c.id == id
  }

  /** The vault only ever loses original secrets and gets them back; captures are faithful. */
  ghost predicate OriginalSecrets(job: Job, s: State) {
    && (forall id | id in s.vault :: id in job.vault && s.vault[id] == job.vault[id])
    && (forall c | c in s.captured ::
          && c.id in job.start.servers && c.before == job.start.servers[c.id].proxy
          && c.id in job.vault && c.secret == job.vault[c.id]
          && HasStaleChange(job, c.id))
  }

  /** A live server's original password is in the vault or has been captured. */
  ghost predicate NothingForgotten(job: Job, s: State) {
    forall id | id in job.vault && id in s.fleet.servers :: id in s.vault || HasCapture(s.captured, id)
  }

  ghost predicate StaleGone(job: Job, s: State, k: nat) {
    forall j | 0 <= j < k && j < |job.changes| && Stale(job.changes[j]) :: job.changes[j].id !in s.vault
  }

  /** Where a secret of a stale change is stored, its server is on its old proxy. */
  ghost predicate StaleOnlyWhereUnmoved(job: Job, s: State) {
    forall c | c in job.changes && Stale(c) && c.id in s.vault && c.id in s.fleet.servers ::
      s.fleet.servers[c.id].proxy == c.before
  }

  /** Secrets on their way back go to servers that are on the endpoint they were taken for. */
  ghost predicate TodoBelongs(s: State, todo: seq<Captured>) {
    forall c | c in todo ::
      c in s.captured && (c.id in s.fleet.servers ==> s.fleet.servers[c.id].proxy == c.before)
  }

  /** Every captured secret whose server never moved is back, on its way, or could not be stored. */
  ghost predicate ComingBack(s: State, todo: seq<Captured>) {
    forall c | c in s.captured && c.id in s.fleet.servers && SameEndpoint(s.fleet.servers[c.id].proxy, c.before) ::
      c in todo || c.id in s.vault || c.id in s.lost
  }

  ghost predicate PhaseInv(job: Job, s: State) {
    match s.phase
    case Reading(k) => Untouched(job, s) && StaleGone(job, s, k) && k < |job.changes|
    case Deleting(k) =>
      && Untouched(job, s) && StaleGone(job, s, k) && k < |job.changes| && Stale(job.changes[k])
      && (job.changes[k].id in s.vault ==> HasCapture(s.captured, job.changes[k].id))
    case Undoing(todo) => Untouched(job, s) && TodoBelongs(s, todo) && ComingBack(s, todo)
    case Writing(k) => StaleGone(job, s, |job.changes|) && WrittenBefore(job, s, k) && k <= |job.plan|
    case Saving(k) => StaleGone(job, s, |job.changes|) && WrittenBefore(job, s, k + 1) && k < |job.plan|
    case Restoring(todo) => StaleOnlyWhereUnmoved(job, s) && TodoBelongs(s, todo) && ComingBack(s, todo)
    case Finished(published) =>
      && StaleOnlyWhereUnmoved(job, s)
      && (if published then WrittenBefore(job, s, |job.plan|) else ComingBack(s, []))
  }

  ghost predicate Inv(job: Job, s: State) {
    ProxiesTracked(job, s) && OriginalSecrets(job, s) && NothingForgotten(job, s) && PhaseInv(job, s)
  }

  lemma InitialInv(job: Job)
    requires Usable(job)
    ensures Inv(job, Initial(job))
  {
  }

  lemma ElsewhereKeeps(job: Job, s: State, event: ServerEvent, forgotten: set<Id>)
    requires Inv(job, s)
    ensures Inv(job, Next(job, s, Elsewhere(event, forgotten)))
  {
    if MovesNoProxy(s.fleet, event) {
      EventMovesNoProxy(s.fleet, event);
    }
  }

  /** A secret captured is the original one, and nothing captured before is lost. */
  lemma CaptureKeeps(job: Job, s: State, c: Change)
    requires OriginalSecrets(job, s) && NothingForgotten(job, s) && ChangesTrack(job.plan, job.changes, job.start)
    requires c in job.changes && Stale(c) && c.id in s.vault
    ensures var s' := s.(captured := s.captured + [Captured(c.id, c.before, s.vault[c.id])]);
            OriginalSecrets(job, s') && NothingForgotten(job, s') && HasCapture(s'.captured, c.id)
  {
    var captured := s.captured + [Captured(c.id, c.before, s.vault[c.id])];
    assert HasStaleChange(job, c.id);
    assert captured[|s.captured|].id == c.id;
    forall id | HasCapture(s.captured, id) ensures HasCapture(captured, id) {
      var d :| d in s.captured && d.id == id;
      assert d in captured;
    }
  }

  lemma ReadKeeps(job: Job, s: State, m: Move)
    requires ChangesTrack(job.plan, job.changes, job.start) && Inv(job, s) && s.phase.Reading? && !m.Elsewhere?
    ensures Inv(job, Next(job, s, m))
  {
    var c := job.changes[s.phase.next];
    if Stale(c) {
      if m.Succeed? {
        if c.id in s.vault {
          CaptureKeeps(job, s, c);
        }
      } else {
        UndoStarts(job, s);
      }
    }
  }

  /** Where no proxy has moved every captured secret may go back. */
  lemma UndoStarts(job: Job, s: State)
    requires OriginalSecrets(job, s) && Untouched(job, s)
    ensures TodoBelongs(s, s.captured) && ComingBack(s, s.captured)
  {
  }

  /** A secret deleted is one that has been captured. */
  lemma DeletedIsCaptured(job: Job, s: State, id: Id)
    requires OriginalSecrets(job, s) && NothingForgotten(job, s) && (id in s.vault ==> HasCapture(s.captured, id))
    ensures var s' := s.(vault := s.vault - {id}); OriginalSecrets(job, s') && NothingForgotten(job, s')
  {
  }

  lemma DeleteKeeps(job: Job, s: State, m: Move)
    requires Inv(job, s) && s.phase.Deleting? && !m.Elsewhere?
    ensures Inv(job, Next(job, s, m))
  {
    DeletedIsCaptured(job, s, job.changes[s.phase.current].id);
    UndoStarts(job, s);
  }

  /** A secret put back leaves the rest of the list to do. */
  lemma PutBackKeeps(job: Job, s: State, todo: seq<Captured>, m: Move)
    requires Usable(job) && todo != [] && !m.Elsewhere?
    requires ProxiesTracked(job, s) && OriginalSecrets(job, s) && NothingForgotten(job, s)
    requires TodoBelongs(s, todo) && ComingBack(s, todo)
    ensures var s' := PutBack(s, todo, m);
            && ProxiesTracked(job, s') && OriginalSecrets(job, s') && NothingForgotten(job, s')
            && TodoBelongs(s', todo[1..]) && ComingBack(s', todo[1..])
    ensures StaleOnlyWhereUnmoved(job, s) ==> StaleOnlyWhereUnmoved(job, PutBack(s, todo, m))
  {
    assert todo == [todo[0]] + todo[1..];
    assert todo[0] in s.captured;
  }

  lemma UndoKeeps(job: Job, s: State, m: Move)
    requires Usable(job) && Inv(job, s) && s.phase.Undoing? && !m.Elsewhere?
    ensures Inv(job, Next(job, s, m))
  {
    if s.phase.todo != [] {
      PutBackKeeps(job, s, s.phase.todo, m);
    }
  }

  lemma RestoreKeeps(job: Job, s: State, m: Move)
    requires Usable(job) && Inv(job, s) && s.phase.Restoring? && !m.Elsewhere?
    ensures Inv(job, Next(job, s, m))
  {
    if s.phase.todo != [] {
      PutBackKeeps(job, s, s.phase.todo, m);
    }
  }

  /** The write leaves the proxies tracked and itself among those written. */
  ghost predicate TrackedAfterWrite(job: Job, s: State, k: nat)
    requires k < |job.plan|
  {
    var s' := s.(fleet := AfterWrite(s.fleet, job.plan[k]));
    ProxiesTracked(job, s') && WrittenBefore(job, s', k + 1) && s'.fleet.servers.Keys == s.fleet.servers.Keys
  }

  lemma WriteTracked(job: Job, s: State, k: nat)
    requires Usable(job) && ProxiesTracked(job, s) && k < |job.plan| && WrittenBefore(job, s, k)
    ensures TrackedAfterWrite(job, s, k)
  {
    var w := job.plan[k];
    var after := AfterWrite(s.fleet, w);
    assert w in job.plan;
    WriteMovesOneProxy(s.fleet, w);
    forall id | id in after.servers && after.servers[id].proxy != job.start.servers[id].proxy
      ensures exists c :: c in job.changes && Moves(c, id, after.servers[id].proxy)
    {
      if id == w.serverId && w.proxy.Some? {
        var c := Change(id, job.start.servers[id].proxy, w.proxy.value);
        assert c in job.changes && Moves(c, id, after.servers[id].proxy);
      }
    }
  }

  lemma WriteKeeps(job: Job, s: State, m: Move)
    requires Inv(job, s) && s.phase.Writing? && !m.Elsewhere?
    requires s.phase.write < |job.plan| ==> TrackedAfterWrite(job, s, s.phase.write)
    ensures Inv(job, Next(job, s, m))
  {
    var k := s.phase.write;
    if k < |job.plan| {
      WriteKeepsSecrets(job, s, AfterWrite(s.fleet, job.plan[k]));
    } else {
      StaleGoneEverywhere(job, s);
    }
  }

  /** A step that touches neither secrets nor which servers there are. */
  lemma WriteKeepsSecrets(job: Job, s: State, fleet: Fleet)
    requires OriginalSecrets(job, s) && NothingForgotten(job, s) && StaleGone(job, s, |job.changes|)
    requires fleet.servers.Keys == s.fleet.servers.Keys
    ensures var s' := s.(fleet := fleet);
            OriginalSecrets(job, s') && NothingForgotten(job, s') && StaleGone(job, s', |job.changes|)
  {
  }

  /** A rejected save leaves the record changed; what goes back is decided on the records as they are then. */
  lemma SaveKeeps(job: Job, s: State, m: Move)
    requires Usable(job) && Inv(job, s) && s.phase.Saving? && !m.Elsewhere?
    ensures Inv(job, Next(job, s, m))
  {
    StaleGoneEverywhere(job, s);
    RestorableIsExact(s.captured, s.fleet);
  }

  lemma StaleGoneEverywhere(job: Job, s: State)
    requires StaleGone(job, s, |job.changes|)
    ensures forall c | c in job.changes && Stale(c) :: c.id !in s.vault
  {
  }

  lemma NextKeepsInv(job: Job, s: State, m: Move)
    requires Usable(job) && Inv(job, s)
    ensures Inv(job, Next(job, s, m))
  {
    if m.Elsewhere? {
      ElsewhereKeeps(job, s, m.event, m.forgotten);
    } else {
      match s.phase
      case Reading(_) => ReadKeeps(job, s, m);
      case Deleting(_) => DeleteKeeps(job, s, m);
      case Undoing(_) => UndoKeeps(job, s, m);
      case Writing(k) =>
        if k < |job.plan| {
          WriteTracked(job, s, k);
        }
        WriteKeeps(job, s, m);
      case Saving(_) => SaveKeeps(job, s, m);
      case Restoring(_) => RestoreKeeps(job, s, m);
      case Finished(_) =>
    }
  }

  lemma {:induction false} RunKeepsInv(job: Job, s: State, moves: seq<Move>)
    requires Usable(job) && Inv(job, s)
    ensures Inv(job, Run(job, s, moves))
    decreases |moves|
  {
    if moves != [] {
      NextKeepsInv(job, s, moves[0]);
      RunKeepsInv(job, Next(job, s, moves[0]), moves[1..]);
    }
  }

  lemma InvIsSafe(job: Job, s: State)
    requires Usable(job) && Inv(job, s)
    ensures Safe(s.fleet, s.vault)
  {
    forall id | id in s.vault && id in s.fleet.servers && Bearing(s.fleet.servers[id].proxy)
      ensures s.fleet.servers[id].proxy == Some(s.vault[id].enteredFor)
    {
      if s.fleet.servers[id].proxy != job.start.servers[id].proxy {
        var c :| c in job.changes && Moves(c, id, s.fleet.servers[id].proxy);
        if s.phase.Writing? || s.phase.Saving? {
          StaleGoneEverywhere(job, s);
        }
      }
    }
  }

  // ---- the theorems -------------------------------------------------------------------

  /**
   In every reachable state, whatever fails and whatever else runs, a stored password is
   beside the endpoint it was entered for or beside no authenticated endpoint at all.
   */
  lemma PasswordStaysWithItsEndpoint(job: Job, moves: seq<Move>)
    requires WellFormed(job)
    ensures var s := Run(job, Initial(job), moves); Safe(s.fleet, s.vault)
  {
    WellFormedIsUsable(job);
    InitialInv(job);
    RunKeepsInv(job, Initial(job), moves);
    InvIsSafe(job, Run(job, Initial(job), moves));
  }

  /**
   However the command ends, a server still there and still on the authenticated endpoint it
   had holds the password it had, unless putting that password back failed.
   */
  lemma UnchangedProxyKeepsItsPassword(job: Job, moves: seq<Move>, id: Id)
    requires WellFormed(job)
    requires var s := Run(job, Initial(job), moves);
             && s.phase.Finished? && id in job.vault && id in s.fleet.servers && id in job.start.servers
             && SameEndpoint(s.fleet.servers[id].proxy, job.start.servers[id].proxy)
    ensures var s := Run(job, Initial(job), moves);
            id in s.lost || (id in s.vault && s.vault[id] == job.vault[id])
  {
    WellFormedIsUsable(job);
    InitialInv(job);
    RunKeepsInv(job, Initial(job), moves);
    var s := Run(job, Initial(job), moves);
    if id !in s.vault {
      assert HasCapture(s.captured, id);
      var c :| c in s.captured && c.id == id;
      if s.phase.published {
        PublishedMovedEveryCapture(job, s, c);
      }
    }
  }

  /** Once everything is published, a server whose password was captured is on another endpoint. */
  lemma PublishedMovedEveryCapture(job: Job, s: State, captured: Captured)
    requires Usable(job) && Inv(job, s) && s.phase == Finished(true)
    requires captured in s.captured && captured.id in s.fleet.servers
    ensures !SameEndpoint(s.fleet.servers[captured.id].proxy, captured.before)
  {
    assert HasStaleChange(job, captured.id);
    var c :| c in job.changes && c.id == captured.id && Stale(c);
    var w :| w in job.plan && Plans(w, c);
    var j :| 0 <= j < |job.plan| && job.plan[j] == w;
    assert s.fleet.servers[c.id].proxy == Some(c.after);
  }

  // ---- that it gets done --------------------------------------------------------------

  function Successes(n: nat): seq<Move> {
    if n == 0 then [] else [Succeed] + Successes(n - 1)
  }

  lemma {:induction false} SuccessesJoin(job: Job, s: State, m: nat, n: nat)
    ensures Run(job, s, Successes(m + n)) == Run(job, Run(job, s, Successes(m)), Successes(n))
    decreases m
  {
    if m > 0 {
      assert Successes(m + n)[1..] == Successes(m - 1 + n) && Successes(m)[1..] == Successes(m - 1);
      SuccessesJoin(job, Next(job, s, Succeed), m - 1, n);
    }
  }

  lemma OneSuccess(job: Job, s: State)
    ensures Run(job, s, Successes(1)) == Next(job, s, Succeed)
  {
    assert Successes(1) == [Succeed] && [Succeed][1..] == [];
    assert Run(job, Next(job, s, Succeed), []) == Next(job, s, Succeed);
  }

  /** How many steps reading and deleting take from change `k` on. */
  function ReadSteps(job: Job, k: nat): nat
    decreases |job.changes| - k
  {
    if k >= |job.changes| then 0 else (if Stale(job.changes[k]) then 2 else 1) + ReadSteps(job, k + 1)
  }

  function StaleIds(job: Job, k: nat): set<Id> {
    set i | k <= i < |job.changes| && Stale(job.changes[i]) :: job.changes[i].id
  }

  lemma {:induction false} ReadsThrough(job: Job, s: State, k: nat)
    requires k <= |job.changes| && s.phase == ReadFrom(job, k)
    ensures
      var after := Run(job, s, Successes(ReadSteps(job, k)));
      after.phase == Writing(0) && after.fleet == s.fleet && after.vault == s.vault - StaleIds(job, k) && after.lost == s.lost
    decreases |job.changes| - k
  {
    if k < |job.changes| {
      var c := job.changes[k];
      var steps := if Stale(c) then 2 else 1;
      var next := Next(job, s, Succeed);
      OneSuccess(job, s);
      if Stale(c) {
        SuccessesJoin(job, s, 1, 1);
        OneSuccess(job, next);
        next := Next(job, next, Succeed);
      }
      ReadsThrough(job, next, k + 1);
      SuccessesJoin(job, s, steps, ReadSteps(job, k + 1));
      assert StaleIds(job, k) == (if Stale(c) then {c.id} else {}) + StaleIds(job, k + 1);
    } else {
      assert StaleIds(job, k) == {};
    }
  }

  /** The fleet after the writes of a plan from the `k`th on. */
  function AllWritten(fleet: Fleet, plan: seq<Write>, k: nat): Fleet
    decreases |plan| - k
  {
    if k >= |plan| then fleet else AllWritten(AfterWrite(fleet, plan[k]), plan, k + 1)
  }

  function WriteSteps(fleet: Fleet, plan: seq<Write>, k: nat): nat
    decreases |plan| - k
  {
    if k >= |plan| then 1 else (if Lands(fleet, plan[k]) then 2 else 1) + WriteSteps(AfterWrite(fleet, plan[k]), plan, k + 1)
  }

  lemma {:induction false} WritesThrough(job: Job, s: State, k: nat)
    requires k <= |job.plan| && s.phase == Writing(k)
    ensures
      var after := Run(job, s, Successes(WriteSteps(s.fleet, job.plan, k)));
      after.phase == Finished(true) && after.fleet == AllWritten(s.fleet, job.plan, k) && after.vault == s.vault && after.lost == s.lost
    decreases |job.plan| - k
  {
    OneSuccess(job, s);
    if k < |job.plan| {
      var lands := Lands(s.fleet, job.plan[k]);
      var next := Next(job, s, Succeed);
      if lands {
        SuccessesJoin(job, s, 1, 1);
        OneSuccess(job, next);
        next := Next(job, next, Succeed);
      }
      WritesThrough(job, next, k + 1);
      SuccessesJoin(job, s, if lands then 2 else 1, WriteSteps(AfterWrite(s.fleet, job.plan[k]), job.plan, k + 1));
    }
  }

  /**
   Where nothing fails and nothing else runs, everything is published: the records are those the
   plan's writes make, and of the passwords exactly those of servers moved off their endpoint
   are gone.
   */
  lemma SuccessPublishes(job: Job)
    requires WellFormed(job)
    ensures
      exists n: nat ::
        var s := Run(job, Initial(job), Successes(n));
        && s.phase == Finished(true) && s.fleet == AllWritten(job.start, job.plan, 0) && s.lost == {}
        && (forall id :: id in s.vault <==> id in job.vault && !exists w :: w in job.plan && MovesOff(job.start, w, id))
        && forall id | id in s.vault :: s.vault[id] == job.vault[id]
  {
    var mid := Run(job, Initial(job), Successes(ReadSteps(job, 0)));
    ReadsThrough(job, Initial(job), 0);
    WritesThrough(job, mid, 0);
    var n := ReadSteps(job, 0) + WriteSteps(mid.fleet, job.plan, 0);
    SuccessesJoin(job, Initial(job), ReadSteps(job, 0), WriteSteps(mid.fleet, job.plan, 0));
    var s := Run(job, Initial(job), Successes(n));
    forall id ensures id in StaleIds(job, 0) <==> exists w :: w in job.plan && MovesOff(job.start, w, id) {
      StaleMeans(job, id);
    }
    assert s.vault == job.vault - StaleIds(job, 0);
  }

  /** The write takes this server to a proxy with another authenticated endpoint than it has, or off one, or onto one. */
  predicate MovesOff(fleet: Fleet, w: Write, id: Id) {
    && w.serverId == id && id in fleet.servers && w.proxy.Some?
    && (Bearing(fleet.servers[id].proxy) || Bearing(w.proxy)) && fleet.servers[id].proxy != w.proxy
  }

  lemma StaleMeans(job: Job, id: Id)
    requires WellFormed(job)
    ensures id in StaleIds(job, 0) <==> exists w :: w in job.plan && MovesOff(job.start, w, id)
  {
    ChangesAreWrites(job.plan, job.start);
    if id in StaleIds(job, 0) {
      var i :| 0 <= i < |job.changes| && Stale(job.changes[i]) && job.changes[i].id == id;
      assert job.changes[i] in job.changes;
      var w :| w in job.plan && Plans(w, job.changes[i]);
      assert MovesOff(job.start, w, id);
    }
    if w :| w in job.plan && MovesOff(job.start, w, id) {
      var c := Change(id, job.start.servers[id].proxy, w.proxy.value);
      assert c in job.changes && Stale(c);
      var i :| 0 <= i < |job.changes| && job.changes[i] == c;
    }
  }

  // ---- what a failure does ------------------------------------------------------------

  /**
   A failing step: a secret that cannot be read or deleted ends the capture, and all that was
   captured is to be put back, whether or not the delete took effect; a record that cannot be
   saved ends the writing, and what is to be put back is what still belongs.
   */
  lemma FailureExactly(job: Job, s: State, landed: bool)
    ensures
      var next := Next(job, s, Fail(landed));
      match s.phase
      case Reading(k) => k < |job.changes| && Stale(job.changes[k]) ==> next == s.(phase := Undoing(s.captured))
      case Deleting(k) =>
        k < |job.changes| ==>
          next == s.(vault := if landed then s.vault - {job.changes[k].id} else s.vault, phase := Undoing(s.captured))
      case Saving(_) =>
        && next.phase.Restoring? && next == s.(phase := next.phase)
        && forall c :: c in next.phase.todo <==>
             c in s.captured && c.id in s.fleet.servers && SameEndpoint(s.fleet.servers[c.id].proxy, c.before)
      case _ => true
  {
    RestorableIsExact(s.captured, s.fleet);
  }

  predicate GivenUp(s: State) {
    s.phase.Undoing? || s.phase.Restoring? || s.phase == Finished(false)
  }

  /** After a failure nothing more is published: the records are as the other commands alone leave them, and the command ends unpublished. */
  lemma {:induction false} NothingPublishedAfterFailure(job: Job, s: State, t: State, moves: seq<Move>)
    requires GivenUp(s) && t.fleet == s.fleet && t.phase == Finished(false)
    ensures GivenUp(Run(job, s, moves)) && Run(job, s, moves).fleet == Run(job, t, moves).fleet
    decreases |moves|
  {
    if moves != [] {
      NothingPublishedAfterFailure(job, Next(job, s, moves[0]), Next(job, t, moves[0]), moves[1..]);
    }
  }

  // ---- what putting back does ---------------------------------------------------------

  /** While secrets are put back: a success stores exactly the next one, a failure stores nothing and is noted. */
  lemma PutBackExactly(job: Job, s: State, m: Move)
    requires !m.Elsewhere? && ((s.phase.Undoing? && s.phase.todo != []) || (s.phase.Restoring? && s.phase.todo != []))
    ensures
      var next, c := Next(job, s, m), s.phase.todo[0];
      && next.fleet == s.fleet
      && (m.Succeed? ==> next.vault == s.vault[c.id := c.secret] && next.lost == s.lost)
      && (m.Fail? ==> next.vault == s.vault && next.lost == s.lost + {c.id})
  {
  }

  /** No step of the run that puts a secret back fails. */
  predicate PutBacksSucceed(job: Job, s: State, moves: seq<Move>)
    decreases |moves|
  {
    moves == [] || ((moves[0].Fail? ==> !s.phase.Undoing? && !s.phase.Restoring?) && PutBacksSucceed(job, Next(job, s, moves[0]), moves[1..]))
  }

  lemma {:induction false} NothingLost(job: Job, s: State, moves: seq<Move>)
    requires PutBacksSucceed(job, s, moves)
    ensures Run(job, s, moves).lost == s.lost
    decreases |moves|
  {
    if moves != [] {
      NothingLost(job, Next(job, s, moves[0]), moves[1..]);
    }
  }

  /**
   So whatever else fails and whatever else runs: where putting back succeeds, every server still
   on the authenticated endpoint it had holds its password when the command has ended.
   */
  lemma PasswordIsPutBack(job: Job, moves: seq<Move>, id: Id)
    requires WellFormed(job) && PutBacksSucceed(job, Initial(job), moves)
    requires var s := Run(job, Initial(job), moves);
             && s.phase.Finished? && id in job.vault && id in s.fleet.servers && id in job.start.servers
             && SameEndpoint(s.fleet.servers[id].proxy, job.start.servers[id].proxy)
    ensures var s := Run(job, Initial(job), moves); id in s.vault && s.vault[id] == job.vault[id]
  {
    NothingLost(job, Initial(job), moves);
    UnchangedProxyKeepsItsPassword(job, moves, id);
  }

  // ---- that it ends -------------------------------------------------------------------

  predicate InBounds(job: Job, s: State) {
    match s.phase
    case Reading(k) => k < |job.changes|
    case Deleting(k) => k < |job.changes|
    case Writing(k) => k <= |job.plan|
    case Saving(k) => k < |job.plan|
    case _ => true
  }

  /** An upper bound on the steps of its own the command still takes. */
  function StepsLeft(job: Job, s: State): nat
    requires InBounds(job, s)
  {
    match s.phase
    case Reading(k) => 3 * (|job.changes| - k) + |s.captured| + 2 * |job.plan| + 4
    case Deleting(k) => 3 * (|job.changes| - k) + |s.captured| + 2 * |job.plan| + 2
    case Undoing(todo) => |todo| + 1
    case Writing(k) => |s.captured| + 2 * (|job.plan| - k) + 3
    case Saving(k) => |s.captured| + 2 * (|job.plan| - k) + 2
    case Restoring(todo) => |todo| + 1
    case Finished(_) => 0
  }

  lemma {:induction false} RestorableShorter(captured: seq<Captured>, fleet: Fleet)
    ensures |Restorable(captured, fleet)| <= |captured|
    decreases |captured|
  {
    if captured != [] {
      RestorableShorter(captured[1..], fleet);
    }
  }

  lemma StepCounts(job: Job, s: State, m: Move)
    requires InBounds(job, s)
    ensures InBounds(job, Next(job, s, m))
    ensures m.Elsewhere? ==> StepsLeft(job, Next(job, s, m)) == StepsLeft(job, s)
    ensures !m.Elsewhere? ==> s.phase.Finished? || StepsLeft(job, Next(job, s, m)) < StepsLeft(job, s)
    ensures s.phase.Finished? ==> Next(job, s, m).phase == s.phase
  {
    RestorableShorter(s.captured, s.fleet);
  }

  function OwnMoves(moves: seq<Move>): nat {
    if moves == [] then 0 else (if moves[0].Elsewhere? then 0 else 1) + OwnMoves(moves[1..])
  }

  lemma {:induction false} RunEnds(job: Job, s: State, moves: seq<Move>)
    requires InBounds(job, s) && OwnMoves(moves) >= StepsLeft(job, s)
    ensures Run(job, s, moves).phase.Finished?
    decreases |moves|
  {
    if moves == [] {
      assert StepsLeft(job, s) == 0;
    } else {
      StepCounts(job, s, moves[0]);
      RunEnds(job, Next(job, s, moves[0]), moves[1..]);
    }
  }

  /** Whatever fails and whatever else runs, the command ends within a number of its own steps that the plan and its changes bound. */
  lemma CommandEnds(job: Job, moves: seq<Move>)
    requires OwnMoves(moves) >= 3 * |job.changes| + 2 * |job.plan| + 4
    ensures Run(job, Initial(job), moves).phase.Finished?
  {
    RunEnds(job, Initial(job), moves);
  }
}
