/** Runs of the store: any interleaving of host reports, pins, renames, update rows and removals
    (internal/store/entities.go, internal/store/extra.go). Each call either takes effect or leaves the
    database as it was. */
module StoreRuns {
  import opened Tables
  import opened Wrappers

  datatype Op =
    | Report(id: Id, server: Server, stacks: seq<StackReport>, containers: seq<ContainerReport>)
    | Create(id: Id, server: Server)
    | Rename(id: Id, name: string)
    | Touch(id: Id, endpoint: string)
    | Remove(id: Id)
    | Pin(id: Id, pinned: bool)
    | PutUpdate(id: Id, update: string)
    | DropUpdate(id: Id)

  datatype Event = Event(op: Op, ok: bool)

  function Removed(db: Db, id: Id): Db
  {
    var containers := map c | c in db.containers && db.containers[c].server != id :: db.containers[c];
    Db(db.servers - {id},
       map s | s in db.stacks && db.stacks[s].server != id :: db.stacks[s],
       containers,
       map c | c in db.updates && c in containers :: db.updates[c])
  }

  /** What a successful call does. */
  ghost predicate Effect(db: Db, op: Op, db': Db)
  {
    match op
    case Report(id, s, stacks, containers) =>
      BlankStacks(stacks) && BlankContainers(containers) && Snapshot(db, db', id, s, stacks, containers)
    case Create(id, s) => id !in db.servers && db' == db.(servers := db.servers[id := s])
    case Rename(id, name) =>
      db' == if id !in db.servers then db
             else db.(servers := db.servers[id := db.servers[id].(name := name, nameCustom := true)])
    case Touch(id, endpoint) =>
      db' == if id in db.servers then db.(servers := db.servers[id := db.servers[id].(endpoint := endpoint)]) else db
    case Remove(id) => db' == Removed(db, id)
    case Pin(id, pinned) =>
      db' == if id in db.containers
          then db.(containers := db.containers[id := db.containers[id].(pinned := pinned)]) else db
    case PutUpdate(id, u) => id in db.containers && db' == db.(updates := db.updates[id := u])
    case DropUpdate(id) => db' == db.(updates := db.updates - {id})
  }

  ghost predicate Step(db: Db, e: Event, db': Db)
  {
    if e.ok then Effect(db, e.op, db') else db' == db
  }

  ghost predicate Run(states: seq<Db>, events: seq<Event>)
  {
    && |states| == |events| + 1 && Consistent(states[0])
    && forall k :: 0 <= k < |events| ==> Step(states[k], events[k], states[k + 1])
  }

  // ---------------------------------------------------------------- the constraints are kept

  lemma StepConsistent(db: Db, e: Event, db': Db)
    requires Consistent(db) && Step(db, e, db')
    ensures Consistent(db')
  {
    if e.ok {
      if e.op.Report? {
        SnapshotConsistent(db, db', e.op.id, e.op.server, e.op.stacks, e.op.containers);
      } else if e.op.Remove? {
        RemovedConsistent(db, e.op.id);
      } else if e.op.Pin? {
        if e.op.id in db.containers { PinnedConsistent(db, e.op.id, e.op.pinned); }
      } else {
        RowsAlike(db, db');
      }
    }
  }

  /** Statements that touch neither stacks nor containers, and give no missing container an update. */
  lemma RowsAlike(db: Db, db': Db)
    requires Consistent(db) && db'.stacks == db.stacks && db'.containers == db.containers
    requires db'.updates.Keys <= db.containers.Keys
    ensures Consistent(db')
  {
  }

  lemma PinnedConsistent(db: Db, id: Id, pinned: bool)
    requires Consistent(db) && id in db.containers
    ensures Consistent(db.(containers := db.containers[id := db.containers[id].(pinned := pinned)]))
  {
    var containers := db.containers[id := db.containers[id].(pinned := pinned)];
    assert containers.Keys == db.containers.Keys;
  }

  lemma RemovedConsistent(db: Db, id: Id)
    requires Consistent(db)
    ensures Consistent(Removed(db, id))
  {
  }

  /** Removing a server takes its own rows, with the updates of its containers, and no others. */
  lemma RemovedIsExact(db: Db, id: Id)
    ensures var d := Removed(db, id);
            && (forall s :: s in d.servers <==> s in db.servers && s != id)
            && (forall s :: s in d.stacks <==> s in db.stacks && db.stacks[s].server != id)
            && (forall c :: c in d.containers <==> c in db.containers && db.containers[c].server != id)
            && (forall c :: c in d.updates <==> c in db.updates && c in d.containers)
            && (forall s :: s in d.servers ==> d.servers[s] == db.servers[s])
            && (forall s :: s in d.stacks ==> d.stacks[s] == db.stacks[s])
            && (forall c :: c in d.containers ==> d.containers[c] == db.containers[c])
            && (forall c :: c in d.updates ==> d.updates[c] == db.updates[c])
  {
  }

  lemma {:induction false} RunConsistent(states: seq<Db>, events: seq<Event>, k: nat)
    requires Run(states, events) && k < |states|
    ensures Consistent(states[k])
  {
    if k > 0 {
      RunConsistent(states, events, k - 1);
      StepConsistent(states[k - 1], events[k - 1], states[k]);
    }
  }

  // ---------------------------------------------------------------- ids, pins and updates

  /** Docker id d of server s is in the table, under id. */
  predicate Holds(db: Db, s: Id, d: string, id: Id)
  {
    id in db.containers && db.containers[id].server == s && db.containers[id].docker == d
  }

  ghost predicate Present(db: Db, s: Id, d: string) { exists id :: Holds(db, s, d, id) }

  ghost predicate PresentThroughout(states: seq<Db>, s: Id, d: string, a: nat, b: nat)
    requires b < |states|
  {
    forall k :: a <= k <= b ==> Present(states[k], s, d)
  }

  function PinSet(e: Event, id: Id, before: bool): bool
  {
    if e.ok && e.op.Pin? && e.op.id == id then e.op.pinned else before
  }

  function UpdateSet(e: Event, id: Id, before: Option<string>): Option<string>
  {
    if !e.ok then before
    else if e.op.PutUpdate? && e.op.id == id then Some(e.op.update)
    else if e.op.DropUpdate? && e.op.id == id then None
    else before
  }

  /** The pin after events a..b: the last successful SetContainerPinned among them, else what it was. */
  function PinAfter(events: seq<Event>, a: nat, b: nat, id: Id, before: bool): bool
    requires b <= |events|
  {
    if b <= a then before else PinSet(events[b - 1], id, PinAfter(events, a, b - 1, id, before))
  }

  /** Likewise for the container's update row. */
  function UpdateAfter(events: seq<Event>, a: nat, b: nat, id: Id, before: Option<string>): Option<string>
    requires b <= |events|
  {
    if b <= a then before else UpdateSet(events[b - 1], id, UpdateAfter(events, a, b - 1, id, before))
  }

  function UpdateOf(db: Db, id: Id): Option<string>
  {
    if id in db.updates then Some(db.updates[id]) else None
  }

  lemma ReportKeepsIdentity(db: Db, op: Op, db': Db, s: Id, d: string, id: Id, id': Id)
    requires UniqueContainers(db.containers) && op.Report? && Effect(db, op, db') && Holds(db, s, d, id)
    requires Holds(db', s, d, id')
    ensures id' == id && db'.containers[id].pinned == db.containers[id].pinned && UpdateOf(db', id) == UpdateOf(db, id)
  {
    var byName :| Names(byName, db'.stacks, op.id) &&
        ContainersMerged(db.containers, db'.containers, op.id, byName, op.containers);
    if s == op.id {
      var r := LastContainer(op.containers, d).value;
      assert ContainerRow(db.containers, s, byName, r, id', db'.containers[id']);
    }
  }

  lemma OthersKeepIdentity(db: Db, e: Event, db': Db, s: Id, d: string, id: Id, id': Id)
    requires UniqueContainers(db.containers) && !e.op.Report? && Effect(db, e.op, db') && Holds(db, s, d, id)
    requires Holds(db', s, d, id')
    ensures id' == id && (e.ok ==> db'.containers[id].pinned == PinSet(e, id, db.containers[id].pinned))
    ensures e.ok ==> UpdateOf(db', id) == UpdateSet(e, id, UpdateOf(db, id))
  {
    assert Holds(db, s, d, id');
  }

  lemma StepKeepsIdentity(db: Db, e: Event, db': Db, s: Id, d: string, id: Id)
    requires UniqueContainers(db.containers) && Step(db, e, db') && Holds(db, s, d, id) && Present(db', s, d)
    ensures Holds(db', s, d, id)
    ensures db'.containers[id].pinned == PinSet(e, id, db.containers[id].pinned)
    ensures UpdateOf(db', id) == UpdateSet(e, id, UpdateOf(db, id))
  {
    var id' :| Holds(db', s, d, id');
    if e.ok {
      if e.op.Report? {
        ReportKeepsIdentity(db, e.op, db', s, d, id, id');
      } else {
        OthersKeepIdentity(db, e, db', s, d, id, id');
      }
    }
  }

  /** One call leaves the container its id, and its pin and update row as the call says. */
  ghost predicate Carries(db: Db, e: Event, db': Db, s: Id, d: string, id: Id)
  {
    Holds(db, s, d, id) ==> Holds(db', s, d, id) && Written(db, db', e, id)
  }

  ghost predicate Written(db: Db, db': Db, e: Event, id: Id)
    requires id in db.containers && id in db'.containers
  {
    && db'.containers[id].pinned == PinSet(e, id, db.containers[id].pinned)
    && UpdateOf(db', id) == UpdateSet(e, id, UpdateOf(db, id))
  }

  lemma CarriesAt(states: seq<Db>, events: seq<Event>, k: nat, s: Id, d: string, id: Id)
    requires Run(states, events) && k < |events| && Present(states[k + 1], s, d)
    ensures Carries(states[k], events[k], states[k + 1], s, d, id)
  {
    RunConsistent(states, events, k);
    if Holds(states[k], s, d, id) { StepKeepsIdentity(states[k], events[k], states[k + 1], s, d, id); }
  }

  lemma {:induction false} Carried(states: seq<Db>, events: seq<Event>, s: Id, d: string, id: Id, a: nat, b: nat)
    requires a <= b < |states| == |events| + 1 && Holds(states[a], s, d, id)
    requires forall k :: a <= k < b ==> Carries(states[k], events[k], states[k + 1], s, d, id)
    ensures Holds(states[b], s, d, id)
    ensures states[b].containers[id].pinned == PinAfter(events, a, b, id, states[a].containers[id].pinned)
    ensures UpdateOf(states[b], id) == UpdateAfter(events, a, b, id, UpdateOf(states[a], id))
    decreases b
  {
    if a < b {
      Carried(states, events, s, d, id, a, b - 1);
      assert Carries(states[b - 1], events[b - 1], states[b - 1 + 1], s, d, id);
    }
  }

  /** A container reported without interruption keeps its id; its pin is the last one set meanwhile, and
      its update row the last one written. */
  lemma IdentityIsStable(states: seq<Db>, events: seq<Event>, s: Id, d: string, id: Id, a: nat, b: nat)
    requires Run(states, events) && a <= b < |states|
    requires PresentThroughout(states, s, d, a, b) && Holds(states[a], s, d, id)
    ensures Holds(states[b], s, d, id)
    ensures states[b].containers[id].pinned == PinAfter(events, a, b, id, states[a].containers[id].pinned)
    ensures UpdateOf(states[b], id) == UpdateAfter(events, a, b, id, UpdateOf(states[a], id))
  {
    forall k | a <= k < b ensures Carries(states[k], events[k], states[k + 1], s, d, id) {
      CarriesAt(states, events, k, s, d, id);
    }
    Carried(states, events, s, d, id, a, b);
  }

  /** A container appears only through a report, with the pin the report carries, an unused id and no
      update row. */
  lemma AppearsAsReported(states: seq<Db>, events: seq<Event>, k: nat, s: Id, d: string, id: Id)
    requires Run(states, events) && k < |events|
    requires !Present(states[k], s, d) && Holds(states[k + 1], s, d, id)
    ensures events[k].ok && events[k].op.Report? && events[k].op.id == s
    ensures LastContainer(events[k].op.containers, d).Some?
    ensures states[k + 1].containers[id].pinned == LastContainer(events[k].op.containers, d).value.pinned
    ensures id !in states[k].containers && UpdateOf(states[k + 1], id) == None
  {
    var db, db', op := states[k], states[k + 1], events[k].op;
    RunConsistent(states, events, k);
    assert !Holds(db, s, d, id);
    if op.Report? && s == op.id {
      var byName :| Names(byName, db'.stacks, s) &&
          ContainersMerged(db.containers, db'.containers, s, byName, op.containers);
      var r := LastContainer(op.containers, d).value;
      assert ContainerRow(db.containers, s, byName, r, id, db'.containers[id]);
    }
  }

  // ---------------------------------------------------------------- servers

  ghost predicate KnownThroughout(states: seq<Db>, id: Id, a: nat, b: nat)
    requires b < |states|
  {
    forall k :: a <= k <= b ==> id in states[k].servers
  }

  function NameSet(e: Event, id: Id, before: string): string
  {
    if e.ok && e.op.Rename? && e.op.id == id then e.op.name else before
  }

  /** The last name set by hand among events a..b, else what it was. */
  function NameAfter(events: seq<Event>, a: nat, b: nat, id: Id, before: string): string
    requires b <= |events|
  {
    if b <= a then before else NameSet(events[b - 1], id, NameAfter(events, a, b - 1, id, before))
  }

  /** One call leaves a known server its kind, and a chosen name unless it is a rename. */
  ghost predicate KeepsServer(db: Db, e: Event, db': Db, id: Id)
  {
    && id in db.servers && id in db'.servers && db'.servers[id].kind == db.servers[id].kind
    && (db.servers[id].nameCustom ==>
          db'.servers[id].nameCustom && db'.servers[id].name == NameSet(e, id, db.servers[id].name))
  }

  lemma KeepsServerAt(states: seq<Db>, events: seq<Event>, id: Id, k: nat)
    requires Run(states, events) && k < |events| && id in states[k].servers && id in states[k + 1].servers
    ensures KeepsServer(states[k], events[k], states[k + 1], id)
  {
    assert Step(states[k], events[k], states[k + 1]);
  }

  lemma {:induction false} ServerKept(states: seq<Db>, events: seq<Event>, id: Id, a: nat, b: nat)
    requires a <= b < |states| == |events| + 1 && id in states[a].servers
    requires forall k :: a <= k < b ==> KeepsServer(states[k], events[k], states[k + 1], id)
    ensures id in states[b].servers && states[b].servers[id].kind == states[a].servers[id].kind
    ensures states[a].servers[id].nameCustom ==> states[b].servers[id].nameCustom
    ensures states[a].servers[id].nameCustom ==>
      states[b].servers[id].name == NameAfter(events, a, b, id, states[a].servers[id].name)
    decreases b
  {
    if a < b {
      ServerKept(states, events, id, a, b - 1);
      assert KeepsServer(states[b - 1], events[b - 1], states[b - 1 + 1], id);
    }
  }

  /** A server's kind never changes, and once its name was chosen by hand only a rename changes it. */
  lemma ServerIsStable(states: seq<Db>, events: seq<Event>, id: Id, a: nat, b: nat)
    requires Run(states, events) && a <= b < |states| && KnownThroughout(states, id, a, b)
    ensures states[b].servers[id].kind == states[a].servers[id].kind
    ensures states[a].servers[id].nameCustom ==> states[b].servers[id].nameCustom
    ensures states[a].servers[id].nameCustom ==>
      states[b].servers[id].name == NameAfter(events, a, b, id, states[a].servers[id].name)
  {
    forall k | a <= k < b ensures KeepsServer(states[k], events[k], states[k + 1], id) {
      KeepsServerAt(states, events, id, k);
    }
    ServerKept(states, events, id, a, b);
  }

  /** What one successful call says about a known server. */
  function ServerSet(e: Event, id: Id, s: Server): Server
  {
    if !e.ok then s
    else match e.op
      case Report(who, r, _, _) =>
        if who != id then s else s.(info := r.info, name := if s.nameCustom then s.name else r.name)
      case Rename(who, name) => if who != id then s else s.(name := name, nameCustom := true)
      case Touch(who, endpoint) => if who != id then s else s.(endpoint := endpoint)
      case _ => s
  }

  function ServerAfter(events: seq<Event>, a: nat, b: nat, id: Id, before: Server): Server
    requires b <= |events|
  {
    if b <= a then before else ServerSet(events[b - 1], id, ServerAfter(events, a, b - 1, id, before))
  }

  /** Over any run a known server's row is what its reports, renames and endpoint changes make of it, in the
      order they came, and nothing else. */
  lemma {:induction false} ServerFollowsItsEvents(states: seq<Db>, events: seq<Event>, id: Id, a: nat, b: nat)
    requires Run(states, events) && a <= b < |states| && KnownThroughout(states, id, a, b)
    ensures states[b].servers[id] == ServerAfter(events, a, b, id, states[a].servers[id])
    decreases b
  {
    if a < b {
      assert KnownThroughout(states, id, a, b - 1);
      ServerFollowsItsEvents(states, events, id, a, b - 1);
      assert Step(states[b - 1], events[b - 1], states[b - 1 + 1]);
    }
  }

  /** After a rename the name stands until the next one, whatever hosts report. */
  lemma RenameSticks(states: seq<Db>, events: seq<Event>, id: Id, k: nat, b: nat)
    requires Run(states, events) && k < b < |states| && KnownThroughout(states, id, k, b)
    requires events[k].ok && events[k].op.Rename? && events[k].op.id == id
    ensures states[b].servers[id].nameCustom
    ensures states[b].servers[id].name == NameAfter(events, k + 1, b, id, events[k].op.name)
  {
    assert Step(states[k], events[k], states[k + 1]);
    ServerIsStable(states, events, id, k + 1, b);
  }
}
