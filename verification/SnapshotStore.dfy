/** The store object and the calls that write the tables (internal/store/entities.go:206-209, 322-341,
    530-689; internal/store/extra.go:31-67, 95-115). Unless the store is reliable, any statement may fail. */
module SnapshotStore {
  import opened Tables
  import opened StoreRuns
  import opened Wrappers
  import Merge

  class Store {
    const reliable: bool
    var db: Db

    constructor (reliable: bool)
      ensures this.reliable == reliable && db == Db(map[], map[], map[], map[]) && Consistent(db)
    {
      this.reliable, db := reliable, Db(map[], map[], map[], map[]);
    }

    /** One transaction: unless it commits, the database is as it was. With blank ids it is rejected
        exactly when a stack name or docker id that the server did not have is reported twice. complete
        is false when one of the two reads of known rows ended early, which is not noticed: then rows
        that vanished may stay, but what belongs to other hosts is still untouched. */
    method ReplaceServerSnapshot(id: Id, s: Server, stacks: seq<StackReport>, containers: seq<ContainerReport>)
      returns (out: Outcome, complete: bool)
      requires Consistent(db)
      modifies this
      ensures out != Committed ==> db == old(db)
      ensures UniqueStacks(db.stacks) && UniqueContainers(db.containers) && db.updates.Keys <= db.containers.Keys
      ensures reliable ==> out != Lost && complete
      ensures out == Clashed ==> stacks != [] || exists r :: r in containers && r.id !in old(db).containers
      // The host's own row, whatever the report carries.
      ensures out == Committed ==> ServerReported(old(db).servers, db.servers, id, s)
      // Other hosts' rows: stacks and containers are kept exactly when the report does not claim them.
      ensures out == Committed ==>
        (OtherStacksKept(old(db).stacks, db.stacks, id) <==> Merge.NoStackClaims(old(db).stacks, id, stacks))
      ensures out == Committed && complete ==>
        (OtherContainersKept(old(db).containers, db.containers, id) <==>
          Merge.NoContainerClaims(old(db), id, stacks, containers))
      ensures out == Committed && complete ==>
        forall g :: g in old(db).containers && old(db).containers[g].server != id ==>
          var row := old(db).containers[g];
          g in db.containers && db.containers[g] ==
            row.(stack := db.containers[g].stack, data := Merge.DataAfter(old(db).containers, id, containers, g))
      ensures out == Committed && BlankStacks(stacks) ==> OtherStacksKept(old(db).stacks, db.stacks, id)
      ensures out == Committed && BlankContainers(containers) ==>
        OtherContainersKept(old(db).containers, db.containers, id)
      ensures out == Committed && complete && BlankStacks(stacks) && BlankContainers(containers) ==> Consistent(db)
      ensures complete && BlankStacks(stacks) && BlankContainers(containers) ==>
        Step(old(db), Event(Report(id, s, stacks, containers), out == Committed), db)
      ensures out != Lost && complete && BlankStacks(stacks) && BlankContainers(containers) ==>
        (out == Clashed <==>
          NewNameTwice(old(db).stacks, id, stacks) || NewDockerTwice(old(db).containers, id, containers))
    {
      complete := false;
      if !reliable {
        if * { return Lost, complete; }
      }
      var servers := UpsertServer(db.servers, id, s);
      var stacks', names, containers', updates', all;
      out, complete, stacks', names := Merge.MergeStacks(db.stacks, id, stacks, reliable);
      if out != Committed { return; }
      if BlankStacks(stacks) { Merge.BlankClaimsNoStack(db.stacks, id, stacks); }
      out, all, containers', updates' := Merge.MergeContainers(db.containers, db.updates, id, names, containers,
        reliable);
      complete := complete && all;
      if out != Committed { return; }
      if !reliable {
        if * { return Lost, complete; }
      }
      if complete { Merge.ClaimsFromTheReport(db, id, stacks, names, containers); }
      ghost var before := db;
      db := Db(servers, stacks', containers', updates');
      if complete && BlankStacks(stacks) && BlankContainers(containers) {
        assert Snapshot(before, db, id, s, stacks, containers);
        StepConsistent(before, Event(Report(id, s, stacks, containers), true), db);
      }
    }

    method CreateServer(id: Id, s: Server) returns (ok: bool)
      requires Consistent(db)
      modifies this
      ensures Step(old(db), Event(Create(id, s), ok), db) && Consistent(db)
      ensures reliable ==> (ok <==> id !in old(db).servers)
    {
      ok := false;
      if !reliable {
        if * { return; }
      }
      if id !in db.servers { db, ok := db.(servers := db.servers[id := s]), true; }
    }

    method UpdateServerName(id: Id, name: string) returns (ok: bool)
      requires Consistent(db)
      modifies this
      ensures Step(old(db), Event(Rename(id, name), ok), db) && Consistent(db)
      ensures reliable ==> ok
    {
      if !reliable {
        if * { return false; }
      }
      if id in db.servers { db := db.(servers := db.servers[id := db.servers[id].(name := name, nameCustom := true)]); }
      ok := true;
    }

    method UpdateServerEndpoint(id: Id, endpoint: string) returns (ok: bool)
      requires Consistent(db)
      modifies this
      ensures Step(old(db), Event(Touch(id, endpoint), ok), db) && Consistent(db)
      ensures reliable ==> ok
    {
      if !reliable {
        if * { return false; }
      }
      if id in db.servers { db := db.(servers := db.servers[id := db.servers[id].(endpoint := endpoint)]); }
      ok := true;
    }

    /** Containers, with their updates, then stacks, then the server; all or nothing. */
    method DeleteServerCascade(id: Id) returns (ok: bool)
      requires Consistent(db)
      modifies this
      ensures Step(old(db), Event(Remove(id), ok), db) && Consistent(db)
      ensures reliable ==> ok
    {
      if !reliable {
        if * { return false; }
      }
      var containers := map c | c in db.containers && db.containers[c].server != id :: db.containers[c];
      var updates := map c | c in db.updates && c in containers :: db.updates[c];
      if !reliable {
        if * { return false; }
      }
      var stacks := map s | s in db.stacks && db.stacks[s].server != id :: db.stacks[s];
      if !reliable {
        if * { return false; }
      }
      var servers := db.servers - {id};
      if !reliable {
        if * { return false; }
      }
      ghost var before := db;
      db, ok := Db(servers, stacks, containers, updates), true;
      StepConsistent(before, Event(Remove(id), true), db);
    }

    method SetContainerPinned(id: Id, pinned: bool) returns (ok: bool)
      requires Consistent(db)
      modifies this
      ensures Step(old(db), Event(Pin(id, pinned), ok), db) && Consistent(db)
      ensures reliable ==> ok
    {
      if !reliable {
        if * { return false; }
      }
      ghost var before := db;
      if id in db.containers { db := db.(containers := db.containers[id := db.containers[id].(pinned := pinned)]); }
      ok := true;
      StepConsistent(before, Event(Pin(id, pinned), true), db);
    }

    /** An update row needs its container. */
    method UpsertUpdate(id: Id, update: string) returns (ok: bool)
      requires Consistent(db)
      modifies this
      ensures Step(old(db), Event(PutUpdate(id, update), ok), db) && Consistent(db)
      ensures reliable ==> (ok <==> id in old(db).containers)
    {
      ok := false;
      if !reliable {
        if * { return; }
      }
      if id in db.containers { db, ok := db.(updates := db.updates[id := update]), true; }
    }

    method DeleteUpdate(id: Id) returns (ok: bool)
      requires Consistent(db)
      modifies this
      ensures Step(old(db), Event(DropUpdate(id), ok), db) && Consistent(db)
      ensures reliable ==> ok
    {
      if !reliable {
        if * { return false; }
      }
      db, ok := db.(updates := db.updates - {id}), true;
    }
  }

  /** It happens: host 2 reports a container of its own under the id of host 1's, and the row of host 1 then
      reads as host 2 said. */
  method ForeignIdReported() returns (store: Store, id: Id)
    ensures fresh(store) && id in store.db.containers
    ensures var row := store.db.containers[id]; row.server == 1 && row.docker == "a" && row.data == "seen on host 2"
  {
    store := new Store(true);
    id := FirstReport(store);
    var second := [ContainerReport(id, "b", BLANK, "", false, "seen on host 2")];
    var out, complete := store.ReplaceServerSnapshot(2, Server("two", "agent", false, "", ""), [], second);
    assert Merge.LastClaim(map[id := Container(1, BLANK, "a", false, "seen on host 1")], 2, second, id) ==
      Some(second[0]);
  }

  /** Host 1 reports one container to a new store. */
  method FirstReport(store: Store) returns (id: Id)
    requires store.reliable && Consistent(store.db) && store.db.containers == map[]
    modifies store
    ensures Consistent(store.db) && id in store.db.containers
    ensures store.db.containers[id] == Container(1, BLANK, "a", false, "seen on host 1")
    ensures store.db.containers.Keys == {id}
  {
    var s := Server("one", "agent", false, "", "");
    var rs := [ContainerReport(BLANK, "a", BLANK, "", false, "seen on host 1")];
    ghost var before := store.db;
    var out, complete := store.ReplaceServerSnapshot(1, s, [], rs);
    assert Snapshot(before, store.db, 1, s, [], rs);
    OneContainer(before, store.db, s, rs);
    id :| id in store.db.containers;
  }

  lemma OneContainer(db: Db, db': Db, s: Server, rs: seq<ContainerReport>)
    requires Snapshot(db, db', 1, s, [], rs) && db.containers == map[] && |rs| == 1
    requires rs[0].stackId == BLANK && rs[0].stackName == ""
    ensures db'.containers.Keys != {}
    ensures forall i :: i in db'.containers ==>
      db'.containers[i] == Container(1, BLANK, rs[0].docker, rs[0].pinned, rs[0].data)
    ensures forall i, j :: i in db'.containers && j in db'.containers ==> i == j
  {
    var byName :| Names(byName, db'.stacks, 1) && ContainersMerged(db.containers, db'.containers, 1, byName, rs);
    assert rs[0] in rs;
    forall i | i in db'.containers
      ensures db'.containers[i] == Container(1, BLANK, rs[0].docker, rs[0].pinned, rs[0].data)
    {
      var r := LastContainer(rs, db'.containers[i].docker).value;
      assert r in rs && r == rs[0];
    }
  }
}
