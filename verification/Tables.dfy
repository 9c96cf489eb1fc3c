/** The tables that a host's report is merged into (schema and models, internal/store/store.go,
    internal/store/models.go) and the statements that write them. Ids are numbers, 0 being the blank id. */
module Tables {
  import opened Wrappers

  type Id = nat

  const BLANK: Id := 0

  /** info stands for the columns a report overwrites, endpoint for the connection settings, which it does
      not touch. */
  datatype Server = Server(name: string, kind: string, nameCustom: bool, info: string, endpoint: string)

  datatype Stack = Stack(server: Id, name: string, kind: string)

  /** stack is BLANK when the container belongs to none; data stands for every column that a report
      simply overwrites. */
  datatype Container = Container(server: Id, stack: Id, docker: string, pinned: bool, data: string)

  type Stacks = map<Id, Stack>

  type Containers = map<Id, Container>

  /** updates holds at most one row per container, keyed by the container. */
  datatype Db = Db(servers: map<Id, Server>, stacks: Stacks, containers: Containers, updates: map<Id, string>)

  // ---------------------------------------------------------------- what a report carries

  datatype StackReport = StackReport(id: Id, name: string, kind: string)

  datatype ContainerReport = ContainerReport(id: Id, docker: string, stackId: Id, stackName: string, pinned: bool,
      data: string)

  predicate BlankStacks(rs: seq<StackReport>) { forall r :: r in rs ==> r.id == BLANK }

  predicate BlankContainers(rs: seq<ContainerReport>) { forall r :: r in rs ==> r.id == BLANK && r.stackId == BLANK }

  /** Committed, rejected by a uniqueness constraint, or lost to a failing statement. */
  datatype Outcome = Committed | Clashed | Lost

  predicate IsNewName(t: Stacks, server: Id, name: string)
  {
    forall i :: i in t && t[i].server == server ==> t[i].name != name
  }

  /** A name the server did not have is reported twice, which needs two new rows of the same name. */
  ghost predicate NewNameTwice(t: Stacks, server: Id, rs: seq<StackReport>)
  {
    exists j, k :: 0 <= j < k < |rs| && rs[j].name == rs[k].name && IsNewName(t, server, rs[k].name)
  }

  predicate IsNewDocker(t: Containers, server: Id, docker: string)
  {
    forall i :: i in t && t[i].server == server ==> t[i].docker != docker
  }

  ghost predicate NewDockerTwice(t: Containers, server: Id, rs: seq<ContainerReport>)
  {
    exists j, k :: 0 <= j < k < |rs| && rs[j].docker == rs[k].docker && IsNewDocker(t, server, rs[k].docker)
  }

  /** When an id or name is reported twice, the last report counts. */
  function LastStack(rs: seq<StackReport>, name: string): (r: Option<StackReport>)
    ensures r.Some? ==> r.value in rs && r.value.name == name
    ensures r.None? ==> forall x :: x in rs ==> x.name != name
  {
    if rs == [] then None
    else if rs[|rs| - 1].name == name then Some(rs[|rs| - 1])
    else LastStack(rs[..|rs| - 1], name)
  }

  function LastContainer(rs: seq<ContainerReport>, docker: string): (r: Option<ContainerReport>)
    ensures r.Some? ==> r.value in rs && r.value.docker == docker
    ensures r.None? ==> forall x :: x in rs ==> x.docker != docker
  {
    if rs == [] then None
    else if rs[|rs| - 1].docker == docker then Some(rs[|rs| - 1])
    else LastContainer(rs[..|rs| - 1], docker)
  }

  // ---------------------------------------------------------------- constraints

  ghost predicate UniqueStacks(t: Stacks)
  {
    forall i, j :: i in t && j in t && t[i].server == t[j].server && t[i].name == t[j].name ==> i == j
  }

  ghost predicate UniqueContainers(t: Containers)
  {
    forall i, j :: i in t && j in t && t[i].server == t[j].server && t[i].docker == t[j].docker ==> i == j
  }

  /** UNIQUE(server, stack name), UNIQUE(server, docker id), and both references: an update's container
      and a container's stack exist, the latter on the same server. */
  ghost predicate Consistent(db: Db)
  {
    && BLANK !in db.stacks && BLANK !in db.containers
    && UniqueStacks(db.stacks) && UniqueContainers(db.containers)
    && db.updates.Keys <= db.containers.Keys
    && forall i :: i in db.containers && db.containers[i].stack != BLANK ==>
         db.containers[i].stack in db.stacks && db.stacks[db.containers[i].stack].server == db.containers[i].server
  }

  // ---------------------------------------------------------------- statements

  /** INSERT ... ON CONFLICT(id) DO UPDATE: an existing row keeps its server. */
  function UpsertStack(t: Stacks, id: Id, server: Id, name: string, kind: string): Stacks
  {
    t[id := if id in t then t[id].(name := name, kind := kind) else Stack(server, name, kind)]
  }

  predicate StackClash(t: Stacks, id: Id, server: Id, name: string)
  {
    exists k :: k in t && k != id && t[k].name == name && t[k].server == if id in t then t[id].server else server
  }

  /** An existing row keeps its server, docker id and pin. */
  function UpsertContainer(t: Containers, id: Id, c: Container): Containers
  {
    t[id := if id in t then t[id].(stack := c.stack, data := c.data) else c]
  }

  predicate ContainerClash(t: Containers, id: Id, c: Container)
  {
    id !in t && exists k :: k in t && t[k].server == c.server && t[k].docker == c.docker
  }

  /** The kind of a known server is kept, and so are its endpoint and a name its operator chose; a new one has
      no endpoint. */
  function UpsertServer(servers: map<Id, Server>, id: Id, s: Server): map<Id, Server>
  {
    servers[id := if id in servers
                  then servers[id].(name := if servers[id].nameCustom then servers[id].name else s.name, info := s.info)
                  else s.(endpoint := "")]
  }

  /** What a report s makes of server id's row, and that it leaves every other row alone. */
  ghost predicate ServerReported(before: map<Id, Server>, after: map<Id, Server>, id: Id, s: Server)
  {
    && id in after && after[id].info == s.info
    && (id !in before ==> after[id] == s.(endpoint := ""))
    && (id in before ==>
          && after[id].kind == before[id].kind && after[id].endpoint == before[id].endpoint
          && after[id].nameCustom == before[id].nameCustom
          && after[id].name == if before[id].nameCustom then before[id].name else s.name)
    && (forall j :: j != id ==> (j in after <==> j in before))
    && forall j :: j in before && j != id ==> after[j] == before[j]
  }

  // ---------------------------------------------------------------- what a merged report means

  ghost predicate OtherStacksKept(t: Stacks, t': Stacks, server: Id)
  {
    && (forall i :: i in t && t[i].server != server ==> i in t' && t'[i] == t[i])
    && (forall i :: i in t' && t'[i].server != server ==> i in t && t'[i] == t[i])
  }

  /** The stack keeps its id if its name was known, and gets an unused one otherwise. */
  ghost predicate StackRow(t: Stacks, server: Id, r: StackReport, id: Id, row: Stack)
  {
    && row == Stack(server, r.name, r.kind)
    && (if id in t then t[id].server == server && t[id].name == r.name
        else id != BLANK && forall k :: k in t && t[k].server == server ==> t[k].name != r.name)
  }

  /** The server's stacks are exactly the reported ones. */
  ghost predicate StacksMerged(t: Stacks, t': Stacks, server: Id, rs: seq<StackReport>)
  {
    && OtherStacksKept(t, t', server) && UniqueStacks(t')
    && (forall i :: i in t' && t'[i].server == server ==>
          LastStack(rs, t'[i].name).Some? && StackRow(t, server, LastStack(rs, t'[i].name).value, i, t'[i]))
    && (forall r :: r in rs ==> exists i :: i in t' && t'[i].server == server && t'[i].name == r.name)
  }

  ghost predicate OtherContainersKept(t: Containers, t': Containers, server: Id)
  {
    && (forall i :: i in t && t[i].server != server ==> i in t' && t'[i] == t[i])
    && (forall i :: i in t' && t'[i].server != server ==> i in t && t'[i] == t[i])
  }

  function StackFor(byName: map<string, Id>, name: string): Id
  {
    if name != "" && name in byName then byName[name] else BLANK
  }

  /** The container keeps its id and pin if its docker id was known, and gets an unused id and the
      reported pin otherwise. */
  ghost predicate ContainerRow(t: Containers, server: Id, byName: map<string, Id>, r: ContainerReport, id: Id,
                               row: Container)
  {
    && row == Container(server, StackFor(byName, r.stackName), r.docker, row.pinned, r.data)
    && row.pinned == (if id in t then t[id].pinned else r.pinned)
    && (if id in t then t[id].server == server && t[id].docker == r.docker
        else id != BLANK && forall k :: k in t && t[k].server == server ==> t[k].docker != r.docker)
  }

  /** The server's containers are exactly the reported ones. */
  ghost predicate ContainersMerged(t: Containers, t': Containers, server: Id, byName: map<string, Id>,
                                   rs: seq<ContainerReport>)
  {
    && OtherContainersKept(t, t', server) && UniqueContainers(t')
    && (forall i :: i in t' && t'[i].server == server ==>
          LastContainer(rs, t'[i].docker).Some? &&
          ContainerRow(t, server, byName, LastContainer(rs, t'[i].docker).value, i, t'[i]))
    && (forall r :: r in rs ==> exists i :: i in t' && t'[i].server == server && t'[i].docker == r.docker)
  }

  /** byName names exactly the merged, non-blank stack names of the server. */
  ghost predicate Names(byName: map<string, Id>, t': Stacks, server: Id)
  {
    && (forall n :: n in byName ==> byName[n] in t' && t'[byName[n]].server == server && t'[byName[n]].name == n)
    && (forall i :: i in t' && t'[i].server == server && t'[i].name != "" ==> t'[i].name in byName)
  }

  /** What ReplaceServerSnapshot does to the database for a report with blank ids. */
  ghost predicate Snapshot(db: Db, db': Db, id: Id, s: Server, stacks: seq<StackReport>,
                           containers: seq<ContainerReport>)
  {
    && ServerReported(db.servers, db'.servers, id, s)
    && StacksMerged(db.stacks, db'.stacks, id, stacks)
    && (exists byName ::
          Names(byName, db'.stacks, id) && ContainersMerged(db.containers, db'.containers, id, byName, containers))
    && db'.updates == map c | c in db.updates && c in db'.containers :: db.updates[c]
  }

  /** Where a merged container belongs: to the server's stack of the reported name, if the report has one, and
      else to none. Its columns are those last reported. */
  lemma InItsStack(db: Db, db': Db, id: Id, s: Server, stacks: seq<StackReport>, containers: seq<ContainerReport>,
                   c: Id)
    requires Snapshot(db, db', id, s, stacks, containers) && c in db'.containers && db'.containers[c].server == id
    ensures LastContainer(containers, db'.containers[c].docker).Some?
    ensures var row, r := db'.containers[c], LastContainer(containers, db'.containers[c].docker).value;
            && row.data == r.data
            && (if r.stackName != "" && LastStack(stacks, r.stackName).Some?
                then row.stack in db'.stacks &&
                     db'.stacks[row.stack] == Stack(id, r.stackName, LastStack(stacks, r.stackName).value.kind)
                else row.stack == BLANK)
  {
    var byName :| Names(byName, db'.stacks, id) &&
        ContainersMerged(db.containers, db'.containers, id, byName, containers);
    var r := LastContainer(containers, db'.containers[c].docker).value;
    assert ContainerRow(db.containers, id, byName, r, c, db'.containers[c]);
    NamedStack(db.stacks, db'.stacks, id, stacks, byName, r.stackName);
  }

  lemma NamedStack(t: Stacks, t': Stacks, server: Id, stacks: seq<StackReport>, byName: map<string, Id>, name: string)
    requires StacksMerged(t, t', server, stacks) && Names(byName, t', server)
    ensures if name != "" && LastStack(stacks, name).Some?
            then var i := StackFor(byName, name);
                 i in t' && t'[i] == Stack(server, name, LastStack(stacks, name).value.kind)
            else StackFor(byName, name) == BLANK
  {
    if name != "" && LastStack(stacks, name).Some? {
      var r := LastStack(stacks, name).value;
      var i :| i in t' && t'[i].server == server && t'[i].name == r.name;
      assert byName[name] in t';
      assert StackRow(t, server, LastStack(stacks, t'[byName[name]].name).value, byName[name], t'[byName[name]]);
    } else if name in byName {
      assert LastStack(stacks, t'[byName[name]].name).Some?;
    }
  }

  /** A merged report keeps every constraint. */
  lemma SnapshotConsistent(db: Db, db': Db, id: Id, s: Server, stacks: seq<StackReport>,
                           containers: seq<ContainerReport>)
    requires Consistent(db) && Snapshot(db, db', id, s, stacks, containers)
    ensures Consistent(db')
  {
    var byName :| Names(byName, db'.stacks, id) &&
        ContainersMerged(db.containers, db'.containers, id, byName, containers);
    forall i | i in db'.stacks ensures i != BLANK {
      if db'.stacks[i].server == id { assert LastStack(stacks, db'.stacks[i].name).Some?; }
    }
    forall i | i in db'.containers
      ensures i != BLANK
      ensures var c := db'.containers[i]; c.stack != BLANK ==>
        c.stack in db'.stacks && db'.stacks[c.stack].server == c.server
    {
      var c := db'.containers[i];
      if c.server == id { assert LastContainer(containers, c.docker).Some?; }
    }
  }

  // ---------------------------------------------------------------- reporting the same again

  lemma SameStack(t: Stacks, t1: Stacks, t2: Stacks, server: Id, rs: seq<StackReport>, i: Id)
    requires StacksMerged(t, t1, server, rs) && StacksMerged(t1, t2, server, rs) && i in t2
    ensures i in t1 && t1[i] == t2[i]
  {
    if t2[i].server == server {
      var r := LastStack(rs, t2[i].name).value;
      assert StackRow(t1, server, r, i, t2[i]);
      var j :| j in t1 && t1[j].server == server && t1[j].name == r.name;
      assert StackRow(t, server, LastStack(rs, t1[j].name).value, j, t1[j]);
    }
  }

  lemma SameStacks(t: Stacks, t1: Stacks, t2: Stacks, server: Id, rs: seq<StackReport>)
    requires StacksMerged(t, t1, server, rs) && StacksMerged(t1, t2, server, rs)
    ensures t2 == t1
  {
    forall i | i in t2 ensures i in t1 && t1[i] == t2[i] { SameStack(t, t1, t2, server, rs, i); }
    forall i | i in t1 ensures i in t2 {
      if t1[i].server == server {
        var r := LastStack(rs, t1[i].name).value;
        var j :| j in t2 && t2[j].server == server && t2[j].name == r.name;
        SameStack(t, t1, t2, server, rs, j);
      }
    }
  }

  lemma SameContainer(t: Containers, t1: Containers, t2: Containers, server: Id, byName: map<string, Id>,
                      rs: seq<ContainerReport>, i: Id)
    requires ContainersMerged(t, t1, server, byName, rs) && ContainersMerged(t1, t2, server, byName, rs) && i in t2
    ensures i in t1 && t1[i] == t2[i]
  {
    if t2[i].server == server {
      var r := LastContainer(rs, t2[i].docker).value;
      assert ContainerRow(t1, server, byName, r, i, t2[i]);
      var j :| j in t1 && t1[j].server == server && t1[j].docker == r.docker;
      assert ContainerRow(t, server, byName, LastContainer(rs, t1[j].docker).value, j, t1[j]);
    }
  }

  lemma SameContainers(t: Containers, t1: Containers, t2: Containers, server: Id, byName: map<string, Id>,
                       rs: seq<ContainerReport>)
    requires ContainersMerged(t, t1, server, byName, rs) && ContainersMerged(t1, t2, server, byName, rs)
    ensures t2 == t1
  {
    forall i | i in t2 ensures i in t1 && t1[i] == t2[i] { SameContainer(t, t1, t2, server, byName, rs, i); }
    forall i | i in t1 ensures i in t2 {
      if t1[i].server == server { StillReported(t, t1, t2, server, byName, rs, i); }
    }
  }

  lemma StillReported(t: Containers, t1: Containers, t2: Containers, server: Id, byName: map<string, Id>,
                      rs: seq<ContainerReport>, i: Id)
    requires ContainersMerged(t, t1, server, byName, rs) && ContainersMerged(t1, t2, server, byName, rs)
    requires i in t1 && t1[i].server == server
    ensures i in t2
  {
    var r := LastContainer(rs, t1[i].docker).value;
    var j :| j in t2 && t2[j].server == server && t2[j].docker == r.docker;
    SameContainer(t, t1, t2, server, byName, rs, j);
  }

  /** Two readings of the same stack table name the same ids. */
  lemma MergedUnder(t: Containers, t': Containers, st: Stacks, server: Id, a: map<string, Id>, b: map<string, Id>,
                    rs: seq<ContainerReport>)
    requires Names(a, st, server) && Names(b, st, server) && UniqueStacks(st) && ContainersMerged(t, t', server, b, rs)
    ensures ContainersMerged(t, t', server, a, rs)
  {
    forall i | i in t' && t'[i].server == server
      ensures LastContainer(rs, t'[i].docker).Some?
      ensures ContainerRow(t, server, a, LastContainer(rs, t'[i].docker).value, i, t'[i])
    {
      SameNames(a, b, st, server, LastContainer(rs, t'[i].docker).value.stackName);
    }
  }

  lemma SameNames(a: map<string, Id>, b: map<string, Id>, t: Stacks, server: Id, name: string)
    requires Names(a, t, server) && Names(b, t, server) && UniqueStacks(t)
    ensures StackFor(a, name) == StackFor(b, name)
  {
  }

  /** Sending the same report again changes no stack, container or update. */
  lemma ReportIsIdempotent(db: Db, db1: Db, db2: Db, id: Id, s: Server, stacks: seq<StackReport>,
                           containers: seq<ContainerReport>)
    requires Consistent(db) && Snapshot(db, db1, id, s, stacks, containers)
    requires Snapshot(db1, db2, id, s, stacks, containers)
    ensures db2.stacks == db1.stacks && db2.containers == db1.containers && db2.updates == db1.updates
  {
    SameTables(db, db1, db2, id, s, stacks, containers);
    SameUpdates(db.updates, db1.updates, db2.updates, db1.containers);
  }

  lemma SameUpdates(before: map<Id, string>, once: map<Id, string>, twice: map<Id, string>, t: Containers)
    requires once == map c | c in before && c in t :: before[c]
    requires twice == map c | c in once && c in t :: once[c]
    ensures twice == once
  {
  }

  lemma SameTables(db: Db, db1: Db, db2: Db, id: Id, s: Server, stacks: seq<StackReport>,
                   containers: seq<ContainerReport>)
    requires Snapshot(db, db1, id, s, stacks, containers) && Snapshot(db1, db2, id, s, stacks, containers)
    ensures db2.stacks == db1.stacks && db2.containers == db1.containers
  {
    SameStacks(db.stacks, db1.stacks, db2.stacks, id, stacks);
    var a :| Names(a, db1.stacks, id) && ContainersMerged(db.containers, db1.containers, id, a, containers);
    var b :| Names(b, db2.stacks, id) && ContainersMerged(db1.containers, db2.containers, id, b, containers);
    assert UniqueStacks(db1.stacks);
    ContainersAgain(db.containers, db1.containers, db2.containers, db1.stacks, id, a, b, containers);
  }

  lemma ContainersAgain(t: Containers, t1: Containers, t2: Containers, st: Stacks, server: Id, a: map<string, Id>,
                        b: map<string, Id>, rs: seq<ContainerReport>)
    requires Names(a, st, server) && Names(b, st, server) && UniqueStacks(st)
    requires ContainersMerged(t, t1, server, a, rs) && ContainersMerged(t1, t2, server, b, rs)
    ensures t2 == t1
  {
    MergedUnder(t1, t2, st, server, a, b, rs);
    SameContainers(t, t1, t2, server, a, rs);
  }
}
