/** Schema migrations (migrations, migrate and addColumn, internal/store/store.go). A database is its two
    migrated tables and the set of recorded versions; a transaction commits as a whole or not at all. */
module Migrations {
  import opened Wrappers

  type Row = map<string, string>

  /** Every row has a value in every column. */
  datatype Table = Table(columns: set<string>, rows: map<nat, Row>)

  datatype Db = Db(servers: Option<Table>, containers: Option<Table>, versions: set<nat>)

  datatype Name = Servers | Containers

  datatype Action = AddColumn(table: Name, column: string, fill: string) | MarkLocal

  datatype Migration = Migration(version: nat, actions: seq<Action>)

  /** NULL stands for the absent value. */
  const NULL := ""

  /** In the order they are listed, which is not the numeric one. */
  const MIGRATIONS: seq<Migration> := [
    Migration(1, [AddColumn(Servers, "kind", "agent"), AddColumn(Servers, "docker_host", NULL),
                  AddColumn(Servers, "tls_ca", NULL), AddColumn(Servers, "tls_cert", NULL),
                  AddColumn(Servers, "tls_key", NULL), MarkLocal]),
    Migration(2, [AddColumn(Containers, "systemd_unit", NULL), AddColumn(Containers, "managed", "0")]),
    Migration(3, [AddColumn(Servers, "name_custom", "0")]),
    Migration(5, [AddColumn(Servers, "agent_version", NULL), AddColumn(Servers, "agent_image", NULL),
                  AddColumn(Servers, "agent_digest", NULL)]),
    Migration(4, [AddColumn(Servers, "swarm_role", "none"), AddColumn(Servers, "swarm_services", "0"),
                  AddColumn(Containers, "swarm_service_id", NULL), AddColumn(Containers, "swarm_service_name", NULL),
                  AddColumn(Containers, "swarm_task_id", NULL), AddColumn(Containers, "swarm_node_id", NULL)])]

  const SERVER_COLUMNS: set<string> :=
    {"id", "name", "is_local", "status", "last_seen", "docker_version", "os", "arch", "cpus", "memory_bytes", "labels",
     "agent_token_hash", "kind", "docker_host", "tls_ca", "tls_cert", "tls_key", "name_custom", "swarm_role",
     "swarm_services", "agent_version", "agent_image", "agent_digest", "created_at", "updated_at"}

  const CONTAINER_COLUMNS: set<string> :=
    {"id", "server_id", "stack_id", "docker_id", "name", "image", "image_name", "image_tag", "image_digest", "registry",
     "repository", "state", "status", "running", "restart_policy", "compose_service", "created_at", "started_at",
     "labels", "ports", "pinned", "systemd_unit", "managed", "swarm_service_id", "swarm_service_name",
     "swarm_task_id", "swarm_node_id", "updated_at"}

  /** CREATE TABLE IF NOT EXISTS: a new database gets every column at once. */
  function Base(db: Db): Db
  {
    db.(servers := Some(if db.servers.Some? then db.servers.value else Table(SERVER_COLUMNS, map[])),
        containers := Some(if db.containers.Some? then db.containers.value else Table(CONTAINER_COLUMNS, map[])))
  }

  predicate HasTables(db: Db) { db.servers.Some? && db.containers.Some? }

  function Get(db: Db, n: Name): Table
    requires HasTables(db)
  {
    if n == Servers then db.servers.value else db.containers.value
  }

  function Put(db: Db, n: Name, t: Table): Db
  {
    if n == Servers then db.(servers := Some(t)) else db.(containers := Some(t))
  }

  predicate IsLocal(r: Row) { "is_local" in r && r["is_local"] == "1" }

  /** addColumn skips a column that is already there; MarkLocal is the one statement that changes data. */
  function Apply(db: Db, a: Action): (d: Db)
    requires HasTables(db)
    ensures HasTables(d) && d.versions == db.versions
  {
    match a
    case AddColumn(n, column, fill) =>
      var t := Get(db, n);
      if column in t.columns then db
      else Put(db, n, Table(t.columns + {column}, map i | i in t.rows :: t.rows[i][column := fill]))
    case MarkLocal =>
      var t := Get(db, Servers);
      Put(db, Servers, t.(rows := map i | i in t.rows ::
        if IsLocal(t.rows[i]) then t.rows[i]["kind" := "local"]
        else t.rows[i]))
  }

  function ApplyAll(db: Db, actions: seq<Action>): (d: Db)
    requires HasTables(db)
    ensures HasTables(d) && d.versions == db.versions
    decreases |actions|
  {
    if actions == [] then db else Apply(ApplyAll(db, actions[..|actions| - 1]), actions[|actions| - 1])
  }

  /** One migration, committed: skipped when its version is recorded, else applied and recorded. */
  function Migrated(db: Db, m: Migration): (d: Db)
    requires HasTables(db)
    ensures HasTables(d) && d.versions == db.versions + {m.version}
  {
    if m.version in db.versions then db
    else var d := ApplyAll(db, m.actions); d.(versions := db.versions + {m.version})
  }

  /** The state after the first k migrations have been committed. */
  function After(db: Db, k: nat): (d: Db)
    requires HasTables(db) && k <= |MIGRATIONS|
    ensures HasTables(d)
  {
    if k == 0 then db else Migrated(After(db, k - 1), MIGRATIONS[k - 1])
  }

  class Store {
    var db: Db

    constructor (db: Db)
      ensures this.db == db
    {
      this.db := db;
    }

    /** migrate. Any statement may fail and the process may die anywhere; whatever was committed before
        stays, and nothing else. */
    method Migrate() returns (ok: bool)
      modifies this
      ensures db == old(db) || exists k :: 0 <= k <= |MIGRATIONS| && db == After(Base(old(db)), k)
      ensures ok ==> db == After(Base(old(db)), |MIGRATIONS|)
    {
      var schemaOk: bool := *;
      if !schemaOk {
        return false;
      }
      db := Base(db);
      assert db == After(Base(old(db)), 0);
      var i := 0;
      while i < |MIGRATIONS|
        invariant 0 <= i <= |MIGRATIONS| && db == After(Base(old(db)), i)
      {
        var m := MIGRATIONS[i];
        if m.version !in db.versions {
          var tx := db;
          var j := 0;
          while j < |m.actions|
            modifies {}
            invariant 0 <= j <= |m.actions| && HasTables(tx) && tx == ApplyAll(db, m.actions[..j])
          {
            var failed: bool := *;
            if failed {
              return false;
            }
            assert m.actions[..j + 1][..j] == m.actions[..j];
            tx := Apply(tx, m.actions[j]);
            j := j + 1;
          }
          assert m.actions[..j] == m.actions;
          var committed: bool := *;
          if !committed {
            return false;
          }
          db := tx.(versions := tx.versions + {m.version});
        }
        i := i + 1;
      }
      ok := true;
    }
  }

  // ---------------------------------------------------------------- resuming

  lemma {:induction false} VersionsAfter(db: Db, k: nat)
    requires HasTables(db) && k <= |MIGRATIONS|
    ensures After(db, k).versions == db.versions + set i | 0 <= i < k :: MIGRATIONS[i].version
  {
    if k > 0 {
      VersionsAfter(db, k - 1);
      assert (set i | 0 <= i < k :: MIGRATIONS[i].version) ==
        (set i | 0 <= i < k - 1 :: MIGRATIONS[i].version) + {MIGRATIONS[k - 1].version};
    }
  }

  /** Migrations that are already recorded are passed over without effect. */
  lemma {:induction false} RecordedIsSkipped(db: Db, k: nat)
    requires HasTables(db) && k <= |MIGRATIONS|
    requires forall i :: 0 <= i < k ==> MIGRATIONS[i].version in db.versions
    ensures After(db, k) == db
  {
    if k > 0 { RecordedIsSkipped(db, k - 1); }
  }

  /** Wherever a run stopped, running again ends where one uninterrupted run would have ended. */
  lemma {:induction false} ResumeFrom(db: Db, k: nat, n: nat)
    requires HasTables(db) && k <= n <= |MIGRATIONS|
    ensures After(After(db, k), n) == After(db, n)
  {
    if n == k {
      VersionsAfter(db, k);
      forall i | 0 <= i < k ensures MIGRATIONS[i].version in After(db, k).versions {}
      RecordedIsSkipped(After(db, k), k);
    } else {
      ResumeFrom(db, k, n - 1);
    }
  }

  /** Crash-resumability of migrate, from any database: stop after any committed step, start over, and
      the tables, their rows and the recorded versions are those of a single run. A further run changes
      nothing. */
  lemma CrashResumable(db: Db, k: nat)
    requires k <= |MIGRATIONS|
    ensures var whole := After(Base(db), |MIGRATIONS|);
            && After(Base(After(Base(db), k)), |MIGRATIONS|) == whole
            && After(Base(whole), |MIGRATIONS|) == whole
            && whole.versions == db.versions + {1, 2, 3, 4, 5}
  {
    ResumeFrom(Base(db), k, |MIGRATIONS|);
    ResumeFrom(Base(db), |MIGRATIONS|, |MIGRATIONS|);
    VersionsAfter(Base(db), |MIGRATIONS|);
    assert MIGRATIONS[0].version == 1 && MIGRATIONS[1].version == 2 && MIGRATIONS[2].version == 3;
    assert MIGRATIONS[3].version == 5 && MIGRATIONS[4].version == 4;
    assert Base(After(Base(db), k)) == After(Base(db), k);
  }

  // ---------------------------------------------------------------- data

  /** Rows and old columns are kept, with their values; only the kind of a local server may become
      "local". */
  ghost predicate KeepsRow(n: Name, r: Row, r': Row)
  {
    && (IsLocal(r') <==> IsLocal(r))
    && forall c :: c in r ==>
      c in r' && (r'[c] == r[c] || (n == Servers && c == "kind" && IsLocal(r) && r'[c] == "local"))
  }

  ghost predicate KeepsTable(n: Name, t: Table, t': Table)
  {
    && t.columns <= t'.columns && t'.rows.Keys == t.rows.Keys
    && forall i :: i in t.rows ==> KeepsRow(n, t.rows[i], t'.rows[i])
  }

  ghost predicate KeepsData(db: Db, d: Db)
    requires HasTables(db) && HasTables(d)
  {
    KeepsTable(Servers, Get(db, Servers), Get(d, Servers)) &&
        KeepsTable(Containers, Get(db, Containers), Get(d, Containers))
  }

  ghost predicate WellFormed(db: Db)
    requires HasTables(db)
  {
    forall n :: forall i :: i in Get(db, n).rows ==> Get(db, n).rows[i].Keys == Get(db, n).columns
  }

  /** What makes an action safe for data: it marks rows only where there is a kind to mark, and leaves
      is_local alone. */
  predicate Sound(a: Action, serverColumns: set<string>)
  {
    if a.MarkLocal? then "kind" in serverColumns else a.column != "is_local"
  }

  lemma ApplyKeepsData(db: Db, a: Action)
    requires HasTables(db) && WellFormed(db) && Sound(a, Get(db, Servers).columns)
    ensures WellFormed(Apply(db, a)) && KeepsData(db, Apply(db, a))
  {
    var d := Apply(db, a);
    forall n ensures KeepsTable(n, Get(db, n), Get(d, n)) &&
      forall i :: i in Get(d, n).rows ==> Get(d, n).rows[i].Keys == Get(d, n).columns
    {
      var t, t' := Get(db, n), Get(d, n);
      forall i | i in t.rows
        ensures i in t'.rows && KeepsRow(n, t.rows[i], t'.rows[i]) && t'.rows[i].Keys == t'.columns
      {
        assert t.rows[i].Keys == t.columns;
      }
    }
  }

  lemma KeepsTransitive(a: Db, b: Db, c: Db)
    requires HasTables(a) && HasTables(b) && HasTables(c) && KeepsData(a, b) && KeepsData(b, c)
    ensures KeepsData(a, c)
  {
    forall n ensures KeepsTable(n, Get(a, n), Get(c, n)) {
      forall i | i in Get(a, n).rows ensures KeepsRow(n, Get(a, n).rows[i], Get(c, n).rows[i]) {
        assert KeepsRow(n, Get(a, n).rows[i], Get(b, n).rows[i]) && KeepsRow(n, Get(b, n).rows[i], Get(c, n).rows[i]);
      }
    }
  }

  /** Marking comes after the kind column was added; is_local is never added. */
  predicate SoundActions(actions: seq<Action>)
  {
    forall j :: 0 <= j < |actions| ==>
      if actions[j].MarkLocal? then 0 < j && actions[0].AddColumn? && actions[0].table == Servers &&
          actions[0].column == "kind"
      else actions[j].column != "is_local"
  }

  function Added(actions: seq<Action>, n: Name): set<string>
  {
    set a | a in actions && a.AddColumn? && a.table == n :: a.column
  }

  lemma {:induction false} ApplyAllColumns(db: Db, actions: seq<Action>, n: Name)
    requires HasTables(db)
    ensures Get(ApplyAll(db, actions), n).columns == Get(db, n).columns + Added(actions, n)
  {
    if actions != [] {
      var k := |actions| - 1;
      ApplyAllColumns(db, actions[..k], n);
      assert forall a :: a in actions <==> a in actions[..k] || a == actions[k];
    }
  }

  lemma {:induction false} ApplyAllKeepsData(db: Db, actions: seq<Action>)
    requires HasTables(db) && WellFormed(db) && SoundActions(actions)
    ensures WellFormed(ApplyAll(db, actions)) && KeepsData(db, ApplyAll(db, actions))
  {
    if actions == [] {
      assert forall n :: KeepsTable(n, Get(db, n), Get(db, n));
    } else {
      var k := |actions| - 1;
      var d := ApplyAll(db, actions[..k]);
      ApplyAllKeepsData(db, actions[..k]);
      ApplyAllColumns(db, actions[..k], Servers);
      if actions[k].MarkLocal? { assert actions[0] == actions[..k][0] && actions[..k][0] in actions[..k]; }
      ApplyKeepsData(d, actions[k]);
      KeepsTransitive(db, d, ApplyAll(db, actions));
    }
  }

  lemma ShippedActionsAreSound(i: nat)
    requires i < |MIGRATIONS|
    ensures SoundActions(MIGRATIONS[i].actions)
  {
  }

  lemma SameTables(d: Db, e: Db, db: Db)
    requires HasTables(d) && HasTables(db) && e == d.(versions := e.versions) && WellFormed(d) && KeepsData(db, d)
    ensures HasTables(e) && WellFormed(e) && KeepsData(db, e)
  {
    forall n ensures Get(e, n) == Get(d, n) {}
  }

  /** No migration run, however interrupted, loses a row or changes a stored value, except that the
      kind of a local server may become "local". */
  lemma {:induction false} MigratingKeepsData(db: Db, k: nat)
    requires HasTables(db) && WellFormed(db) && k <= |MIGRATIONS|
    ensures WellFormed(After(db, k)) && KeepsData(db, After(db, k))
  {
    if k == 0 {
      assert forall n :: KeepsTable(n, Get(db, n), Get(db, n));
    } else {
      MigratingKeepsData(db, k - 1);
      ShippedActionsAreSound(k - 1);
      var d := After(db, k - 1);
      ApplyAllKeepsData(d, MIGRATIONS[k - 1].actions);
      var e := ApplyAll(d, MIGRATIONS[k - 1].actions);
      if MIGRATIONS[k - 1].version !in d.versions {
        KeepsTransitive(db, d, e);
        SameTables(e, Migrated(d, MIGRATIONS[k - 1]), db);
      }
    }
  }

  // ---------------------------------------------------------------- completeness

  /** Every migration's columns are there. */
  predicate Covers(columns: set<string>, ms: seq<Migration>, n: Name)
  {
    forall i :: 0 <= i < |ms| ==> Added(ms[i].actions, n) <= columns
  }

  /** Those of the recorded ones are. */
  predicate RecordedCovered(columns: set<string>, versions: set<nat>, ms: seq<Migration>, n: Name)
  {
    forall i :: 0 <= i < |ms| && ms[i].version in versions ==> Added(ms[i].actions, n) <= columns
  }

  /** The recorded versions tell the truth: their columns are there. */
  ghost predicate RecordedImpliesColumns(db: Db)
    requires HasTables(db)
  {
    forall n :: RecordedCovered(Get(db, n).columns, db.versions, MIGRATIONS, n)
  }

  ghost predicate Complete(db: Db)
    requires HasTables(db)
  {
    forall n :: Covers(Get(db, n).columns, MIGRATIONS, n)
  }

  /** What the i-th migration adds, unless it is recorded. */
  function Due(versions: set<nat>, ms: seq<Migration>, i: nat, n: Name): set<string>
    requires i < |ms|
  {
    if ms[i].version in versions then {} else Added(ms[i].actions, n)
  }

  function AllDue(versions: set<nat>, ms: seq<Migration>, k: nat, n: Name): set<string>
    requires k <= |ms|
  {
    if k == 0 then {} else AllDue(versions, ms, k - 1, n) + Due(versions, ms, k - 1, n)
  }

  lemma {:induction false} InAllDue(versions: set<nat>, ms: seq<Migration>, k: nat, n: Name, c: string)
    requires k <= |ms|
    ensures c in AllDue(versions, ms, k, n) <==> exists i :: 0 <= i < k && c in Due(versions, ms, i, n)
  {
    if k > 0 { InAllDue(versions, ms, k - 1, n, c); }
  }

  /** The columns a run adds are those of the migrations not recorded yet. */
  lemma {:induction false} ColumnsAfter(db: Db, k: nat, n: Name)
    requires HasTables(db) && k <= |MIGRATIONS|
    ensures Get(After(db, k), n).columns == Get(db, n).columns + AllDue(db.versions, MIGRATIONS, k, n)
  {
    if k > 0 {
      ColumnsAfter(db, k - 1, n);
      ColumnsNext(db, k - 1, n);
    }
  }

  lemma ColumnsNext(db: Db, k: nat, n: Name)
    requires HasTables(db) && k < |MIGRATIONS|
    ensures Get(After(db, k + 1), n).columns == Get(After(db, k), n).columns + Due(db.versions, MIGRATIONS, k, n)
  {
    var d, m := After(db, k), MIGRATIONS[k];
    NotYetRecorded(db, k);
    ApplyAllColumns(d, m.actions, n);
  }

  lemma NotYetRecorded(db: Db, k: nat)
    requires HasTables(db) && k < |MIGRATIONS|
    ensures MIGRATIONS[k].version in After(db, k).versions <==> MIGRATIONS[k].version in db.versions
  {
    VersionsAfter(db, k);
    DistinctVersions(k);
  }

  lemma DistinctVersions(k: nat)
    requires k < |MIGRATIONS|
    ensures forall i :: 0 <= i < |MIGRATIONS| && i != k ==> MIGRATIONS[i].version != MIGRATIONS[k].version
  {
  }

  ghost predicate AddsOnce(ms: seq<Migration>, n: Name)
  {
    forall i, j :: 0 <= i < j < |ms| ==> Added(ms[i].actions, n) !! Added(ms[j].actions, n)
  }

  lemma AddedOnce(i: nat, j: nat, n: Name)
    requires i < j < |MIGRATIONS|
    ensures Added(MIGRATIONS[i].actions, n) !! Added(MIGRATIONS[j].actions, n)
  {
    AddedByItsOwn(i);
    AddedByItsOwn(j);
  }

  /** The place of the migration that adds a column. */
  function PlaceOf(column: string): nat
  {
    if column in {"systemd_unit", "managed"} then 1
    else if column == "name_custom" then 2
    else if column in {"agent_version", "agent_image", "agent_digest"} then 3
    else if column in {"swarm_role", "swarm_services", "swarm_service_id", "swarm_service_name", "swarm_task_id",
                       "swarm_node_id"} then 4
    else 0
  }

  lemma AddedByItsOwn(i: nat)
    requires i < |MIGRATIONS|
    ensures forall a :: a in MIGRATIONS[i].actions && a.AddColumn? ==> PlaceOf(a.column) == i
  {
    forall j | 0 <= j < |MIGRATIONS[i].actions| && MIGRATIONS[i].actions[j].AddColumn?
      ensures PlaceOf(MIGRATIONS[i].actions[j].column) == i
    {
    }
  }

  /** When no column is added twice, adding what is due completes a table exactly when the recorded
      migrations had already done their part. */
  lemma CoversIff(columns: set<string>, versions: set<nat>, ms: seq<Migration>, n: Name)
    requires AddsOnce(ms, n)
    ensures Covers(columns + AllDue(versions, ms, |ms|, n), ms, n) <==> RecordedCovered(columns, versions, ms, n)
  {
    var all := columns + AllDue(versions, ms, |ms|, n);
    forall i | 0 <= i < |ms|
      ensures Added(ms[i].actions, n) <= all <==> ms[i].version !in versions || Added(ms[i].actions, n) <= columns
    {
      OneCovered(columns, versions, ms, n, i);
    }
  }

  lemma OneCovered(columns: set<string>, versions: set<nat>, ms: seq<Migration>, n: Name, i: nat)
    requires AddsOnce(ms, n) && i < |ms|
    ensures Added(ms[i].actions, n) <= columns + AllDue(versions, ms, |ms|, n) <==>
              ms[i].version !in versions || Added(ms[i].actions, n) <= columns
  {
    forall c | c in Added(ms[i].actions, n)
      ensures c in AllDue(versions, ms, |ms|, n) <==> ms[i].version !in versions
    {
      InAllDue(versions, ms, |ms|, n, c);
      forall j | 0 <= j < |ms| && j != i ensures c !in Due(versions, ms, j, n) {
        assert Added(ms[if i < j then i else j].actions, n) !! Added(ms[if i < j then j else i].actions, n);
      }
      assert c in Due(versions, ms, i, n) <==> ms[i].version !in versions;
    }
  }

  /** A finished run leaves every column in place exactly when the versions recorded beforehand implied
      their columns: a migration is trusted by its record and never repaired. */
  lemma CompleteIff(db: Db)
    requires HasTables(db)
    ensures Complete(After(db, |MIGRATIONS|)) <==> RecordedImpliesColumns(db)
  {
    forall n ensures Covers(Get(After(db, |MIGRATIONS|), n).columns, MIGRATIONS, n) <==>
      RecordedCovered(Get(db, n).columns, db.versions, MIGRATIONS, n)
    {
      TableCompleteIff(db, n);
    }
  }

  lemma TableCompleteIff(db: Db, n: Name)
    requires HasTables(db)
    ensures Covers(Get(After(db, |MIGRATIONS|), n).columns, MIGRATIONS, n) <==>
              RecordedCovered(Get(db, n).columns, db.versions, MIGRATIONS, n)
  {
    forall i, j | 0 <= i < j < |MIGRATIONS| ensures Added(MIGRATIONS[i].actions, n) !! Added(MIGRATIONS[j].actions, n) {
      AddedOnce(i, j, n);
    }
    ColumnsAfter(db, |MIGRATIONS|, n);
    CoversIff(Get(db, n).columns, db.versions, MIGRATIONS, n);
  }

  // ---------------------------------------------------------------- what a database ends up with

  /** The columns that databases of the first version lack. */
  function Later(n: Name): set<string>
  {
    if n == Servers then
      {"kind", "docker_host", "tls_ca", "tls_cert", "tls_key", "name_custom", "agent_version", "agent_image",
       "agent_digest", "swarm_role", "swarm_services"}
    else
      {"systemd_unit", "managed", "swarm_service_id", "swarm_service_name", "swarm_task_id", "swarm_node_id"}
  }

  /** What a row gets in such a column. */
  function Default(c: string): string
  {
    if c == "kind" then "agent"
    else if c in {"managed", "name_custom", "swarm_services"} then "0"
    else if c == "swarm_role" then "none"
    else NULL
  }

  lemma AddedAre(n: Name)
    ensures Added(MIGRATIONS[0].actions, n) ==
              if n == Servers then {"kind", "docker_host", "tls_ca", "tls_cert", "tls_key"} else {}
    ensures Added(MIGRATIONS[1].actions, n) == if n == Servers then {} else {"systemd_unit", "managed"}
    ensures Added(MIGRATIONS[2].actions, n) == if n == Servers then {"name_custom"} else {}
    ensures Added(MIGRATIONS[3].actions, n) ==
              if n == Servers then {"agent_version", "agent_image", "agent_digest"} else {}
    ensures Added(MIGRATIONS[4].actions, n) ==
              if n == Servers then {"swarm_role", "swarm_services"}
              else {"swarm_service_id", "swarm_service_name", "swarm_task_id", "swarm_node_id"}
  {
    AddedInFirst(n);
    AddedInLast(n);
    AddedBetween(n);
  }

  lemma AddedInFirst(n: Name)
    ensures Added(MIGRATIONS[0].actions, n) ==
              if n == Servers then {"kind", "docker_host", "tls_ca", "tls_cert", "tls_key"} else {}
  {
    var a := MIGRATIONS[0].actions;
    assert a[0] in a && a[1] in a && a[2] in a && a[3] in a && a[4] in a;
  }

  lemma AddedBetween(n: Name)
    ensures Added(MIGRATIONS[1].actions, n) == if n == Servers then {} else {"systemd_unit", "managed"}
    ensures Added(MIGRATIONS[2].actions, n) == if n == Servers then {"name_custom"} else {}
    ensures Added(MIGRATIONS[3].actions, n) ==
              if n == Servers then {"agent_version", "agent_image", "agent_digest"} else {}
  {
    var a, b, c := MIGRATIONS[1].actions, MIGRATIONS[2].actions, MIGRATIONS[3].actions;
    assert a[0] in a && a[1] in a && b[0] in b && c[0] in c && c[1] in c && c[2] in c;
  }

  lemma AddedInLast(n: Name)
    ensures Added(MIGRATIONS[4].actions, n) ==
              if n == Servers then {"swarm_role", "swarm_services"}
              else {"swarm_service_id", "swarm_service_name", "swarm_task_id", "swarm_node_id"}
  {
    var a := MIGRATIONS[4].actions;
    assert a[0] in a && a[1] in a && a[2] in a && a[3] in a && a[4] in a && a[5] in a;
  }

  /** From a database without a record, a finished run adds exactly the later columns. */
  lemma EndsWithEveryColumn(db: Db, n: Name)
    requires HasTables(db) && db.versions == {}
    ensures Get(After(db, |MIGRATIONS|), n).columns == Get(db, n).columns + Later(n)
  {
    ColumnsAfter(db, |MIGRATIONS|, n);
    AddedAre(n);
    FiveDue(MIGRATIONS, n);
    var ms := MIGRATIONS;
    UnionIsLater(n, Added(ms[0].actions, n), Added(ms[1].actions, n), Added(ms[2].actions, n), Added(ms[3].actions, n),
                 Added(ms[4].actions, n));
  }

  lemma UnionIsLater(n: Name, a: set<string>, b: set<string>, c: set<string>, d: set<string>, e: set<string>)
    requires a == if n == Servers then {"kind", "docker_host", "tls_ca", "tls_cert", "tls_key"} else {}
    requires b == if n == Servers then {} else {"systemd_unit", "managed"}
    requires c == if n == Servers then {"name_custom"} else {}
    requires d == if n == Servers then {"agent_version", "agent_image", "agent_digest"} else {}
    requires e == if n == Servers then {"swarm_role", "swarm_services"}
                  else {"swarm_service_id", "swarm_service_name", "swarm_task_id", "swarm_node_id"}
    ensures a + b + c + d + e == Later(n)
  {
  }

  /** The schema of a new database has them all, so that the migrations find nothing to add. */
  lemma SchemaHasLater()
    ensures Later(Servers) <= SERVER_COLUMNS && Later(Containers) <= CONTAINER_COLUMNS
  {
  }

  lemma NewDatabaseIsComplete(n: Name)
    ensures Get(After(Base(Db(None, None, {})), |MIGRATIONS|), n).columns ==
              if n == Servers then SERVER_COLUMNS else CONTAINER_COLUMNS
  {
    EndsWithEveryColumn(Base(Db(None, None, {})), n);
    SchemaHasLater();
  }

  lemma FiveDue(ms: seq<Migration>, n: Name)
    requires |ms| == 5
    ensures AllDue({}, ms, 5, n) == Added(ms[0].actions, n) + Added(ms[1].actions, n) + Added(ms[2].actions, n) +
                                    Added(ms[3].actions, n) + Added(ms[4].actions, n)
  {
    var none: set<nat> := {};
    assert AllDue(none, ms, 1, n) == AllDue(none, ms, 0, n) + Added(ms[0].actions, n);
    assert AllDue(none, ms, 2, n) == AllDue(none, ms, 1, n) + Added(ms[1].actions, n);
    assert AllDue(none, ms, 3, n) == AllDue(none, ms, 2, n) + Added(ms[2].actions, n);
    assert AllDue(none, ms, 4, n) == AllDue(none, ms, 3, n) + Added(ms[3].actions, n);
  }

  /** Column c of table n has every old value and the default in rows that had none, if it is there. */
  ghost predicate Filled(db: Db, d: Db, n: Name, c: string)
    requires HasTables(db) && HasTables(d)
  {
    var t, t' := Get(db, n), Get(d, n);
    && t'.rows.Keys == t.rows.Keys
    && forall i :: i in t.rows ==> FilledRow(t.rows[i], t'.rows[i], c, c in t'.columns)
  }

  predicate FilledRow(r: Row, r': Row, c: string, there: bool)
  {
    if there then c in r' && r'[c] == (if c in r then r[c] else Default(c)) else c !in r && c !in r'
  }

  /** What the shipped actions do to a column other than the kind of servers. */
  predicate Fits(a: Action, n: Name, c: string)
  {
    if a.MarkLocal? then !(n == Servers && c == "kind")
    else a.table == n && a.column == c ==> a.fill == Default(c)
  }

  lemma ApplyFills(db: Db, d: Db, a: Action, n: Name, c: string)
    requires HasTables(db) && HasTables(d) && Filled(db, d, n, c) && Fits(a, n, c)
    ensures Filled(db, Apply(d, a), n, c)
  {
    var t, t', t'' := Get(db, n), Get(d, n), Get(Apply(d, a), n);
    forall i | i in t.rows ensures FilledRow(t.rows[i], t''.rows[i], c, c in t''.columns) {
      assert FilledRow(t.rows[i], t'.rows[i], c, c in t'.columns);
    }
  }

  lemma {:induction false} ApplyAllFills(db: Db, d: Db, actions: seq<Action>, n: Name, c: string)
    requires HasTables(db) && HasTables(d) && Filled(db, d, n, c)
    requires forall j :: 0 <= j < |actions| ==> Fits(actions[j], n, c)
    ensures Filled(db, ApplyAll(d, actions), n, c)
  {
    if actions != [] {
      var k := |actions| - 1;
      ApplyAllFills(db, d, actions[..k], n, c);
      ApplyFills(db, ApplyAll(d, actions[..k]), actions[k], n, c);
    }
  }

  lemma ShippedActionsFit(k: nat, n: Name, c: string)
    requires k < |MIGRATIONS| && !(n == Servers && c == "kind")
    ensures forall j :: 0 <= j < |MIGRATIONS[k].actions| ==> Fits(MIGRATIONS[k].actions[j], n, c)
  {
  }

  /** However far a run got, a column has its old values, and the default where it is new. */
  lemma {:induction false} NewColumnsAreFilled(db: Db, k: nat, n: Name, c: string)
    requires HasTables(db) && WellFormed(db) && k <= |MIGRATIONS| && !(n == Servers && c == "kind")
    ensures Filled(db, After(db, k), n, c)
  {
    if k > 0 {
      NewColumnsAreFilled(db, k - 1, n, c);
      var d := After(db, k - 1);
      ShippedActionsFit(k - 1, n, c);
      ApplyAllFills(db, d, MIGRATIONS[k - 1].actions, n, c);
    }
  }

  /** The kinds of the servers: those of the local ones marked or not, the others as they were. */
  ghost predicate Kinds(db: Db, d: Db, marked: bool)
    requires HasTables(db) && HasTables(d)
  {
    var t, t' := Get(db, Servers), Get(d, Servers);
    && t'.rows.Keys == t.rows.Keys && "kind" in t'.columns
    && forall i :: i in t.rows ==> KindOf(t.rows[i], t'.rows[i], marked)
  }

  predicate KindOf(r: Row, r': Row, marked: bool)
  {
    var local := "is_local" in r && r["is_local"] == "1";
    && (IsLocal(r') <==> local) && "kind" in r'
    && r'["kind"] == if marked && local then "local" else if "kind" in r then r["kind"] else "agent"
  }

  predicate LeavesKind(a: Action) { a.AddColumn? && a.column !in {"kind", "is_local"} }

  lemma ApplyLeavesKinds(db: Db, d: Db, a: Action, marked: bool)
    requires HasTables(db) && HasTables(d) && Kinds(db, d, marked) && LeavesKind(a)
    ensures Kinds(db, Apply(d, a), marked)
  {
    var t, t', t'' := Get(db, Servers), Get(d, Servers), Get(Apply(d, a), Servers);
    forall i | i in t.rows ensures KindOf(t.rows[i], t''.rows[i], marked) {
      assert KindOf(t.rows[i], t'.rows[i], marked);
    }
  }

  lemma {:induction false} ApplyAllLeavesKinds(db: Db, d: Db, actions: seq<Action>, marked: bool)
    requires HasTables(db) && HasTables(d) && Kinds(db, d, marked)
    requires forall j :: 0 <= j < |actions| ==> LeavesKind(actions[j])
    ensures Kinds(db, ApplyAll(d, actions), marked)
  {
    if actions != [] {
      var k := |actions| - 1;
      ApplyAllLeavesKinds(db, d, actions[..k], marked);
      ApplyLeavesKinds(db, ApplyAll(d, actions[..k]), actions[k], marked);
    }
  }

  /** The first migration: the kind comes first, the marking last. */
  lemma FirstMarksLocals(db: Db)
    requires HasTables(db) && WellFormed(db)
    ensures Kinds(db, ApplyAll(db, MIGRATIONS[0].actions), true)
  {
    var a := MIGRATIONS[0].actions;
    var first, between := Apply(db, a[0]), a[1..5];
    AddsKind(db);
    ApplyAllLeavesKinds(db, first, between, false);
    ApplyInParts(db, a[0], between);
    assert a[..5] == [a[0]] + between;
    var d := ApplyAll(db, a[..5]);
    MarkingMarks(db, d);
  }

  lemma AddsKind(db: Db)
    requires HasTables(db) && WellFormed(db)
    ensures Kinds(db, Apply(db, AddColumn(Servers, "kind", "agent")), false)
  {
    var t := Get(db, Servers);
    assert forall i :: i in t.rows ==> t.rows[i].Keys == t.columns;
  }

  lemma MarkingMarks(db: Db, d: Db)
    requires HasTables(db) && HasTables(d) && Kinds(db, d, false)
    ensures Kinds(db, Apply(d, MarkLocal), true)
  {
    var t, t', t'' := Get(db, Servers), Get(d, Servers), Get(Apply(d, MarkLocal), Servers);
    forall i | i in t.rows ensures KindOf(t.rows[i], t''.rows[i], true) { assert KindOf(t.rows[i], t'.rows[i], false); }
  }

  lemma {:induction false} ApplyInParts(db: Db, a: Action, rest: seq<Action>)
    requires HasTables(db)
    ensures ApplyAll(db, [a] + rest) == ApplyAll(Apply(db, a), rest)
  {
    var all, n := [a] + rest, |rest|;
    if rest == [] {
      assert all == [a] && all[..0] == [];
    } else {
      assert all[..n] == [a] + rest[..n - 1];
      ApplyInParts(db, a, rest[..n - 1]);
    }
  }

  lemma OthersLeaveKinds(k: nat)
    requires 0 < k < |MIGRATIONS|
    ensures forall j :: 0 <= j < |MIGRATIONS[k].actions| ==> LeavesKind(MIGRATIONS[k].actions[j])
  {
  }

  /** Once the first migration has been made, every local server is of kind local; the others keep the kind
      they had, and are agents if they had none. */
  lemma {:induction false} LocalServersAreMarked(db: Db, k: nat)
    requires HasTables(db) && WellFormed(db) && 1 !in db.versions && 0 < k <= |MIGRATIONS|
    ensures Kinds(db, After(db, k), true)
  {
    if k == 1 {
      assert After(db, 0) == db;
      FirstMarksLocals(db);
    } else {
      LocalServersAreMarked(db, k - 1);
      OthersLeaveKinds(k - 1);
      ApplyAllLeavesKinds(db, After(db, k - 1), MIGRATIONS[k - 1].actions, true);
    }
  }
}
