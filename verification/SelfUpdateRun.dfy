/** The agents-then-controller sequence (internal/server/selfupdate_run.go): the tracker, planning,
    waiting and the decision to replace the controller. One run is live at a time. Every step of this code
    is a step of the protocol, whose state others change between any two calls. */
module SelfUpdateRun {
  import opened Wrappers
  import opened AgentRows
  import opened ProtocolWorld
  import Protocol

  /** agentUpdateTimeout and agentUpdatePoll, in seconds (internal/server/server.go:112-113). */
  const TIMEOUT := 180

  const POLL := 3

  datatype Phase = Agents | Controller | Ended

  function Pairs(hosts: seq<Host>): Digests { set h | h in hosts :: (h.id, h.digest) }

  predicate DistinctHosts(hosts: seq<Host>)
  {
    forall i, j :: 0 <= i < j < |hosts| ==> hosts[i].id != hosts[j].id
  }

  /** The store, the clock, the deadline and the Docker client as this code meets them. Each call may fail,
      and other requests may change the tables before it. */
  class Backend {
    const w: World
    var now: int
    var expired: bool
    var sleeps: nat
    var launched: seq<string>
    var attempts: nat
    var listings: nat
    ghost var digests: Digests
    ghost var answers: Answers
    ghost var replies: seq<(CommandId, Option<Answer>)>
    /** The agents whose command could not be queued since planning began. */
    ghost var refused: set<ServerId>

    constructor (w: World)
      ensures this.w == w && digests == {} && answers == {} && launched == []
    {
      this.w := w;
      now, expired, sleeps, launched, attempts, listings := 0, false, 0, [], 0, 0;
      digests, answers, replies, refused := {}, {}, [], {};
    }

    method ListServers() returns (ok: bool, hosts: seq<Host>)
      requires w.Traced()
      modifies this`digests, this`listings, w
      ensures w.Traced() && Protocol.Quiet(old(w.s), w.s)
      ensures DistinctHosts(hosts) && listings == old(listings) + 1 && (ok ==> Protocol.Lists(hosts, w.s.hosts))
      ensures digests == if ok then old(digests) + Pairs(hosts) else old(digests)
    {
      hosts, listings := [], listings + 1;
      w.Interfere();
      if * { return false, hosts; }
      w.Sound();
      ghost var some := SomeListing(w.s.hosts);
      assert DistinctHosts(some);
      var read :| DistinctHosts(read) && Protocol.Lists(read, w.s.hosts);
      digests := digests + Pairs(read);
      return true, read;
    }

    /** GetCommand: nothing when the read fails or the command is gone. */
    method GetCommand(id: CommandId) returns (answer: Option<Answer>)
      requires w.Traced()
      modifies this`answers, this`replies, w
      ensures w.Traced() && Protocol.Quiet(old(w.s), w.s)
      ensures answer.Some? ==> id in w.s.commands && answer.value == w.s.commands[id].answer
      ensures answers == if answer.Some? then old(answers) + {(id, answer.value)} else old(answers)
      ensures replies == old(replies) + [(id, answer)]
    {
      w.Interfere();
      answer := None;
      if * {
        if id in w.s.commands {
          answers := answers + {(id, w.s.commands[id].answer)};
          answer := Some(w.s.commands[id].answer);
        }
      }
      replies := replies + [(id, answer)];
    }

    /** CreateCommand for the agent being planned: the protocol's planning step, with the new command or,
        when the insert fails, without. */
    method CreateCommand(ghost h: Host, ghost rest: seq<Host>) returns (id: Option<CommandId>)
      requires w.Traced() && w.s.phase == Protocol.Planning([h] + rest) && h.isAgent && h.online
      modifies w, this`refused
      ensures w.Traced() && w.s.phase == Protocol.Planning(rest) && w.s.listed == old(w.s.listed)
      ensures refused == if id.None? then old(refused) + {h.id} else old(refused)
      ensures w.s.rows == old(w.s.rows) + [Planned(h, w.cfg.release, id)]
      ensures Grown(old(w.s.issued), w.s.issued)
      ensures id.Some? ==> id.value !in old(w.s.issued) && id.value in w.s.issued
      ensures id.Some? ==>
        w.s.issued[id.value] == Protocol.Command(h.id, true, Planned(h, w.cfg.release, id).target, Pending)
    {
      w.Interfere();
      id := None;
      if * {
        var above := NotBelow(w.s.issued.Keys);
        assert above !in w.s.issued;
        var unused :| unused !in w.s.issued;
        id := Some(unused);
      }
      if id.None? { refused := refused + {h.id}; }
      w.PlanNext(id);
    }

    /** Time passes, at least as much as asked for. */
    method Sleep(seconds: nat)
      modifies this`now, this`sleeps
      ensures now >= old(now) + seconds && sleeps == old(sleeps) + 1
    {
      var late: nat :| late >= 0;
      now, sleeps := now + seconds + late, sleeps + 1;
    }

    method Expired() returns (yes: bool)
      modifies this`expired
      ensures yes == expired && (old(expired) ==> expired)
    {
      if * { expired := true; }
      yes := expired;
    }

    method StartSelfUpdate(target: string) returns (ok: bool)
      modifies this`launched, this`attempts
      ensures launched == if ok then old(launched) + [target] else old(launched)
      ensures attempts == old(attempts) + 1
    {
      attempts := attempts + 1;
      if * { return false; }
      launched, ok := launched + [target], true;
    }
  }

  /** Commands are never forgotten. */
  ghost predicate Grown(a: map<CommandId, Protocol.Command>, b: map<CommandId, Protocol.Command>)
  {
    forall c :: c in a ==> c in b && b[c] == a[c]
  }

  /** The run and the protocol agree. */
  ghost predicate InStep(run: Run, b: Backend, phase: Protocol.Phase)
    reads run, b.w
  {
    b.w.Traced() && b.w.s.rows == run.agents && b.w.s.phase == phase
  }

  class Run {
    var agents: seq<Row>
    var phase: Phase
    var failed: bool
    var finished: bool

    constructor ()
      ensures agents == [] && phase == Agents && !failed && !finished
    {
      agents, phase, failed, finished := [], Agents, false, false;
    }

    method Counts() returns (done: nat, failures: nat, pending: nat)
      ensures done + failures + pending == |agents|
      ensures pending == 0 <==> NoneQueued(agents)
      ensures failures > 0 <==> exists i :: 0 <= i < |agents| && agents[i].status == Failed
      ensures done == CountOf(agents, Updated) + CountOf(agents, Skipped)
    {
      done, failures, pending := 0, 0, 0;
      for i := 0 to |agents|
        invariant done == CountOf(agents[..i], Updated) + CountOf(agents[..i], Skipped)
        invariant failures == CountOf(agents[..i], Failed) && pending == CountOf(agents[..i], Queued)
      {
        assert agents[..i + 1][..i] == agents[..i];
        match agents[i].status {
          case Updated => done := done + 1;
          case Skipped => done := done + 1;
          case Failed => failures := failures + 1;
          case Queued => pending := pending + 1;
        }
      }
      assert agents[..|agents|] == agents;
      CountsAddUp(agents);
      CountIsZeroIff(agents, Queued);
      CountIsZeroIff(agents, Failed);
    }

    method CountQueued() returns (queued: nat)
      ensures queued == 0 <==> NoneQueued(agents)
    {
      queued := 0;
      for i := 0 to |agents|
        invariant queued == 0 <==> NoneQueued(agents[..i])
      {
        if agents[i].status == Queued { queued := queued + 1; }
      }
      assert agents[..|agents|] == agents;
    }
  }

  /** log lists the row changes, in order. */
  class Tracker {
    var run: Run?
    ghost var log: seq<(ServerId, Status)>

    constructor ()
      ensures run == null && log == []
    {
      run, log := null, [];
    }

    method Set(r: Run)
      modifies this`run
      ensures run == r
    {
      run := r;
    }

    /** A copy that later changes to the run do not reach. */
    method Get() returns (r: Run?)
      ensures r == null <==> run == null
      ensures r != null ==> fresh(r) && r.agents == run.agents && r.phase == run.phase && r.finished == run.finished
    {
      if run == null { return null; }
      var copy := new Run();
      copy.agents, copy.phase, copy.failed, copy.finished := run.agents, run.phase, run.failed, run.finished;
      r := copy;
    }

    method UpdateAgent(server: ServerId, status: Status)
      modifies this`log, (if run == null then {} else {run})`agents
      ensures run != null ==> run.agents == WithStatus(old(run.agents), server, status)
      ensures log == old(log) + [(server, status)]
    {
      log := log + [(server, status)];
      if run == null { return; }
      var i := 0;
      while i < |run.agents|
        invariant 0 <= i <= |run.agents| && run.agents == old(run.agents)
        invariant forall j :: 0 <= j < i ==> run.agents[j].server != server
        modifies {}
      {
        if run.agents[i].server == server { break; }
        i := i + 1;
      }
      if i < |run.agents| {
        WithStatusAt(run.agents, i, status);
        run.agents := run.agents[i := run.agents[i].(status := status)];
      } else {
        WithStatusNone(run.agents, server, status);
      }
    }

    method SetPhase(phase: Phase)
      modifies (if run == null then {} else {run})`phase, (if run == null then {} else {run})`finished
      ensures run != null ==> run.phase == phase && run.finished == (old(run.finished) || phase == Ended)
    {
      if run == null { return; }
      run.phase := phase;
      if phase == Ended { run.finished := true; }
    }

    method Fail()
      modifies (if run == null then {} else {run})`phase, (if run == null then {} else {run})`finished,
        (if run == null then {} else {run})`failed
      ensures run != null ==> run.phase == Ended && run.failed && run.finished
    {
      if run == null { return; }
      run.phase, run.failed, run.finished := Ended, true, true;
    }
  }

  // ---------------------------------------------------------------- planning

  predicate Reachable(h: Host) { h.isAgent && h.online }

  function AgentsOf(hosts: seq<Host>): (r: seq<Host>)
    ensures forall h :: h in r <==> h in hosts && h.isAgent
  {
    if hosts == [] then []
    else AgentsOf(hosts[..|hosts| - 1]) + if hosts[|hosts| - 1].isAgent then [hosts[|hosts| - 1]] else []
  }

  function OrderFor(row: Row): Protocol.Command { Protocol.Command(row.server, true, row.target, Pending) }

  /** They are the agents, each as often as it is listed and in list order. */
  lemma {:induction false} AgentsInOrder(hosts: seq<Host>) returns (at: seq<nat>)
    ensures Picks(hosts, AgentsOf(hosts), at)
    ensures forall k :: 0 <= k < |hosts| && hosts[k].isAgent ==> k in at
  {
    at := [];
    if hosts != [] {
      var n := |hosts| - 1;
      var front := AgentsInOrder(hosts[..n]);
      at := if hosts[n].isAgent then front + [n] else front;
      forall k | 0 <= k < |hosts| && hosts[k].isAgent ensures k in at { if k < n { assert hosts[..n][k].isAgent; } }
      PicksMore(hosts, AgentsOf(hosts[..n]), front);
    }
  }

  /** These hosts are those at these places, in rising order. */
  ghost predicate Picks(hosts: seq<Host>, picked: seq<Host>, at: seq<nat>)
  {
    && |at| == |picked| && (forall i, j :: 0 <= i < j < |at| ==> at[i] < at[j])
    && forall i :: 0 <= i < |at| ==> at[i] < |hosts| && picked[i] == hosts[at[i]]
  }

  lemma PicksMore(hosts: seq<Host>, picked: seq<Host>, at: seq<nat>)
    requires hosts != [] && Picks(hosts[..|hosts| - 1], picked, at)
    ensures Picks(hosts, picked, at) && Picks(hosts, picked + [hosts[|hosts| - 1]], at + [|hosts| - 1])
  {
    forall i | 0 <= i < |at| ensures at[i] < |hosts| && picked[i] == hosts[at[i]] {
      assert hosts[..|hosts| - 1][at[i]] == hosts[at[i]];
    }
  }

  /** What planning says of an agent: skipped exactly when it is offline, failed exactly when it is online
      and its command could not be queued, and queued with a command otherwise. */
  predicate Records(row: Row, h: Host, release: Release, refused: set<ServerId>)
  {
    && row.server == h.id && row.digest == h.digest
    && (row.status == Skipped <==> !h.online)
    && (row.status == Failed <==> h.online && h.id in refused)
    && (row.status == Queued <==> h.online && h.id !in refused)
    && (row.command.Some? <==> h.online && h.id !in refused)
    && (h.online ==> row.target == Checker.AgentTarget(h.image, release.kind, release.target))
  }

  /** One row per agent, in list order; every queued row has a command of its own, addressed to its
      server with its target. */
  ghost predicate PlannedFor(hosts: seq<Host>, rows: seq<Row>, release: Release,
                             created: map<CommandId, Protocol.Command>, refused: set<ServerId>)
  {
    && Recorded(AgentsOf(hosts), rows, release, refused)
    && (forall id :: id in refused ==> exists h :: h in hosts && Reachable(h) && h.id == id)
    && OwnCommands(rows, created)
  }

  ghost predicate Recorded(agents: seq<Host>, rows: seq<Row>, release: Release, refused: set<ServerId>)
  {
    |rows| == |agents| && forall i :: 0 <= i < |rows| ==> Records(rows[i], agents[i], release, refused)
  }

  ghost predicate OwnCommands(rows: seq<Row>, created: map<CommandId, Protocol.Command>)
  {
    && (forall i :: 0 <= i < |rows| && rows[i].command.Some? ==>
          rows[i].command.value in created && created[rows[i].command.value] == OrderFor(rows[i]))
    && (forall i, j :: 0 <= i < j < |rows| && rows[i].command.Some? ==> rows[i].command != rows[j].command)
  }

  lemma PlannedStep(hosts: seq<Host>, h: Host, rows: seq<Row>, release: Release,
                    created: map<CommandId, Protocol.Command>, created': map<CommandId, Protocol.Command>,
                    refused: set<ServerId>, refused': set<ServerId>, row: Row)
    requires PlannedFor(hosts, rows, release, created, refused) && h.isAgent && Records(row, h, release, refused')
    requires Grown(created, created') && (forall o :: o in hosts ==> o.id != h.id)
    requires refused <= refused' <= refused + {h.id} && (h.id in refused' ==> h.online)
    requires row.command.Some? ==>
      row.command.value !in created && row.command.value in created' && created'[row.command.value] == OrderFor(row)
    ensures PlannedFor(hosts + [h], rows + [row], release, created', refused')
  {
    RefusedAreListed(hosts, h, refused, refused');
    assert (hosts + [h])[..|hosts|] == hosts;
    assert AgentsOf(hosts + [h]) == AgentsOf(hosts) + [h];
    RecordedStep(AgentsOf(hosts), h, rows, release, refused, refused', row);
    CommandsStep(rows, created, created', row);
  }

  lemma RecordedStep(agents: seq<Host>, h: Host, rows: seq<Row>, release: Release, refused: set<ServerId>,
                     refused': set<ServerId>, row: Row)
    requires Recorded(agents, rows, release, refused) && Records(row, h, release, refused')
    requires (forall o :: o in agents ==> o.id != h.id) && refused <= refused' <= refused + {h.id}
    ensures Recorded(agents + [h], rows + [row], release, refused')
  {
    forall i | 0 <= i < |rows| ensures Records(rows[i], agents[i], release, refused') {
      assert agents[i] in agents && Records(rows[i], agents[i], release, refused);
    }
  }

  lemma CommandsStep(rows: seq<Row>, created: map<CommandId, Protocol.Command>,
                     created': map<CommandId, Protocol.Command>, row: Row)
    requires OwnCommands(rows, created) && Grown(created, created')
    requires row.command.Some? ==>
      row.command.value !in created && row.command.value in created' && created'[row.command.value] == OrderFor(row)
    ensures OwnCommands(rows + [row], created')
  {
  }

  lemma RefusedAreListed(hosts: seq<Host>, h: Host, refused: set<ServerId>, refused': set<ServerId>)
    requires forall id :: id in refused ==> exists o :: o in hosts && Reachable(o) && o.id == id
    requires refused' <= refused + {h.id} && (h.id in refused' && h.id !in refused ==> Reachable(h))
    ensures forall id :: id in refused' ==> exists o :: o in hosts + [h] && Reachable(o) && o.id == id
  {
    forall id | id in refused' ensures exists o :: o in hosts + [h] && Reachable(o) && o.id == id {
      if id in refused {
        var o :| o in hosts && Reachable(o) && o.id == id;
        assert o in hosts + [h];
      } else {
        assert h in hosts + [h];
      }
    }
  }

  lemma PlannedSkip(hosts: seq<Host>, h: Host, rows: seq<Row>, release: Release,
                    created: map<CommandId, Protocol.Command>, created': map<CommandId, Protocol.Command>,
                    refused: set<ServerId>)
    requires PlannedFor(hosts, rows, release, created, refused) && !h.isAgent && Grown(created, created')
    ensures PlannedFor(hosts + [h], rows, release, created', refused)
  {
    RefusedAreListed(hosts, h, refused, refused);
    assert (hosts + [h])[..|hosts|] == hosts;
    assert AgentsOf(hosts + [h]) == AgentsOf(hosts);
  }

  lemma {:induction false} AgentsDistinct(hosts: seq<Host>)
    requires DistinctHosts(hosts)
    ensures DistinctHosts(AgentsOf(hosts))
  {
    if hosts != [] {
      var rest := hosts[..|hosts| - 1];
      AgentsDistinct(rest);
      assert forall h :: h in AgentsOf(rest) ==> h in rest;
    }
  }

  /** planAgents. When the servers cannot be listed the run has no rows at all. */
  method PlanAgents(run: Run, b: Backend) returns (ghost listed: bool, ghost hosts: seq<Host>)
    requires run.agents == [] && InStep(run, b, Protocol.Idle)
    modifies run`agents, b`digests, b`listings, b`refused, b.w
    ensures InStep(run, b, Protocol.Waiting) && b.w.s.listed == listed
    ensures !listed ==> run.agents == []
    ensures listed ==> DistinctHosts(hosts) && PlannedFor(hosts, run.agents, b.w.cfg.release, b.w.s.issued, b.refused)
    ensures b.digests == if listed then old(b.digests) + Pairs(hosts) else old(b.digests)
  {
    var ok, servers := b.ListServers();
    listed, hosts := ok, servers;
    if !ok {
      b.w.List(None);
      return;
    }
    b.w.List(Some(servers));
    b.refused := {};
    PlanListed(run, b, servers);
  }

  /** The planning loop. */
  method PlanListed(run: Run, b: Backend, servers: seq<Host>)
    requires run.agents == [] && InStep(run, b, Protocol.Planning(servers)) && DistinctHosts(servers)
    requires b.refused == {}
    modifies run`agents, b`refused, b.w
    ensures InStep(run, b, Protocol.Waiting) && b.w.s.listed == old(b.w.s.listed)
    ensures PlannedFor(servers, run.agents, b.w.cfg.release, b.w.s.issued, b.refused)
  {
    assert servers[0..] == servers;
    for i := 0 to |servers|
      invariant InStep(run, b, Protocol.Planning(servers[i..])) && b.w.s.listed == old(b.w.s.listed)
      invariant PlannedFor(servers[..i], run.agents, b.w.cfg.release, b.w.s.issued, b.refused)
    {
      assert servers[i..] == [servers[i]] + servers[i + 1..];
      PlanOne(run, b, servers[i], servers[..i], servers[i + 1..]);
      assert servers[..i + 1] == servers[..i] + [servers[i]];
    }
    assert servers[..|servers|] == servers && servers[|servers|..] == [];
    b.w.PlanNext(None);
  }

  /** The body of the planning loop. */
  method PlanOne(run: Run, b: Backend, h: Host, ghost done: seq<Host>, ghost rest: seq<Host>)
    requires InStep(run, b, Protocol.Planning([h] + rest))
    requires PlannedFor(done, run.agents, b.w.cfg.release, b.w.s.issued, b.refused)
    requires forall o :: o in done ==> o.id != h.id
    modifies run`agents, b`refused, b.w
    ensures InStep(run, b, Protocol.Planning(rest)) && b.w.s.listed == old(b.w.s.listed)
    ensures PlannedFor(done + [h], run.agents, b.w.cfg.release, b.w.s.issued, b.refused)
  {
    ghost var rows, created, refused := run.agents, b.w.s.issued, b.refused;
    assert ([h] + rest)[1..] == rest;
    if !h.isAgent {
      b.w.PlanNext(None);
      PlannedSkip(done, h, rows, b.w.cfg.release, created, b.w.s.issued, b.refused);
      return;
    }
    var row := Planned(h, b.w.cfg.release, None);
    if h.online {
      var id := b.CreateCommand(h, rest);
      row := Planned(h, b.w.cfg.release, id);
    } else {
      b.w.PlanNext(None);
    }
    PlannedStep(done, h, rows, b.w.cfg.release, created, b.w.s.issued, refused, b.refused, row);
    run.agents := run.agents + [row];
  }

  // ---------------------------------------------------------------- waiting

  predicate ChangedTo(a: Row, b: Row, e: (ServerId, Status))
  {
    a.status == Queued && b.server == e.0 && b.status == e.1 != Queued
  }

  /** The changes logged meanwhile: one per changed row, each saying what it changed to. */
  ghost predicate Logged(before: seq<Row>, after: seq<Row>, changes: seq<(ServerId, Status)>)
    requires |before| == |after|
  {
    && (forall e :: e in changes ==> exists i :: 0 <= i < |after| && ChangedTo(before[i], after[i], e))
    && (forall x, y :: 0 <= x < y < |changes| ==> changes[x].0 != changes[y].0)
    && (forall i :: 0 <= i < |after| && before[i].status != after[i].status ==>
          (after[i].server, after[i].status) in changes)
  }

  /** Every change so far is justified by something read. */
  ghost predicate Justified(before: seq<Row>, after: seq<Row>, digests: Digests, answers: Answers, late: bool)
    requires |before| == |after|
  {
    forall i :: 0 <= i < |after| && before[i].status == Queued ==> JustifiedRow(after[i], digests, answers, late)
  }

  ghost predicate JustifiedRow(row: Row, digests: Digests, answers: Answers, late: bool)
  {
    match row.status
    case Updated => Evidence(row, digests, answers)
    case Failed => late || Refusal(row, answers)
    case _ => true
  }

  ghost predicate Progress(before: seq<Row>, after: seq<Row>, changes: seq<(ServerId, Status)>, digests: Digests,
                           answers: Answers, late: bool)
  {
    Moves(before, after) && UniqueServers(after) && Logged(before, after, changes) &&
        Justified(before, after, digests, answers, late)
  }

  lemma NothingYet(before: seq<Row>, digests: Digests, answers: Answers)
    requires UniqueServers(before)
    ensures Progress(before, before, [], digests, answers, false)
  {
  }

  lemma LearnMore(before: seq<Row>, after: seq<Row>, changes: seq<(ServerId, Status)>, digests: Digests,
                  answers: Answers, late: bool, digests': Digests, answers': Answers, late': bool)
    requires Progress(before, after, changes, digests, answers, late)
    requires digests <= digests' && answers <= answers' && (late ==> late')
    ensures Progress(before, after, changes, digests', answers', late')
  {
  }

  lemma ChangeOne(before: seq<Row>, rows: seq<Row>, changes: seq<(ServerId, Status)>, digests: Digests,
                  answers: Answers, late: bool, i: nat, status: Status)
    requires Progress(before, rows, changes, digests, answers, late)
    requires i < |rows| && rows[i].status == Queued && status in {Updated, Failed}
    requires JustifiedRow(rows[i].(status := status), digests, answers, late)
    ensures WithStatus(rows, rows[i].server, status) == rows[i := rows[i].(status := status)]
    ensures Progress(before, rows[i := rows[i].(status := status)], changes + [(rows[i].server, status)], digests,
        answers, late)
  {
    WithStatusAt(rows, i, status);
    var next, now := rows[i := rows[i].(status := status)], changes + [(rows[i].server, status)];
    assert before[i].status == Queued;
    forall e | e in changes ensures e.0 != rows[i].server {
      var k :| 0 <= k < |rows| && ChangedTo(before[k], rows[k], e);
    }
    forall e | e in now ensures exists k :: 0 <= k < |next| && ChangedTo(before[k], next[k], e) {
      if e in changes {
        var k :| 0 <= k < |rows| && ChangedTo(before[k], rows[k], e);
        assert next[k] == rows[k];
      } else {
        assert ChangedTo(before[i], next[i], e);
      }
    }
    assert Moves(before, next);
  }

  /** The server's last report in the list just read. */
  ghost predicate Listed(hosts: seq<Host>, byId: map<ServerId, string>)
  {
    forall id :: id in byId ==> exists h :: h in hosts && h.id == id && h.digest == byId[id]
  }

  method ById(hosts: seq<Host>) returns (byId: map<ServerId, string>)
    ensures Listed(hosts, byId)
    ensures forall h :: h in hosts ==> h.id in byId
  {
    byId := map[];
    for i := 0 to |hosts|
      invariant Listed(hosts, byId)
      invariant forall j :: 0 <= j < i ==> hosts[j].id in byId
    {
      byId := byId[hosts[i].id := hosts[i].digest];
    }
  }

  /** The map is the digest column of the table that was listed. */
  lemma ViewOf(hosts: seq<Host>, byId: map<ServerId, string>, table: map<ServerId, Host>)
    requires Listed(hosts, byId) && (forall h :: h in hosts ==> h.id in byId) && Protocol.Lists(hosts, table)
    requires forall id :: id in table ==> table[id].id == id
    ensures byId == map id | id in table :: table[id].digest
  {
    forall id | id in table ensures id in byId { assert table[id] in hosts; }
  }

  /** The command is looked at only when the agent's own report says nothing. */
  predicate Asks(a: Row, byId: map<ServerId, string>)
  {
    a.status == Queued && !Returned(a, DigestIn(byId, a.server)) && a.command.Some?
  }

  /** By the reply to its own command. */
  predicate RepliedTo(a: Row, a': Row, byId: map<ServerId, string>, reply: (CommandId, Option<Answer>))
  {
    a.command == Some(reply.0) && a' == a.(status := Judged(a, DigestIn(byId, a.server), reply.1))
  }

  /** Row a became row a': by the digest in the list, and by the reply to its own command if it was asked
      for; replies from the n-th on belong to this pass. */
  ghost predicate JudgedBy(a: Row, a': Row, byId: map<ServerId, string>, replies: seq<(CommandId, Option<Answer>)>,
                           n: nat)
  {
    if Asks(a, byId) then exists k :: n <= k < |replies| && RepliedTo(a, a', byId, replies[k])
    else a' == a.(status := Judged(a, DigestIn(byId, a.server), None))
  }

  /** The wait so far. */
  ghost predicate StillWaiting(t: Tracker, run: Run, b: Backend, before: seq<Row>, base: seq<(ServerId, Status)>,
                               changes: seq<(ServerId, Status)>)
    reads t, run, b, b.w
  {
    && t.run == run && t.log == base + changes && InStep(run, b, Protocol.Waiting)
    && Progress(before, run.agents, changes, b.digests, b.answers, false)
  }

  /** One row of one pass: the agent's own report is looked at first, its command only after that. */
  method JudgeOne(t: Tracker, run: Run, b: Backend, byId: map<ServerId, string>, i: nat, ghost before: seq<Row>,
                  ghost base: seq<(ServerId, Status)>, ghost changes: seq<(ServerId, Status)>)
    returns (ghost answer: Option<Answer>, ghost changes': seq<(ServerId, Status)>)
    requires t.run == run && i < |run.agents| && t.log == base + changes && InStep(run, b, Protocol.Passing(byId, i))
    requires Progress(before, run.agents, changes, b.digests, b.answers, false)
    requires forall id :: id in byId ==> (id, byId[id]) in b.digests
    modifies t`log, run`agents, b`answers, b`replies, b.w
    ensures InStep(run, b, Protocol.Passing(byId, i + 1)) && b.w.s.listed == old(b.w.s.listed)
    ensures Progress(before, run.agents, changes', b.digests, b.answers, false)
    ensures t.log == base + changes'
    ensures old(b.answers) <= b.answers
    ensures var a := old(run.agents)[i];
            && run.agents == old(run.agents)[i := a.(status := Judged(a, DigestIn(byId, a.server), answer))]
            && (!Asks(a, byId) ==> answer == None)
            && b.replies == if Asks(a, byId) then old(b.replies) + [(a.command.value, answer)] else old(b.replies)
  {
    answer := None;
    var a := run.agents[i];
    var found: Option<Answer> := None;
    ghost var known := b.answers;
    if Asks(a, byId) {
      found := b.GetCommand(a.command.value);
      answer := found;
    }
    LearnMore(before, run.agents, changes, b.digests, known, false, b.digests, b.answers, false);
    b.w.JudgeNext(found.Some?);
    changes' := Settle(t, run, i, byId, found, before, changes, b.digests, b.answers);
  }

  /** What is made of a row, and of the answer if its command was looked at. */
  method Settle(t: Tracker, run: Run, i: nat, byId: map<ServerId, string>, found: Option<Answer>,
                ghost before: seq<Row>, ghost changes: seq<(ServerId, Status)>, ghost digests: Digests,
                ghost answers: Answers)
    returns (ghost changes': seq<(ServerId, Status)>)
    requires t.run == run && i < |run.agents| && Progress(before, run.agents, changes, digests, answers, false)
    requires forall id :: id in byId ==> (id, byId[id]) in digests
    requires found.Some? ==> Asks(run.agents[i], byId) && (run.agents[i].command.value, found.value) in answers
    modifies t`log, run`agents
    ensures var a := old(run.agents)[i];
            run.agents == old(run.agents)[i := a.(status := Judged(a, DigestIn(byId, a.server), found))]
    ensures Progress(before, run.agents, changes', digests, answers, false)
    ensures exists more :: changes' == changes + more && t.log == old(t.log) + more
  {
    changes' := changes;
    var a := run.agents[i];
    ghost var log := t.log;
    if a.status == Queued {
      if Returned(a, DigestIn(byId, a.server)) {
        DigestIsEvidence(a, byId[a.server], digests, answers);
        changes' := Change(t, run, i, Updated, before, changes, digests, answers, false);
        return;
      }
      if found == Some(Done) {
        changes' := Change(t, run, i, Updated, before, changes, digests, answers, false);
        return;
      }
      if found == Some(Refused) {
        changes' := Change(t, run, i, Failed, before, changes, digests, answers, false);
        return;
      }
    }
    assert changes' == changes + [] && t.log == log + [];
  }

  /** One change of one row, through the tracker. */
  method Change(t: Tracker, run: Run, i: nat, status: Status, ghost before: seq<Row>,
                ghost changes: seq<(ServerId, Status)>, ghost digests: Digests, ghost answers: Answers,
                ghost late: bool)
    returns (ghost changes': seq<(ServerId, Status)>)
    requires t.run == run && Progress(before, run.agents, changes, digests, answers, late)
    requires i < |run.agents| && run.agents[i].status == Queued && status in {Updated, Failed}
    requires JustifiedRow(run.agents[i].(status := status), digests, answers, late)
    modifies t`log, run`agents
    ensures run.agents == old(run.agents)[i := old(run.agents)[i].(status := status)]
    ensures changes' == changes + [(old(run.agents)[i].server, status)]
    ensures t.log == old(t.log) + [(old(run.agents)[i].server, status)]
    ensures Progress(before, run.agents, changes', digests, answers, late)
  {
    ChangeOne(before, run.agents, changes, digests, answers, late, i, status);
    changes' := changes + [(run.agents[i].server, status)];
    t.UpdateAgent(run.agents[i].server, status);
  }

  lemma DigestIsEvidence(a: Row, digest: string, digests: Digests, answers: Answers)
    requires (a.server, digest) in digests && Returned(a, Some(digest))
    ensures Evidence(a.(status := Updated), digests, answers)
  {
    assert Returned(a.(status := Updated), Some(digest));
  }

  /** After i rows of a pass. */
  ghost predicate JudgedSoFar(rows: seq<Row>, now: seq<Row>, byId: map<ServerId, string>,
                              replies: seq<(CommandId, Option<Answer>)>, n: nat, i: nat)
  {
    && |now| == |rows|
    && (forall j :: 0 <= j < i && j < |rows| ==> JudgedBy(rows[j], now[j], byId, replies, n))
    && (forall j :: i <= j < |rows| ==> now[j] == rows[j])
  }

  lemma MoreReplies(a: Row, a': Row, byId: map<ServerId, string>, replies: seq<(CommandId, Option<Answer>)>,
                    replies': seq<(CommandId, Option<Answer>)>, n: nat)
    requires JudgedBy(a, a', byId, replies, n) && replies <= replies'
    ensures JudgedBy(a, a', byId, replies', n)
  {
    if Asks(a, byId) {
      var k :| n <= k < |replies| && RepliedTo(a, a', byId, replies[k]);
      assert replies'[k] == replies[k];
    }
  }

  lemma JudgedNext(rows: seq<Row>, now: seq<Row>, now': seq<Row>, byId: map<ServerId, string>,
                   replies: seq<(CommandId, Option<Answer>)>, replies': seq<(CommandId, Option<Answer>)>, n: nat,
                   i: nat, answer: Option<Answer>)
    requires JudgedSoFar(rows, now, byId, replies, n, i) && i < |rows| && n <= |replies|
    requires now' == now[i := rows[i].(status := Judged(rows[i], DigestIn(byId, rows[i].server), answer))]
    requires !Asks(rows[i], byId) ==> answer == None
    requires replies' == if Asks(rows[i], byId) then replies + [(rows[i].command.value, answer)] else replies
    ensures JudgedSoFar(rows, now', byId, replies', n, i + 1)
  {
    forall j | 0 <= j < i ensures JudgedBy(rows[j], now'[j], byId, replies', n) {
      MoreReplies(rows[j], now[j], byId, replies, replies', n);
    }
    if Asks(rows[i], byId) { assert replies'[|replies|] == (rows[i].command.value, answer); }
  }

  /** One poll: read the servers, then judge the queued rows in turn. A failed read changes nothing. */
  method JudgeAll(t: Tracker, run: Run, b: Backend, ghost before: seq<Row>, ghost base: seq<(ServerId, Status)>,
                  ghost changes: seq<(ServerId, Status)>)
    returns (ghost view: Option<map<ServerId, string>>, ghost changes': seq<(ServerId, Status)>)
    requires StillWaiting(t, run, b, before, base, changes) && !NoneQueued(run.agents)
    modifies t`log, run`agents, b`answers, b`digests, b`replies, b`listings, b.w
    ensures StillWaiting(t, run, b, before, base, changes') && b.listings == old(b.listings) + 1
    ensures b.w.s.listed == old(b.w.s.listed)
    ensures view.None? ==> run.agents == old(run.agents) && changes' == changes
    ensures view.Some? ==>
      JudgedSoFar(old(run.agents), run.agents, view.value, b.replies, |old(b.replies)|, |run.agents|)
    ensures old(b.digests) <= b.digests && old(b.answers) <= b.answers
  {
    changes', view := changes, None;
    ghost var known := b.digests;
    var byId := BeginPoll(run, b);
    LearnMore(before, run.agents, changes, known, b.answers, false, b.digests, b.answers, false);
    view := byId;
    if byId.Some? { changes' := JudgePass(t, run, b, byId.value, before, base, changes); }
  }

  /** The read at the start of a poll. */
  method BeginPoll(run: Run, b: Backend) returns (byId: Option<map<ServerId, string>>)
    requires InStep(run, b, Protocol.Waiting) && !NoneQueued(run.agents)
    modifies b`digests, b`listings, b.w
    ensures InStep(run, b, if byId.Some? then Protocol.Passing(byId.value, 0) else Protocol.Waiting)
    ensures b.w.s.listed == old(b.w.s.listed)
    ensures old(b.digests) <= b.digests && b.listings == old(b.listings) + 1
    ensures byId.Some? ==> forall id :: id in byId.value ==> (id, byId.value[id]) in b.digests
  {
    var ok, hosts := b.ListServers();
    if !ok { return None; }
    var view := ById(hosts);
    ViewOfListing(b.w, hosts, view);
    InDigests(hosts, view, b.digests);
    b.w.BeginPass();
    byId := Some(view);
  }

  lemma ViewOfListing(w: World, hosts: seq<Host>, byId: map<ServerId, string>)
    requires w.Traced() && Listed(hosts, byId) && (forall h :: h in hosts ==> h.id in byId)
    requires Protocol.Lists(hosts, w.s.hosts)
    ensures byId == map id | id in w.s.hosts :: w.s.hosts[id].digest
  {
    w.Sound();
    ViewOf(hosts, byId, w.s.hosts);
  }

  lemma InDigests(hosts: seq<Host>, byId: map<ServerId, string>, digests: Digests)
    requires Listed(hosts, byId) && Pairs(hosts) <= digests
    ensures forall id :: id in byId ==> (id, byId[id]) in digests
  {
    forall id | id in byId ensures (id, byId[id]) in digests {
      var h :| h in hosts && h.id == id && h.digest == byId[id];
      assert (h.id, h.digest) in Pairs(hosts);
    }
  }

  /** The loop over the rows. */
  method JudgePass(t: Tracker, run: Run, b: Backend, byId: map<ServerId, string>, ghost before: seq<Row>,
                   ghost base: seq<(ServerId, Status)>, ghost changes: seq<(ServerId, Status)>)
    returns (ghost changes': seq<(ServerId, Status)>)
    requires t.run == run && t.log == base + changes && InStep(run, b, Protocol.Passing(byId, 0))
    requires Progress(before, run.agents, changes, b.digests, b.answers, false)
    requires forall id :: id in byId ==> (id, byId[id]) in b.digests
    modifies t`log, run`agents, b`answers, b`replies, b.w
    ensures StillWaiting(t, run, b, before, base, changes') && b.w.s.listed == old(b.w.s.listed)
    ensures JudgedSoFar(old(run.agents), run.agents, byId, b.replies, |old(b.replies)|, |run.agents|)
    ensures old(b.answers) <= b.answers
  {
    changes' := changes;
    ghost var rows, n := run.agents, |b.replies|;
    for i := 0 to |run.agents|
      invariant InStep(run, b, Protocol.Passing(byId, i)) && b.w.s.listed == old(b.w.s.listed)
      invariant t.run == run && t.log == base + changes'
      invariant Progress(before, run.agents, changes', b.digests, b.answers, false)
      invariant old(b.answers) <= b.answers && n <= |b.replies| && JudgedSoFar(rows, run.agents, byId, b.replies, n, i)
    {
      ghost var now, replies := run.agents, b.replies;
      ghost var answer, more := JudgeOne(t, run, b, byId, i, before, base, changes');
      changes' := more;
      JudgedNext(rows, now, run.agents, byId, replies, b.replies, n, i, answer);
    }
    b.w.EndPass();
  }

  /** The deadline: every row still queued fails. */
  method GiveUp(t: Tracker, run: Run, b: Backend, ghost before: seq<Row>, ghost base: seq<(ServerId, Status)>,
                ghost changes: seq<(ServerId, Status)>)
    returns (ghost changes': seq<(ServerId, Status)>)
    requires StillWaiting(t, run, b, before, base, changes)
    modifies t`log, run`agents, b.w
    ensures InStep(run, b, Protocol.Waiting) && b.w.s.listed == old(b.w.s.listed)
    ensures run.agents == TimedOut(old(run.agents))
    ensures Progress(before, run.agents, changes', b.digests, b.answers, true) && NoneQueued(run.agents)
    ensures t.log == base + changes'
  {
    b.w.TimeOut();
    LearnMore(before, run.agents, changes, b.digests, b.answers, false, b.digests, b.answers, true);
    changes' := FailQueued(t, run, before, base, changes, b.digests, b.answers);
  }

  method FailQueued(t: Tracker, run: Run, ghost before: seq<Row>, ghost base: seq<(ServerId, Status)>,
                    ghost changes: seq<(ServerId, Status)>, ghost digests: Digests, ghost answers: Answers)
    returns (ghost changes': seq<(ServerId, Status)>)
    requires t.run == run && t.log == base + changes && Progress(before, run.agents, changes, digests, answers, true)
    modifies t`log, run`agents
    ensures run.agents == TimedOut(old(run.agents))
    ensures Progress(before, run.agents, changes', digests, answers, true) && t.log == base + changes'
  {
    changes' := changes;
    ghost var rows := run.agents;
    for i := 0 to |run.agents|
      invariant t.run == run && |run.agents| == |rows| && Progress(before, run.agents, changes', digests, answers, true)
      invariant forall j :: 0 <= j < i ==> run.agents[j] == TimedOut(rows)[j]
      invariant forall j :: i <= j < |rows| ==> run.agents[j] == rows[j]
      invariant t.log == base + changes'
      modifies t`log, run`agents
    {
      if run.agents[i].status == Queued {
        changes' := Change(t, run, i, Failed, before, changes', digests, answers, true);
      }
    }
  }

  /** waitForAgents. It ends after at most TIMEOUT / POLL + 1 polls, with no row queued, each row changed
      at most once and for a reason; rows are given up on only strictly after the deadline or once the
      context is done. */
  method WaitForAgents(t: Tracker, run: Run, b: Backend) returns (ghost changes: seq<(ServerId, Status)>, late: bool)
    requires t.run == run && UniqueServers(run.agents) && InStep(run, b, Protocol.Waiting)
    modifies t`log, run`agents, b`now, b`expired, b`sleeps, b`digests, b`answers, b`replies, b`listings, b.w
    ensures InStep(run, b, Protocol.Waiting) && b.w.s.listed == old(b.w.s.listed)
    ensures t.log == old(t.log) + changes
    ensures Progress(old(run.agents), run.agents, changes, b.digests, b.answers, late) && NoneQueued(run.agents)
    ensures b.sleeps <= old(b.sleeps) + TIMEOUT / POLL + 1 && b.listings - old(b.listings) == b.sleeps - old(b.sleeps)
    ensures late ==> b.now > old(b.now) + TIMEOUT || b.expired
  {
    changes, late := [], false;
    ghost var before, base := run.agents, t.log;
    NothingYet(before, b.digests, b.answers);
    var deadline := b.now + TIMEOUT;
    while true
      invariant StillWaiting(t, run, b, before, base, changes) && b.w.s.listed == old(b.w.s.listed)
      invariant b.listings - old(b.listings) == b.sleeps - old(b.sleeps)
      invariant b.sleeps >= old(b.sleeps) && b.now >= old(b.now) + POLL * (b.sleeps - old(b.sleeps))
      invariant b.sleeps <= old(b.sleeps) + TIMEOUT / POLL + 1
      decreases TIMEOUT / POLL + 1 - (b.sleeps - old(b.sleeps))
    {
      var over;
      over, late, changes := WaitOnce(t, run, b, deadline, before, base, changes);
      if over { return; }
    }
  }

  /** One turn of the loop. */
  method WaitOnce(t: Tracker, run: Run, b: Backend, deadline: int, ghost before: seq<Row>,
                  ghost base: seq<(ServerId, Status)>, ghost changes: seq<(ServerId, Status)>)
    returns (over: bool, late: bool, ghost changes': seq<(ServerId, Status)>)
    requires StillWaiting(t, run, b, before, base, changes)
    modifies t`log, run`agents, b`now, b`expired, b`sleeps, b`digests, b`answers, b`replies, b`listings, b.w
    ensures b.w.s.listed == old(b.w.s.listed)
    ensures over ==> t.log == base + changes' && InStep(run, b, Protocol.Waiting) && NoneQueued(run.agents)
    ensures over ==>
      Progress(before, run.agents, changes', b.digests, b.answers, late) && (late ==> b.now > deadline || b.expired)
    ensures over ==> b.sleeps == old(b.sleeps) && b.listings == old(b.listings) && b.now == old(b.now)
    ensures !over ==> StillWaiting(t, run, b, before, base, changes') && !late && old(b.now) <= deadline
    ensures !over ==> b.sleeps == old(b.sleeps) + 1 && b.listings == old(b.listings) + 1 && b.now >= old(b.now) + POLL
  {
    over, late, changes' := false, false, changes;
    var done, failed, pending := run.Counts();
    if pending == 0 { return true, false, changes; }
    var expired := b.Expired();
    if b.now > deadline || expired {
      changes' := GiveUp(t, run, b, before, base, changes);
      return true, true, changes';
    }
    changes' := SleepAndJudge(t, run, b, before, base, changes);
  }

  method SleepAndJudge(t: Tracker, run: Run, b: Backend, ghost before: seq<Row>, ghost base: seq<(ServerId, Status)>,
                       ghost changes: seq<(ServerId, Status)>)
    returns (ghost changes': seq<(ServerId, Status)>)
    requires StillWaiting(t, run, b, before, base, changes) && !NoneQueued(run.agents)
    modifies t`log, run`agents, b`now, b`expired, b`sleeps, b`digests, b`answers, b`replies, b`listings, b.w
    ensures b.w.s.listed == old(b.w.s.listed) && StillWaiting(t, run, b, before, base, changes')
    ensures b.sleeps == old(b.sleeps) + 1 && b.listings == old(b.listings) + 1 && b.now >= old(b.now) + POLL
  {
    b.Sleep(POLL);
    ghost var view, more := JudgeAll(t, run, b, before, base, changes);
    changes' := more;
  }

  // ---------------------------------------------------------------- the whole run

  /** orchestrateSelfUpdate. Without force, one failed row is enough to leave the controller alone; a
      launch leaves the run waiting to be replaced, and anything else ends it as failed. */
  method Orchestrate(t: Tracker, run: Run, b: Backend, target: string, selfKnown: bool, force: bool)
    returns (ghost changes: seq<(ServerId, Status)>, late: bool)
    requires t.run == run && UniqueServers(run.agents) && !run.finished && InStep(run, b, Protocol.Waiting)
    requires b.w.cfg.force == force
    modifies t`log, run, b, b.w
    ensures InStep(run, b, if b.launched != old(b.launched) then Protocol.Launched else Protocol.Stopped)
    ensures b.w.s.listed == old(b.w.s.listed)
    ensures Progress(old(run.agents), run.agents, changes, b.digests, b.answers, late) && NoneQueued(run.agents)
    ensures t.log == old(t.log) + changes
    ensures b.attempts == old(b.attempts) + if selfKnown && (force || NoneFailed(run.agents)) then 1 else 0
    ensures b.launched == old(b.launched) || (b.launched == old(b.launched) + [target] && b.attempts > old(b.attempts))
    ensures b.launched != old(b.launched) <==> !run.finished
    ensures run.phase == if b.launched != old(b.launched) then Controller else Ended
    ensures run.finished ==> run.failed
    ensures b.sleeps <= old(b.sleeps) + TIMEOUT / POLL + 1
  {
    changes, late := [], false;
    var queued := run.CountQueued();
    if queued == 0 {
      NothingYet(run.agents, b.digests, b.answers);
    } else {
      changes, late := WaitForAgents(t, run, b);
    }
    ReplaceController(t, run, b, target, selfKnown, force);
  }

  /** The end of orchestrateSelfUpdate: the decision, and the launch. */
  method ReplaceController(t: Tracker, run: Run, b: Backend, target: string, selfKnown: bool, force: bool)
    requires t.run == run && NoneQueued(run.agents) && !run.finished && InStep(run, b, Protocol.Waiting)
    requires b.w.cfg.force == force
    modifies run`phase, run`failed, run`finished, b`attempts, b`launched, b.w
    ensures InStep(run, b, if b.launched != old(b.launched) then Protocol.Launched else Protocol.Stopped)
    ensures b.w.s.listed == old(b.w.s.listed)
    ensures b.attempts == old(b.attempts) + if selfKnown && (force || NoneFailed(run.agents)) then 1 else 0
    ensures b.launched == old(b.launched) || (b.launched == old(b.launched) + [target] && b.attempts > old(b.attempts))
    ensures b.launched != old(b.launched) <==> !run.finished
    ensures run.phase == if b.launched != old(b.launched) then Controller else Ended
    ensures run.finished ==> run.failed
  {
    var done, failed, _ := run.Counts();
    if failed > 0 && !force {
      b.w.Decide(false);
      t.Fail();
      return;
    }
    t.SetPhase(Controller);
    if !selfKnown {
      b.w.Decide(false);
      t.Fail();
      return;
    }
    var ok := b.StartSelfUpdate(target);
    b.w.Decide(ok);
    if !ok {
      t.Fail();
      return;
    }
    t.SetPhase(Controller);
  }

  /** What a launch without force says about the agents that were online when they were listed. */
  ghost predicate AllAccountedFor(hosts: seq<Host>, rows: seq<Row>, digests: Digests, answers: Answers)
  {
    forall h :: h in hosts && Reachable(h) ==> exists i :: 0 <= i < |rows| && Accounts(rows[i], h, digests, answers)
  }

  ghost predicate Accounts(row: Row, h: Host, digests: Digests, answers: Answers)
  {
    row.server == h.id && row.digest == h.digest && Evidence(row, digests, answers)
  }

  lemma LaunchMeansEvidence(hosts: seq<Host>, before: seq<Row>, rows: seq<Row>, release: Release,
                            created: map<CommandId, Protocol.Command>, refused: set<ServerId>, digests: Digests,
                            answers: Answers, late: bool)
    requires PlannedFor(hosts, before, release, created, refused) && Moves(before, rows)
    requires Justified(before, rows, digests, answers, late)
    requires NoneQueued(rows) && NoneFailed(rows)
    ensures AllAccountedFor(hosts, rows, digests, answers)
  {
    forall h | h in hosts && Reachable(h)
      ensures exists i :: 0 <= i < |rows| && Accounts(rows[i], h, digests, answers)
    {
      var agents := AgentsOf(hosts);
      assert h in agents;
      var i :| 0 <= i < |agents| && agents[i] == h;
      assert Records(before[i], h, release, refused);
      assert MovesTo(before[i], rows[i]);
      assert JustifiedRow(rows[i], digests, answers, late) && Accounts(rows[i], h, digests, answers);
    }
  }

  lemma PlannedUnique(hosts: seq<Host>, rows: seq<Row>, release: Release, created: map<CommandId, Protocol.Command>,
                      refused: set<ServerId>)
    requires DistinctHosts(hosts) && PlannedFor(hosts, rows, release, created, refused)
    ensures UniqueServers(rows)
  {
    AgentsDistinct(hosts);
    var agents := AgentsOf(hosts);
    assert forall i :: 0 <= i < |rows| ==> rows[i].server == agents[i].id;
  }

  /** The rows are those of the agents in list order, and exactly the offline ones are skipped. */
  predicate OfflineSkipped(hosts: seq<Host>, rows: seq<Row>)
  {
    var agents := AgentsOf(hosts);
    |rows| == |agents| && forall i :: 0 <= i < |rows| ==>
      rows[i].server == agents[i].id && (rows[i].status == Skipped <==> !agents[i].online)
  }

  /** Every agent that was online when listed ended up updated. */
  ghost predicate AllUpdated(hosts: seq<Host>, rows: seq<Row>)
  {
    forall h :: h in hosts && Reachable(h) ==>
      exists i :: 0 <= i < |rows| && rows[i].server == h.id && rows[i].status == Updated
  }

  lemma OfflineHoldNobodyUp(hosts: seq<Host>, before: seq<Row>, rows: seq<Row>, release: Release,
                            created: map<CommandId, Protocol.Command>, refused: set<ServerId>)
    requires DistinctHosts(hosts) && PlannedFor(hosts, before, release, created, refused) && Moves(before, rows)
    ensures OfflineSkipped(hosts, rows) && (AllUpdated(hosts, rows) ==> NoneFailed(rows))
  {
    var agents := AgentsOf(hosts);
    forall i | 0 <= i < |rows|
      ensures rows[i].server == agents[i].id && (rows[i].status == Skipped <==> !agents[i].online)
    {
      assert Records(before[i], agents[i], release, refused) && MovesTo(before[i], rows[i]);
    }
    if AllUpdated(hosts, rows) { UpdatedNoneFailed(hosts, rows); }
  }

  lemma UpdatedNoneFailed(hosts: seq<Host>, rows: seq<Row>)
    requires DistinctHosts(hosts) && OfflineSkipped(hosts, rows) && AllUpdated(hosts, rows)
    ensures NoneFailed(rows)
  {
    var agents := AgentsOf(hosts);
    AgentsDistinct(hosts);
    forall i | 0 <= i < |rows| ensures rows[i].status != Failed {
      assert agents[i] in agents;
      if agents[i].online {
        var j :| 0 <= j < |rows| && rows[j].server == agents[i].id && rows[j].status == Updated;
        assert agents[j].id == agents[i].id;
      }
    }
  }

  /** startSelfUpdateRun, whatever else happens meanwhile: it is a run of the protocol. The controller is
      replaced without force only when every agent online at planning has reported another digest or
      answered done: provided the agents could be listed. When they could not, nothing at all is required
      of them. */
  method StartSelfUpdateRun(t: Tracker, b: Backend, selfKnown: bool)
    returns (run: Run, ghost listed: bool, ghost hosts: seq<Host>)
    requires b.w.Traced() && b.w.s.phase.Idle?
    modifies t, b, b.w
    ensures fresh(run) && t.run == run && NoneQueued(run.agents)
    ensures b.launched == old(b.launched) || b.launched == old(b.launched) + [b.w.cfg.release.target]
    // The protocol has moved along with the run: it ends launched or stopped, with the same rows.
    ensures InStep(run, b, if b.launched != old(b.launched) then Protocol.Launched else Protocol.Stopped)
    ensures b.w.s.listed == listed
    ensures listed && !b.w.cfg.force && b.launched != old(b.launched) ==> Protocol.EveryAgentAccounted(b.w.cfg, b.w.s)
    ensures listed && !b.w.cfg.force && b.launched != old(b.launched) ==>
      AllAccountedFor(hosts, run.agents, b.digests, b.answers)
    // Offline agents stay skipped and hold nobody up: once every other agent is updated, the launch is tried.
    ensures listed ==> DistinctHosts(hosts) && OfflineSkipped(hosts, run.agents)
    ensures listed && selfKnown && AllUpdated(hosts, run.agents) ==> b.attempts == old(b.attempts) + 1
    ensures !listed ==> run.agents == [] && (selfKnown ==> b.attempts == old(b.attempts) + 1)
    ensures b.sleeps <= old(b.sleeps) + TIMEOUT / POLL + 1
  {
    run := new Run();
    b.w.Sound();
    listed, hosts := PlanAgents(run, b);
    ghost var before, created, release := run.agents, b.w.s.issued, b.w.cfg.release;
    ghost var refused := b.refused;
    if listed { PlannedUnique(hosts, before, release, created, refused); }
    t.Set(run);
    ghost var changes, late := Orchestrate(t, run, b, b.w.cfg.release.target, selfKnown, b.w.cfg.force);
    if listed && !b.w.cfg.force && b.launched != old(b.launched) {
      b.w.Sound();
      Protocol.LaunchedIsSafe(b.w.cfg, b.w.s);
      LaunchMeansEvidence(hosts, before, run.agents, release, created, refused, b.digests, b.answers, late);
    }
    if listed { OfflineHoldNobodyUp(hosts, before, run.agents, release, created, refused); }
  }
}
