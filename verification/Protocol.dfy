/** The self-update protocol between the controller, its durable command queue and the agents, as a
    transition system (internal/server/selfupdate_run.go, internal/server/agent_handlers.go,
    internal/store/extra.go:95-189, internal/agent/agent.go:103-185). Messages may be lost, delivered
    late or delivered again, and an agent may execute a command more than once. One run is live. */
module Protocol {
  import opened AgentRows
  import opened Wrappers
  import Checker

  datatype Command = Command(server: ServerId, selfUpdate: bool, target: string, answer: Answer)

  /** A result an agent posts, under its own token. */
  datatype Message = Message(sender: ServerId, command: CommandId, answer: Answer)

  datatype Phase =
    | Idle
    | Planning(todo: seq<Host>)
    | Waiting
    | Passing(view: map<ServerId, string>, next: nat)
    | Launched
    | Stopped

  /** From issued on, history: every command ever queued, what agents did, which results were accepted;
      the servers and the commands there were when planning began, and the digests reported since. */
  datatype State = State(
    hosts: map<ServerId, Host>,
    commands: map<CommandId, Command>,
    fetched: set<(ServerId, CommandId)>,
    posted: set<Message>,
    phase: Phase,
    rows: seq<Row>,
    issued: map<CommandId, Command>,
    carriedOut: set<(ServerId, CommandId)>,
    accepted: set<Message>,
    listed: bool,
    planned: map<ServerId, Host>,
    earlier: set<CommandId>,
    reported: Digests)

  datatype Step =
    // The controller's run.
    | List(hosts: Option<seq<Host>>)
    | PlanNext(queued: Option<CommandId>)
    | BeginPass
    | JudgeNext(readable: bool)
    | EndPass
    | TimeOut
    | Decide(started: bool)
    // The controller's request handlers.
    | Report(server: ServerId, image: string, digest: string)
    | Deliver(message: Message)
    | Enqueue(command: CommandId, server: ServerId, target: string)
    | Register(server: ServerId, isAgent: bool)
    | Offline(server: ServerId)
    | Remove(server: ServerId)
    // The agents.
    | Fetch(server: ServerId)
    | Execute(server: ServerId, command: CommandId, worked: bool)

  datatype Config = Config(release: Release, force: bool)

  predicate Lists(hosts: seq<Host>, table: map<ServerId, Host>)
  {
    && (forall h :: h in hosts ==> h.id in table && table[h.id] == h)
    && (forall id :: id in table ==> table[id] in hosts)
  }

  predicate Enabled(s: State, step: Step)
  {
    match step
    case List(hosts) => s.phase.Idle? && (hosts.Some? ==> Lists(hosts.value, s.hosts))
    case PlanNext(queued) => s.phase.Planning? && (queued.Some? ==> queued.value !in s.issued)
    case BeginPass => s.phase.Waiting? && !NoneQueued(s.rows)
    case JudgeNext(_) => s.phase.Passing? && s.phase.next < |s.rows|
    case EndPass => s.phase.Passing? && s.phase.next >= |s.rows|
    case TimeOut => s.phase.Waiting?
    case Decide(_) => s.phase.Waiting? && NoneQueued(s.rows)
    case Report(server, _, _) => server in s.hosts
    case Deliver(m) => m in s.posted && m.sender in s.hosts
    case Enqueue(c, _, _) => c !in s.issued
    case Register(server, _) => server !in s.hosts
    case Offline(server) => server in s.hosts
    case Remove(server) => true
    case Fetch(server) => server in s.hosts
    case Execute(server, c, _) => (server, c) in s.fetched && c in s.issued
  }

  /** The command is the sender's own and has no reply yet. */
  predicate Accepts(commands: map<CommandId, Command>, m: Message)
  {
    m.command in commands && commands[m.command].server == m.sender && commands[m.command].answer == Pending
  }

  function Answered(commands: map<CommandId, Command>, m: Message): map<CommandId, Command>
  {
    if Accepts(commands, m) then commands[m.command := commands[m.command].(answer := m.answer)] else commands
  }

  predicate IsPending(commands: map<CommandId, Command>, server: ServerId, c: CommandId)
  {
    c in commands && commands[c].server == server && commands[c].answer == Pending
  }

  function PendingFor(s: State, server: ServerId): set<(ServerId, CommandId)>
  {
    set c | c in s.commands && IsPending(s.commands, server, c) :: (server, c)
  }

  function WithoutServer(commands: map<CommandId, Command>, server: ServerId): map<CommandId, Command>
  {
    map c | c in commands && commands[c].server != server :: commands[c]
  }

  function Issue(s: State, id: CommandId, c: Command): State
  {
    s.(commands := s.commands[id := c], issued := s.issued[id := c])
  }

  function PlanHost(s: State, h: Host, release: Release, command: Option<CommandId>): State
  {
    if !h.isAgent then s
    else
      var row := Planned(h, release, command);
      var queued :=
        if row.command.None? then s
        else Issue(s, row.command.value, Command(h.id, true, row.target, Pending));
      queued.(rows := s.rows + [row])
  }

  function AnswerRead(s: State, row: Row, readable: bool): Option<Answer>
  {
    if readable && row.command.Some? && row.command.value in s.commands
    then Some(s.commands[row.command.value].answer) else None
  }

  /** What an agent answers: a self-update without a target is refused before anything is tried. */
  function Reply(c: Command, worked: bool): Answer
  {
    if worked && (c.selfUpdate ==> c.target != "") then Done else Refused
  }

  function Apply(cfg: Config, s: State, step: Step): State
    requires Enabled(s, step)
  {
    match step
    case List(None) => s.(phase := Waiting, planned := s.hosts, earlier := s.issued.Keys, reported := {})
    case List(Some(hosts)) => s.(phase := Planning(hosts), listed := true, planned := s.hosts,
        earlier := s.issued.Keys, reported := {})
    case PlanNext(queued) =>
      if s.phase.todo == [] then s.(phase := Waiting)
      else PlanHost(s, s.phase.todo[0], cfg.release, queued).(phase := Planning(s.phase.todo[1..]))
    case BeginPass => s.(phase := Passing(map id | id in s.hosts :: s.hosts[id].digest, 0))
    case JudgeNext(readable) =>
      var row := s.rows[s.phase.next];
      var status := Judged(row, DigestIn(s.phase.view, row.server), AnswerRead(s, row, readable));
      s.(rows := s.rows[s.phase.next := row.(status := status)], phase := s.phase.(next := s.phase.next + 1))
    case EndPass => s.(phase := Waiting)
    case TimeOut => s.(rows := TimedOut(s.rows))
    case Decide(started) => s.(phase := if (cfg.force || NoneFailed(s.rows)) && started then Launched else Stopped)
    case Report(server, image, digest) =>
      var h := s.hosts[server];
      var told := h.(online := true,
                     image := if image != "" then image else h.image,
                     digest := if digest != "" then digest else h.digest);
      s.(hosts := s.hosts[server := told], reported := s.reported + {(server, digest)})
    case Deliver(m) =>
      s.(commands := Answered(s.commands, m),
         accepted := if Accepts(s.commands, m) then s.accepted + {m} else s.accepted)
    case Enqueue(c, server, target) => Issue(s, c, Command(server, false, target, Pending))
    case Register(server, isAgent) => s.(hosts := s.hosts[server := Host(server, isAgent, false, "", "")])
    case Offline(server) => s.(hosts := s.hosts[server := s.hosts[server].(online := false)])
    case Remove(server) =>
      s.(hosts := s.hosts - {server}, commands := WithoutServer(s.commands, server))
    case Fetch(server) => s.(fetched := s.fetched + PendingFor(s, server))
    case Execute(server, c, worked) =>
      var reply := Reply(s.issued[c], worked);
      s.(posted := s.posted + {Message(server, c, reply)},
         carriedOut := if reply == Done then s.carriedOut + {(server, c)} else s.carriedOut)
  }

  // ---------------------------------------------------------------- what holds in every reachable state

  /** The queue: commands are as issued but for their answer, and whatever was fetched, posted, accepted
      or stored as an answer goes back to the addressee carrying it out. */
  ghost predicate QueueSound(s: State)
  {
    && (forall c :: c in s.commands ==> c in s.issued && s.commands[c] == s.issued[c].(answer := s.commands[c].answer))
    && (forall p :: p in s.fetched ==> p.1 in s.issued && s.issued[p.1].server == p.0)
    && (forall m :: m in s.posted && m.answer == Done ==> (m.sender, m.command) in s.carriedOut)
    && (forall m :: m in s.posted ==> m.answer != Pending)
    && s.accepted <= s.posted && s.carriedOut <= s.fetched
    && (forall c :: c in s.commands && s.commands[c].answer == Done ==>
          Message(s.commands[c].server, c, Done) in s.accepted)
    && (forall p :: p in s.carriedOut ==> s.issued[p.1].selfUpdate ==> s.issued[p.1].target != "")
    && (forall id :: id in s.hosts ==> s.hosts[id].id == id)
  }

  /** A digest known to the controller that is neither blank nor the planned one was reported since. */
  ghost predicate DigestSound(s: State, id: ServerId, digest: string)
  {
    id in s.planned && digest != "" && digest != s.planned[id].digest ==> (id, digest) in s.reported
  }

  ghost predicate DigestsSound(s: State)
  {
    && (forall id :: id in s.hosts ==> DigestSound(s, id, s.hosts[id].digest))
    && (s.phase.Passing? ==> forall id :: id in s.phase.view ==> DigestSound(s, id, s.phase.view[id]))
  }

  /** The agent reported another digest since planning, or was sent its own self-update, carried it out
      and had its answer "done" accepted. */
  ghost predicate Accounted(cfg: Config, s: State, h: Host)
  {
    (exists d :: (h.id, d) in s.reported && d != "" && d != h.digest) || (exists c :: AnsweredDone(cfg, s, h, c))
  }

  /** Command c is this run's own order to the agent. */
  ghost predicate Ordered(cfg: Config, s: State, h: Host, c: CommandId)
  {
    && c in s.issued && c !in s.earlier
    && s.issued[c] == Command(h.id, true, Checker.AgentTarget(h.image, cfg.release.kind, cfg.release.target), Pending)
  }

  ghost predicate AnsweredDone(cfg: Config, s: State, h: Host, c: CommandId)
  {
    Ordered(cfg, s, h, c) && (h.id, c) in s.carriedOut && Message(h.id, c, Done) in s.accepted
  }

  ghost predicate RowSound(cfg: Config, s: State, row: Row)
  {
    && row.server in s.planned
    && (row.command.Some? ==> Ordered(cfg, s, s.planned[row.server], row.command.value))
    && row.digest == s.planned[row.server].digest
    && (row.status == Updated ==> Accounted(cfg, s, s.planned[row.server]))
    && (row.status == Skipped <==> !s.planned[row.server].online)
  }

  ghost predicate HasRow(s: State, id: ServerId) { exists i :: 0 <= i < |s.rows| && s.rows[i].server == id }

  ghost predicate Covered(s: State)
  {
    s.listed ==> forall id :: id in s.planned && s.planned[id].isAgent ==>
      HasRow(s, id) || (s.phase.Planning? && s.planned[id] in s.phase.todo)
  }

  ghost predicate Inv(cfg: Config, s: State)
  {
    && QueueSound(s)
    && (s.phase.Idle? ==> s.rows == [] && s.planned == map[] && s.earlier == {} && !s.listed)
    && DigestsSound(s) && Covered(s)
    && (!s.listed ==> s.rows == [] && !s.phase.Planning?)
    && (forall id :: id in s.planned ==> s.planned[id].id == id)
    && s.earlier <= s.issued.Keys
    && (s.phase.Planning? ==> forall h :: h in s.phase.todo ==> h.id in s.planned && s.planned[h.id] == h)
    && (forall i :: 0 <= i < |s.rows| ==> RowSound(cfg, s, s.rows[i]))
    && (s.phase.Launched? ==> NoneQueued(s.rows) && (cfg.force || NoneFailed(s.rows)))
  }

  // ---------------------------------------------------------------- every step keeps it

  predicate SameQueue(s: State, s': State)
  {
    && s'.commands == s.commands && s'.issued == s.issued && s'.fetched == s.fetched && s'.posted == s.posted
    && s'.accepted == s.accepted && s'.carriedOut == s.carriedOut
  }

  lemma QueueUntouched(s: State, s': State)
    requires QueueSound(s) && SameQueue(s, s') && forall id :: id in s'.hosts ==> s'.hosts[id].id == id
    ensures QueueSound(s')
  {
  }

  lemma QueueIssue(s: State, id: CommandId, c: Command)
    requires QueueSound(s) && id !in s.issued && c.answer == Pending
    ensures QueueSound(Issue(s, id, c))
  {
  }

  lemma QueueDeliver(cfg: Config, s: State, m: Message)
    requires QueueSound(s) && Enabled(s, Deliver(m))
    ensures QueueSound(Apply(cfg, s, Deliver(m)))
  {
  }

  lemma QueueFetch(cfg: Config, s: State, server: ServerId)
    requires QueueSound(s) && Enabled(s, Fetch(server))
    ensures QueueSound(Apply(cfg, s, Fetch(server)))
  {
  }

  lemma QueueExecute(cfg: Config, s: State, server: ServerId, c: CommandId, worked: bool)
    requires QueueSound(s) && Enabled(s, Execute(server, c, worked))
    ensures QueueSound(Apply(cfg, s, Execute(server, c, worked)))
  {
  }

  lemma QueuePlan(s: State, h: Host, release: Release, command: Option<CommandId>)
    requires QueueSound(s) && (command.Some? ==> command.value !in s.issued)
    ensures QueueSound(PlanHost(s, h, release, command))
  {
    var row := Planned(h, release, command);
    if h.isAgent && row.command.Some? {
      var c := Command(h.id, true, row.target, Pending);
      QueueIssue(s, row.command.value, c);
      QueueUntouched(Issue(s, row.command.value, c), PlanHost(s, h, release, command));
    } else {
      QueueUntouched(s, PlanHost(s, h, release, command));
    }
  }

  lemma QueueRemove(cfg: Config, s: State, server: ServerId)
    requires QueueSound(s)
    ensures QueueSound(Apply(cfg, s, Remove(server)))
  {
  }

  predicate TouchesQueue(step: Step)
  {
    step.PlanNext? || step.Enqueue? || step.Deliver? || step.Fetch? || step.Execute? || step.Remove?
  }

  lemma QueueLeftAlone(cfg: Config, s: State, step: Step)
    requires QueueSound(s) && Enabled(s, step) && !TouchesQueue(step)
    ensures QueueSound(Apply(cfg, s, step))
  {
    QueueUntouched(s, Apply(cfg, s, step));
  }

  lemma QueueStep(cfg: Config, s: State, step: Step)
    requires QueueSound(s) && Enabled(s, step)
    ensures QueueSound(Apply(cfg, s, step))
  {
    if !TouchesQueue(step) {
      QueueLeftAlone(cfg, s, step);
    } else if step.PlanNext? {
      if s.phase.todo != [] {
        var next := PlanHost(s, s.phase.todo[0], cfg.release, step.queued);
        QueuePlan(s, s.phase.todo[0], cfg.release, step.queued);
        QueueUntouched(next, Apply(cfg, s, step));
      }
    } else if step.Enqueue? {
      QueueIssue(s, step.command, Command(step.server, false, step.target, Pending));
    } else if step.Deliver? {
      QueueDeliver(cfg, s, step.message);
    } else if step.Remove? {
      QueueRemove(cfg, s, step.server);
    } else if step.Fetch? {
      QueueFetch(cfg, s, step.server);
    } else {
      QueueExecute(cfg, s, step.server, step.command, step.worked);
    }
  }

  /** History is never rewritten, and planning fixes the agents once. */
  ghost predicate Grows(s: State, s': State)
  {
    && (forall c :: c in s.issued ==> c in s'.issued && s'.issued[c] == s.issued[c])
    && s.carriedOut <= s'.carriedOut && s.accepted <= s'.accepted && s.reported <= s'.reported &&
        s.planned == s'.planned && s.earlier == s'.earlier
  }

  lemma HistoryGrows(cfg: Config, s: State, step: Step)
    requires Enabled(s, step) && !step.List?
    ensures Grows(s, Apply(cfg, s, step)) && Apply(cfg, s, step).listed == s.listed
  {
    if step.PlanNext? {
      if s.phase.todo != [] { PlanGrows(s, s.phase.todo[0], cfg.release, step.queued); }
    } else if step.Deliver? || step.Execute? || step.Enqueue? || step.Report? {
      HandlersGrow(cfg, s, step);
    }
  }

  lemma PlanGrows(s: State, h: Host, release: Release, command: Option<CommandId>)
    requires command.Some? ==> command.value !in s.issued
    ensures Grows(s, PlanHost(s, h, release, command))
  {
  }

  lemma HandlersGrow(cfg: Config, s: State, step: Step)
    requires Enabled(s, step) && (step.Deliver? || step.Execute? || step.Enqueue? || step.Report?)
    ensures Grows(s, Apply(cfg, s, step)) && Apply(cfg, s, step).listed == s.listed
  {
  }

  lemma RowStaysSound(cfg: Config, s: State, s': State, row: Row)
    requires Grows(s, s') && RowSound(cfg, s, row)
    ensures RowSound(cfg, s', row)
  {
    var h := s.planned[row.server];
    if row.status == Updated {
      if d :| (h.id, d) in s.reported && d != "" && d != h.digest {
        assert (h.id, d) in s'.reported;
      } else {
        var c :| AnsweredDone(cfg, s, h, c);
        assert AnsweredDone(cfg, s', h, c);
      }
    }
  }

  lemma DigestsUntouched(s: State, s': State)
    requires DigestsSound(s) && s'.planned == s.planned && s'.reported == s.reported
    requires forall id :: id in s'.hosts && s'.hosts[id].digest != "" ==>
      id in s.hosts && s'.hosts[id].digest == s.hosts[id].digest
    requires s'.phase.Passing? ==>
      || (s.phase.Passing? && s'.phase.view == s.phase.view)
      || s'.phase.view == map id | id in s.hosts :: s.hosts[id].digest
    ensures DigestsSound(s')
  {
  }

  lemma DigestsReport(cfg: Config, s: State, server: ServerId, image: string, digest: string)
    requires DigestsSound(s) && Enabled(s, Report(server, image, digest))
    ensures DigestsSound(Apply(cfg, s, Report(server, image, digest)))
  {
  }

  lemma PlanHostFacts(s: State, h: Host, release: Release, command: Option<CommandId>)
    ensures var s' := PlanHost(s, h, release, command);
            s'.hosts == s.hosts && s'.phase == s.phase && s'.planned == s.planned && s'.reported == s.reported
  {
  }

  lemma DigestsHosts(cfg: Config, s: State, step: Step)
    requires DigestsSound(s) && Enabled(s, step) && (step.Register? || step.Offline? || step.Remove?)
    ensures DigestsSound(Apply(cfg, s, step))
  {
    DigestsUntouched(s, Apply(cfg, s, step));
  }

  lemma DigestsLeftAlone(cfg: Config, s: State, step: Step)
    requires DigestsSound(s) && Enabled(s, step)
    requires step.JudgeNext? || step.EndPass? || step.TimeOut? || step.Decide? || step.Deliver? || step.Enqueue? ||
      step.Fetch? || step.Execute?
    ensures DigestsSound(Apply(cfg, s, step))
  {
    DigestsUntouched(s, Apply(cfg, s, step));
  }

  lemma DigestsStep(cfg: Config, s: State, step: Step)
    requires DigestsSound(s) && Enabled(s, step) && (s.phase.Idle? ==> s.planned == map[])
    ensures DigestsSound(Apply(cfg, s, step))
  {
    if step.Report? {
      DigestsReport(cfg, s, step.server, step.image, step.digest);
    } else if step.PlanNext? {
      if s.phase.todo != [] { PlanHostFacts(s, s.phase.todo[0], cfg.release, step.queued); }
      DigestsUntouched(s, Apply(cfg, s, step));
    } else if step.Register? || step.Offline? || step.Remove? {
      DigestsHosts(cfg, s, step);
    } else if step.BeginPass? {
      DigestsUntouched(s, Apply(cfg, s, step));
    } else if !step.List? {
      DigestsLeftAlone(cfg, s, step);
    }
  }

  /** Steps that change neither the rows nor the plan. */
  predicate LeavesRows(step: Step)
  {
    !step.List? && !step.PlanNext? && !step.JudgeNext? && !step.TimeOut?
  }

  lemma RowsKept(cfg: Config, s: State, step: Step)
    requires Enabled(s, step) && LeavesRows(step)
    ensures Apply(cfg, s, step).rows == s.rows
    ensures (Apply(cfg, s, step).phase.Planning? ==> Apply(cfg, s, step).phase == s.phase)
    ensures Apply(cfg, s, step).phase.Idle? ==> s.phase.Idle?
    ensures s.phase.Planning? ==> Apply(cfg, s, step).phase == s.phase
    ensures Apply(cfg, s, step).phase.Launched? ==>
      s.phase.Launched? || (NoneQueued(s.rows) && (cfg.force || NoneFailed(s.rows)))
  {
  }

  lemma InvList(cfg: Config, s: State, step: Step)
    requires Inv(cfg, s) && Enabled(s, step) && step.List?
    ensures Inv(cfg, Apply(cfg, s, step))
  {
    QueueStep(cfg, s, step);
    DigestsStep(cfg, s, step);
    if step.hosts.Some? {
      var s' := Apply(cfg, s, step);
      assert forall id :: id in s'.planned ==> s'.planned[id] in s'.phase.todo;
    }
  }

  lemma InvOthers(cfg: Config, s: State, step: Step)
    requires Inv(cfg, s) && Enabled(s, step) && LeavesRows(step)
    ensures Inv(cfg, Apply(cfg, s, step))
  {
    var s' := Apply(cfg, s, step);
    QueueStep(cfg, s, step);
    DigestsStep(cfg, s, step);
    HistoryGrows(cfg, s, step);
    RowsKept(cfg, s, step);
    forall i | 0 <= i < |s'.rows| ensures RowSound(cfg, s', s'.rows[i]) { RowStaysSound(cfg, s, s', s.rows[i]); }
    assert Covered(s') by {
      forall id | s'.listed && id in s'.planned && s'.planned[id].isAgent && !(s'.phase.Planning? &&
          s'.planned[id] in s'.phase.todo)
        ensures HasRow(s', id)
      {
        assert HasRow(s, id);
      }
    }
  }

  lemma NewRowSound(cfg: Config, s: State, h: Host, command: Option<CommandId>)
    requires h.id in s.planned && s.planned[h.id] == h && h.isAgent && s.earlier <= s.issued.Keys
    requires (command.Some? ==> command.value !in s.issued)
    ensures RowSound(cfg, PlanHost(s, h, cfg.release, command), Planned(h, cfg.release, command))
  {
  }

  lemma InvPlan(cfg: Config, s: State, step: Step)
    requires Inv(cfg, s) && Enabled(s, step) && step.PlanNext?
    ensures Inv(cfg, Apply(cfg, s, step))
  {
    var s' := Apply(cfg, s, step);
    QueueStep(cfg, s, step);
    DigestsStep(cfg, s, step);
    HistoryGrows(cfg, s, step);
    if s.phase.todo != [] {
      var h := s.phase.todo[0];
      if h.isAgent {
        NewRowSound(cfg, s, h, step.queued);
        RowStaysSound(cfg, PlanHost(s, h, cfg.release, step.queued), s', Planned(h, cfg.release, step.queued));
      }
    }
    forall i | 0 <= i < |s'.rows| ensures RowSound(cfg, s', s'.rows[i]) {
      if i < |s.rows| { RowStaysSound(cfg, s, s', s.rows[i]); }
    }
    assert Covered(s') by { PlanCovers(cfg, s, step); }
  }

  lemma PlanCovers(cfg: Config, s: State, step: Step)
    requires Inv(cfg, s) && Enabled(s, step) && step.PlanNext?
    ensures Covered(Apply(cfg, s, step))
  {
    var s' := Apply(cfg, s, step);
    forall id | s.listed && id in s.planned && s.planned[id].isAgent
      ensures HasRow(s', id) || (s'.phase.Planning? && s.planned[id] in s'.phase.todo)
    {
      if HasRow(s, id) {
        var i :| 0 <= i < |s.rows| && s.rows[i].server == id;
        assert s'.rows[i].server == id;
      } else if s.planned[id] == s.phase.todo[0] {
        assert s'.rows[|s.rows|].server == id;
      }
    }
  }

  /** What one row of one pass rests on: a digest in the view was reported, an answer read was accepted. */
  lemma JudgedRowSound(cfg: Config, s: State, row: Row, digest: Option<string>, answer: Option<Answer>)
    requires QueueSound(s) && RowSound(cfg, s, row) && row.status == Queued
    requires digest.Some? ==> DigestSound(s, row.server, digest.value)
    requires answer.Some? ==>
      row.command.Some? && row.command.value in s.commands && answer.value == s.commands[row.command.value].answer
    requires s.planned[row.server].id == row.server
    ensures RowSound(cfg, s, row.(status := Judged(row, digest, answer)))
  {
    var h := s.planned[row.server];
    if Judged(row, digest, answer) == Updated {
      if Returned(row, digest) {
        assert (h.id, digest.value) in s.reported;
      } else {
        var c := row.command.value;
        assert Message(s.commands[c].server, c, Done) in s.accepted;
        assert AnsweredDone(cfg, s, h, c);
      }
    }
  }

  lemma InvJudge(cfg: Config, s: State, step: Step)
    requires Inv(cfg, s) && Enabled(s, step) && step.JudgeNext?
    ensures Inv(cfg, Apply(cfg, s, step))
  {
    var s' := Apply(cfg, s, step);
    QueueStep(cfg, s, step);
    DigestsStep(cfg, s, step);
    HistoryGrows(cfg, s, step);
    var n := s.phase.next;
    var row := s.rows[n];
    assert RowSound(cfg, s, row);
    if row.status == Queued {
      JudgedRowSound(cfg, s, row, DigestIn(s.phase.view, row.server), AnswerRead(s, row, step.readable));
    }
    forall i | 0 <= i < |s'.rows| ensures RowSound(cfg, s', s'.rows[i]) {
      RowStaysSound(cfg, s, s', if i == n then s'.rows[n] else s.rows[i]);
    }
    assert Covered(s') by { SameServersCover(s, s'); }
  }

  lemma SameServersCover(s: State, s': State)
    requires Covered(s) && s'.planned == s.planned && s'.listed == s.listed && !s.phase.Planning?
    requires |s'.rows| == |s.rows| && forall i :: 0 <= i < |s.rows| ==> s'.rows[i].server == s.rows[i].server
    ensures Covered(s')
  {
    forall id | s.listed && id in s.planned && s.planned[id].isAgent ensures HasRow(s', id) {
      var i :| 0 <= i < |s.rows| && s.rows[i].server == id;
      assert s'.rows[i].server == id;
    }
  }

  lemma InvTimeOut(cfg: Config, s: State, step: Step)
    requires Inv(cfg, s) && Enabled(s, step) && step.TimeOut?
    ensures Inv(cfg, Apply(cfg, s, step))
  {
    var s' := Apply(cfg, s, step);
    QueueStep(cfg, s, step);
    DigestsStep(cfg, s, step);
    HistoryGrows(cfg, s, step);
    forall i | 0 <= i < |s'.rows| ensures RowSound(cfg, s', s'.rows[i]) { RowStaysSound(cfg, s, s', s.rows[i]); }
    SameServersCover(s, s');
  }

  lemma InvStep(cfg: Config, s: State, step: Step)
    requires Inv(cfg, s) && Enabled(s, step)
    ensures Inv(cfg, Apply(cfg, s, step))
  {
    if step.List? {
      InvList(cfg, s, step);
    } else if step.PlanNext? {
      InvPlan(cfg, s, step);
    } else if step.JudgeNext? {
      InvJudge(cfg, s, step);
    } else if step.TimeOut? {
      InvTimeOut(cfg, s, step);
    } else {
      InvOthers(cfg, s, step);
    }
  }

  // ---------------------------------------------------------------- runs

  /** No run has begun, and the queue's history is its own. */
  ghost predicate Start(s: State)
  {
    s.phase.Idle? && s.rows == [] && s.planned == map[] && s.earlier == {} && !s.listed && QueueSound(s)
  }

  ghost predicate Run(cfg: Config, states: seq<State>, steps: seq<Step>)
  {
    && |states| == |steps| + 1 && Start(states[0])
    && forall k :: 0 <= k < |steps| ==> Enabled(states[k], steps[k]) && states[k + 1] == Apply(cfg, states[k], steps[k])
  }

  lemma {:induction false} RunKeepsInv(cfg: Config, states: seq<State>, steps: seq<Step>, k: nat)
    requires Run(cfg, states, steps) && k < |states|
    ensures Inv(cfg, states[k])
  {
    if k > 0 {
      RunKeepsInv(cfg, states, steps, k - 1);
      InvStep(cfg, states[k - 1], steps[k - 1]);
    }
  }

  ghost predicate EveryAgentAccounted(cfg: Config, s: State)
  {
    forall id :: id in s.planned && s.planned[id].isAgent && s.planned[id].online ==> Accounted(cfg, s, s.planned[id])
  }

  lemma LaunchedIsSafe(cfg: Config, s: State)
    requires Inv(cfg, s) && s.listed && s.phase.Launched? && !cfg.force
    ensures EveryAgentAccounted(cfg, s)
  {
    forall id | id in s.planned && s.planned[id].isAgent && s.planned[id].online
      ensures Accounted(cfg, s, s.planned[id])
    {
      var i :| 0 <= i < |s.rows| && s.rows[i].server == id;
      assert RowSound(cfg, s, s.rows[i]) && s.rows[i].status != Queued && s.rows[i].status != Failed;
    }
  }

  /** The main result: whatever is lost, delayed, repeated or removed, once the controller's replacement
      has been started without force, every agent online at planning is accounted for, provided that
      planning could list the agents. */
  lemma NoLaunchBeforeTheAgents(cfg: Config, states: seq<State>, steps: seq<Step>, k: nat)
    requires Run(cfg, states, steps) && k < |states| && states[k].phase.Launched? && !cfg.force && states[k].listed
    ensures EveryAgentAccounted(cfg, states[k])
  {
    RunKeepsInv(cfg, states, steps, k);
    LaunchedIsSafe(cfg, states[k]);
  }

  /** Offline agents hold nobody up: with every row of an agent that was online at planning updated, the
      replacement can be started, and is if the daemon lets it. */
  lemma OfflineAgentsHoldNobodyUp(cfg: Config, states: seq<State>, steps: seq<Step>, k: nat)
    requires Run(cfg, states, steps) && k < |states| && states[k].phase.Waiting?
    requires OnlineUpdated(states[k])
    ensures Enabled(states[k], Decide(true)) && Apply(cfg, states[k], Decide(true)).phase.Launched?
  {
    RunKeepsInv(cfg, states, steps, k);
    forall i | 0 <= i < |states[k].rows| ensures states[k].rows[i].status in {Updated, Skipped} {
      assert RowSound(cfg, states[k], states[k].rows[i]) && states[k].rows[i] in states[k].rows;
    }
  }

  /** Every row of an agent that was online at planning. */
  predicate OnlineUpdated(s: State)
  {
    forall row :: row in s.rows && row.server in s.planned && s.planned[row.server].online ==> row.status == Updated
  }

  /** A report says that its server is online and what it runs; what it leaves blank stays as known, and it
      touches nothing else. */
  lemma ReportTells(cfg: Config, s: State, server: ServerId, image: string, digest: string)
    requires QueueSound(s) && Enabled(s, Report(server, image, digest))
    ensures var s' := Apply(cfg, s, Report(server, image, digest));
            && s'.hosts.Keys == s.hosts.Keys && s'.hosts[server].online && s'.hosts[server].id == server
            && s'.hosts[server].isAgent == s.hosts[server].isAgent
            && s'.hosts[server].image == (if image == "" then s.hosts[server].image else image)
            && s'.hosts[server].digest == (if digest == "" then s.hosts[server].digest else digest)
            && (forall id :: id in s.hosts && id != server ==> s'.hosts[id] == s.hosts[id])
            && SameQueue(s, s') && s'.rows == s.rows && s'.phase == s.phase
  {
  }

  predicate SomeAgentOnline(hosts: map<ServerId, Host>)
  {
    exists id :: id in hosts && hosts[id].isAgent && hosts[id].online
  }

  /** The proviso is needed: from any state, when the list cannot be read, the controller is replaced at
      once, and the claim then holds exactly if no agent was online to begin with. */
  lemma FailedListingLaunches(cfg: Config, s: State, s1: State, s2: State)
    requires Start(s) && s1 == Apply(cfg, s, List(None)) && s2 == Apply(cfg, s1, Decide(true))
    ensures Run(cfg, [s, s1, s2], [List(None), Decide(true)]) && s2.phase.Launched?
    ensures EveryAgentAccounted(cfg, s2) <==> !SomeAgentOnline(s.hosts)
  {
    assert forall c, h :: !AnsweredDone(cfg, s2, h, c);
    if SomeAgentOnline(s.hosts) {
      var id :| id in s.hosts && s.hosts[id].isAgent && s.hosts[id].online;
      assert !Accounted(cfg, s2, s2.planned[id]);
    }
  }

  // ---------------------------------------------------------------- the queue and the rows

  ghost predicate KeepsAnswer(s: State, s': State, c: CommandId)
  {
    c in s.commands && c in s'.commands && (s.commands[c].answer != Pending ==> s'.commands[c] == s.commands[c])
  }

  lemma {:induction false} KeptThroughout(states: seq<State>, c: CommandId, a: nat, b: nat)
    requires a <= b < |states| && c in states[a].commands && states[a].commands[c].answer != Pending
    requires forall k :: a <= k < b ==> KeepsAnswer(states[k], states[k + 1], c)
    ensures c in states[b].commands && states[b].commands[c] == states[a].commands[c]
    decreases b
  {
    if a < b {
      KeptThroughout(states, c, a, b - 1);
      assert KeepsAnswer(states[b - 1], states[b - 1 + 1], c);
    }
  }

  /** The first reply to a command stands: later ones, and repeated executions, change nothing. */
  lemma FirstReplyStands(cfg: Config, states: seq<State>, steps: seq<Step>, c: CommandId, a: nat, b: nat)
    requires Run(cfg, states, steps) && a <= b < |states|
    requires forall k :: a <= k <= b ==> c in states[k].commands
    requires states[a].commands[c].answer != Pending
    ensures states[b].commands[c] == states[a].commands[c]
  {
    forall k | a <= k < b ensures KeepsAnswer(states[k], states[k + 1], c) {
      AnswerKeptAt(cfg, states, steps, c, k);
    }
    KeptThroughout(states, c, a, b);
  }

  lemma AnswerKeptAt(cfg: Config, states: seq<State>, steps: seq<Step>, c: CommandId, k: nat)
    requires Run(cfg, states, steps) && k < |steps| && c in states[k].commands && c in states[k + 1].commands
    ensures states[k].commands[c].answer != Pending ==> states[k + 1].commands[c] == states[k].commands[c]
  {
    RunKeepsInv(cfg, states, steps, k);
    if states[k].commands[c].answer != Pending { AnswerKept(cfg, states[k], steps[k], c); }
  }

  lemma AnswerKept(cfg: Config, s: State, step: Step, c: CommandId)
    requires QueueSound(s) && Enabled(s, step) && c in s.commands && s.commands[c].answer != Pending
    requires c in Apply(cfg, s, step).commands
    ensures Apply(cfg, s, step).commands[c] == s.commands[c]
  {
    if step.PlanNext? {
      if s.phase.todo != [] { PlanKeepsAnswers(s, s.phase.todo[0], cfg.release, step.queued, c); }
    } else if TouchesQueue(step) {
      QueueKeepsAnswers(cfg, s, step, c);
    } else {
      CommandsUntouched(cfg, s, step);
    }
  }

  lemma QueueKeepsAnswers(cfg: Config, s: State, step: Step, c: CommandId)
    requires QueueSound(s) && Enabled(s, step) && c in s.commands && s.commands[c].answer != Pending
    requires TouchesQueue(step) && !step.PlanNext? && c in Apply(cfg, s, step).commands
    ensures Apply(cfg, s, step).commands[c] == s.commands[c]
  {
    assert c in s.issued;
  }

  lemma PlanKeepsAnswers(s: State, h: Host, release: Release, command: Option<CommandId>, c: CommandId)
    requires QueueSound(s) && c in s.commands && (command.Some? ==> command.value !in s.issued)
    ensures c in PlanHost(s, h, release, command).commands
    ensures PlanHost(s, h, release, command).commands[c] == s.commands[c]
  {
    assert c in s.issued;
  }

  lemma CommandsUntouched(cfg: Config, s: State, step: Step)
    requires Enabled(s, step) && !TouchesQueue(step)
    ensures Apply(cfg, s, step).commands == s.commands
  {
  }

  /** Once planned, a row moves at most once, from queued to updated or failed. */
  lemma RowsOnlyMove(cfg: Config, s: State, step: Step)
    requires Enabled(s, step) && (s.phase.Waiting? || s.phase.Passing? || s.phase.Launched? || s.phase.Stopped?)
    ensures Moves(s.rows, Apply(cfg, s, step).rows)
  {
  }

  // ---------------------------------------------------------------- one step at a time

  /** The state these steps lead to, if each is enabled in turn. */
  function After(cfg: Config, s: State, steps: seq<Step>): Option<State>
  {
    if steps == [] then Some(s)
    else
      var before := After(cfg, s, steps[..|steps| - 1]);
      if before.Some? && Enabled(before.value, steps[|steps| - 1])
      then Some(Apply(cfg, before.value, steps[|steps| - 1])) else None
  }

  lemma AfterOneMore(cfg: Config, s: State, steps: seq<Step>, step: Step)
    requires After(cfg, s, steps).Some? && Enabled(After(cfg, s, steps).value, step)
    ensures After(cfg, s, steps + [step]) == Some(Apply(cfg, After(cfg, s, steps).value, step))
  {
    assert (steps + [step])[..|steps|] == steps;
  }

  /** Steps of agents, operators and the controller's request handlers. */
  predicate Environment(step: Step)
  {
    step.Report? || step.Deliver? || step.Enqueue? || step.Register? || step.Offline? || step.Remove? ||
      step.Fetch? || step.Execute?
  }

  /** Nothing that the run itself decides has changed. */
  ghost predicate Quiet(s: State, s': State)
  {
    && s'.rows == s.rows && s'.phase == s.phase && s'.listed == s.listed && s'.planned == s.planned
    && forall c :: c in s.issued ==> c in s'.issued && s'.issued[c] == s.issued[c]
  }

  lemma EnvironmentIsQuiet(cfg: Config, s: State, step: Step)
    requires Enabled(s, step) && Environment(step)
    ensures Quiet(s, Apply(cfg, s, step))
  {
    HistoryGrows(cfg, s, step);
  }

  /** What planning the next server does to the run. */
  ghost predicate PlannedOne(cfg: Config, s: State, queued: Option<CommandId>, s': State)
    requires s.phase.Planning? && s.phase.todo != []
  {
    var h := s.phase.todo[0];
    && s'.phase == Planning(s.phase.todo[1..])
    && s'.rows == (if h.isAgent then s.rows + [Planned(h, cfg.release, queued)] else s.rows)
    && s'.issued == if h.isAgent && h.online && queued.Some?
                    then s.issued[queued.value := Command(h.id, true, Planned(h, cfg.release, queued).target, Pending)]
                    else s.issued
  }

  lemma PlanNextEffect(cfg: Config, s: State, queued: Option<CommandId>)
    requires Enabled(s, PlanNext(queued)) && s.phase.todo != []
    ensures PlannedOne(cfg, s, queued, Apply(cfg, s, PlanNext(queued)))
    ensures Apply(cfg, s, PlanNext(queued)).listed == s.listed
  {
  }
}
