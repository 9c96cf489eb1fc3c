/** The controller's surroundings while its code runs: the state of the protocol, which others change
    between any two calls, and which the code moves on by the steps it takes. */
module ProtocolWorld {
  import opened Wrappers
  import opened AgentRows
  import opened Protocol

  class World {
    const cfg: Config
    const origin: State
    var s: State
    ghost var path: seq<Step>

    constructor (cfg: Config, origin: State)
      requires Start(origin)
      ensures this.cfg == cfg && this.origin == origin && s == origin && Traced()
    {
      this.cfg, this.origin, s, path := cfg, origin, origin, [];
    }

    /** The state is one that the protocol reaches by the steps taken so far. The quantifier keeps the
        steps from being unfolded wherever this is known; Unfold brings them back. */
    ghost predicate Traced()
      reads this
    {
      forall n :: Unfold(n) ==> Reached(cfg, origin, path, s)
    }

    ghost predicate Unfold(n: int) { true }

    /** So whatever holds in every reachable state holds now. */
    lemma Sound()
      requires Traced()
      ensures Inv(cfg, s)
    {
      assert Unfold(0);
      ReachedIsSound(cfg, origin, path, s);
    }

    method Do(step: Step)
      requires Traced() && Enabled(s, step)
      modifies this
      ensures Traced() && s == Apply(cfg, old(s), step) && path == old(path) + [step]
    {
      assert Unfold(0);
      AfterOneMore(cfg, origin, path, step);
      s, path := Apply(cfg, s, step), path + [step];
    }

    // The controller's own steps, and what they do to the run.

    method List(hosts: Option<seq<Host>>)
      requires Traced() && s.phase.Idle? && (hosts.Some? ==> Lists(hosts.value, s.hosts))
      modifies this
      ensures Traced() && s.rows == [] && s.listed == hosts.Some?
      ensures s.phase == if hosts.Some? then Planning(hosts.value) else Waiting
    {
      Sound();
      Do(Step.List(hosts));
    }

    method PlanNext(queued: Option<CommandId>)
      requires Traced() && s.phase.Planning? && (queued.Some? ==> queued.value !in s.issued)
      modifies this
      ensures Traced() && s.listed == old(s.listed)
      ensures old(s.phase.todo) == [] ==> s.phase == Waiting && s.rows == old(s.rows) && s.issued == old(s.issued)
      ensures old(s.phase.todo) != [] ==> PlannedOne(cfg, old(s), queued, s)
    {
      if s.phase.todo != [] { PlanNextEffect(cfg, s, queued); }
      Do(Step.PlanNext(queued));
    }

    method BeginPass()
      requires Traced() && s.phase.Waiting? && !NoneQueued(s.rows)
      modifies this
      ensures Traced() && s.rows == old(s.rows) && s.listed == old(s.listed)
      ensures s.phase == Passing(map id | id in old(s.hosts) :: old(s.hosts)[id].digest, 0)
    {
      Do(Step.BeginPass);
    }

    method JudgeNext(readable: bool)
      requires Traced() && s.phase.Passing? && s.phase.next < |s.rows|
      modifies this
      ensures Traced() && s.listed == old(s.listed) && s.phase == old(s.phase).(next := old(s.phase).next + 1)
      ensures var i := old(s.phase).next;
              var row := old(s.rows)[i];
              var digest := DigestIn(old(s.phase).view, row.server);
              s.rows == old(s.rows)[i := row.(status := Judged(row, digest, AnswerRead(old(s), row, readable)))]
    {
      Do(Step.JudgeNext(readable));
    }

    method EndPass()
      requires Traced() && s.phase.Passing? && s.phase.next >= |s.rows|
      modifies this
      ensures Traced() && s.rows == old(s.rows) && s.listed == old(s.listed) && s.phase == Waiting
    {
      Do(Step.EndPass);
    }

    method TimeOut()
      requires Traced() && s.phase.Waiting?
      modifies this
      ensures Traced() && s.rows == TimedOut(old(s.rows)) && s.listed == old(s.listed) && s.phase == Waiting
    {
      Do(Step.TimeOut);
    }

    method Decide(started: bool)
      requires Traced() && s.phase.Waiting? && NoneQueued(s.rows)
      modifies this
      ensures Traced() && s.rows == old(s.rows) && s.listed == old(s.listed)
      ensures s.phase == if (cfg.force || NoneFailed(s.rows)) && started then Launched else Stopped
    {
      Do(Step.Decide(started));
    }

    /** Any number of steps by agents, operators and request handlers. */
    method Interfere()
      requires Traced()
      modifies this
      ensures Traced() && Quiet(old(s), s)
    {
      var n: nat :| n >= 0;
      for i := 0 to n
        invariant Traced() && Quiet(old(s), s)
      {
        assert Environment(Remove(0)) && Enabled(s, Remove(0));
        var step :| Environment(step) && Enabled(s, step);
        EnvironmentIsQuiet(cfg, s, step);
        Do(step);
      }
    }
  }

  ghost predicate Reached(cfg: Config, origin: State, path: seq<Step>, s: State)
  {
    Start(origin) && After(cfg, origin, path) == Some(s)
  }

  lemma {:induction false} ReachedIsSound(cfg: Config, origin: State, path: seq<Step>, s: State)
    requires Reached(cfg, origin, path, s)
    ensures Inv(cfg, s)
  {
    if path != [] {
      var n := |path| - 1;
      var before := After(cfg, origin, path[..n]).value;
      ReachedIsSound(cfg, origin, path[..n], before);
      InvStep(cfg, before, path[n]);
    }
  }

  /** A table can be listed. */
  lemma {:induction false} SomeListing(table: map<ServerId, Host>) returns (hosts: seq<Host>)
    requires forall id :: id in table ==> table[id].id == id
    ensures Lists(hosts, table) && forall i, j :: 0 <= i < j < |hosts| ==> hosts[i].id != hosts[j].id
  {
    hosts := [];
    if table.Keys != {} {
      var id :| id in table;
      var rest := table - {id};
      assert rest.Keys < table.Keys;
      var others := SomeListing(rest);
      hosts := others + [table[id]];
      forall k | k in table ensures table[k] in hosts { if k != id { assert rest[k] in others; } }
      assert forall h :: h in hosts <==> h in others || h == table[id];
    }
  }
}
