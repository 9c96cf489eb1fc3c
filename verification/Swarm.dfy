/** Rolling a swarm service onto a new image (internal/dockerx/swarm.go). The daemon, its orchestrator
    and everybody else who touches the service are an arbitrary environment: each read returns whatever
    the environment shows at that moment. */
module Swarm {
  import opened Wrappers
  import PullProgress

  newtype uint64 = x: int | 0 <= x < 0x1_0000_0000_0000_0000

  /** image is None when the task template has no container spec. */
  datatype Spec = Spec(image: Option<string>, force: uint64, rest: string)

  /** tasks is the running and desired task count, absent when the daemon does not report it. */
  datatype Service = Service(id: string, version: nat, spec: Spec,
                             tasks: Option<(uint64, uint64)>, update: Option<string>)

  datatype ServiceState = ServiceState(running: uint64, desired: uint64, update: string)

  datatype Convergence = Pending | Done | Failed | RolledBack

  function Classify(s: ServiceState, deadlineReached: bool): (c: Convergence)
    ensures c == Done <==> s.update == "completed" && s.running >= s.desired
    ensures c == RolledBack <==> s.update in {"rollback_completed", "rollback_paused"}
    ensures c == Failed ==> deadlineReached
    ensures c == Pending ==> s.update == "completed" || !deadlineReached
  {
    if s.update == "completed" then
      if s.running >= s.desired then Done else Pending
    else if s.update == "rollback_completed" || s.update == "rollback_paused" then RolledBack
    else if deadlineReached then Failed
    else Pending
  }

  /** The daemon says that the rollout is over, and the tasks it reports, if it does, are all running. */
  predicate RolledOut(svc: Service)
  {
    svc.update == Some("completed") && (svc.tasks.Some? ==> svc.tasks.value.0 >= svc.tasks.value.1)
  }

  function StateFrom(svc: Service): ServiceState
  {
    var (running, desired) := if svc.tasks.Some? then svc.tasks.value else (0, 0);
    ServiceState(running, desired, if svc.update.Some? then svc.update.value else "")
  }

  /** The spec sent to the daemon: the new image, and a bumped (wrapping) force counter when the image
      reference is the one already stored. */
  function Submitted(spec: Spec, target: string): Spec
  {
    var forced := if spec.force == 0xFFFF_FFFF_FFFF_FFFF then 0 else spec.force + 1;
    Spec(Some(target), if spec.image == Some(target) then forced else spec.force, spec.rest)
  }

  /** The submitted spec never equals the stored one, so swarm always rolls; and it differs in nothing
      but the image or, for an unchanged image, the force counter. */
  lemma SubmittedAlwaysRolls(spec: Spec, target: string)
    ensures var s := Submitted(spec, target);
            && s != spec && s.image == Some(target) && s.rest == spec.rest
            && (s.force != spec.force <==> spec.image == Some(target))
  {
    if spec.force != 0xFFFF_FFFF_FFFF_FFFF { assert spec.force + 1 != spec.force; }
  }

  datatype Call =
    | Inspected(seen: Option<Service>)
    | Pulled(ok: bool)
    | Update(spec: Spec, version: nat, accepted: bool)
    | Rollback(spec: Spec, version: nat, accepted: bool)
    | Read(state: Option<ServiceState>, late: bool, at: nat)
    | Slept

  datatype Outcome =
    | Rolled
    | Disabled
    | InspectFailed
    | NoContainerSpec
    | PullFailed
    | UpdateRefused
    | DaemonRolledBack
    | CouldNotReread
    | WeRolledBack(restored: bool)
    | Cancelled
  {
    predicate Waited() { Rolled? || DaemonRolledBack? || CouldNotReread? || WeRolledBack? || Cancelled? }
  }

  /** The services API as this process sees it. faults, denials, inspections and listings are scripts
      indexed by the number of the call; they are unconstrained. The trace has one entry per call. */
  class ServiceApi {
    const faults: nat -> bool
    const denials: nat -> bool
    const inspections: nat -> Option<Service>
    const listings: nat -> seq<Service>
    const streams: nat -> seq<PullProgress.Line>
    const cancelAt: nat
    const timeout: nat
    const poll: nat
    var calls: nat
    var now: nat
    ghost var trace: seq<Call>

    constructor (faults: nat -> bool, denials: nat -> bool, inspections: nat -> Option<Service>,
                 listings: nat -> seq<Service>, streams: nat -> seq<PullProgress.Line>, cancelAt: nat, timeout: nat,
                 poll: nat)
      ensures this.faults == faults && this.denials == denials && this.inspections == inspections
      ensures this.listings == listings && this.streams == streams
      ensures this.cancelAt == cancelAt && this.timeout == timeout && this.poll == poll
      ensures calls == 0 && now == 0 && trace == []
    {
      this.faults, this.denials, this.inspections, this.listings := faults, denials, inspections, listings;
      this.streams, this.cancelAt, this.timeout, this.poll := streams, cancelAt, timeout, poll;
      calls, now, trace := 0, 0, [];
    }

    /** The k-th call got through and its listing has the service, rolled out. */
    ghost predicate ShowsRolledOut(k: nat, id: string)
    {
      !Lost(k) && exists svc :: svc in listings(k) && svc.id == id && RolledOut(svc)
    }

    ghost predicate Unused() reads this { calls == 0 && now == 0 && trace == [] }

    predicate Lost(k: nat) { faults(k) || k >= cancelAt }

    /** A pull is complete when its stream is not broken off by an error message. */
    predicate PullFails(k: nat) { Lost(k) || PullProgress.Breaks(streams(k)) }

    function InspectionAt(k: nat): Option<Service> { if Lost(k) then None else inspections(k) }

    function StatusAt(k: nat, id: string): Option<ServiceState>
    {
      if Lost(k) then None else FirstState(listings(k), id)
    }

    /** What the k-th call answers, for the service id that is being watched. */
    predicate Answers(k: nat, c: Call, id: string)
    {
      match c
      case Inspected(seen) => seen == InspectionAt(k)
      case Pulled(ok) => ok == !PullFails(k)
      case Update(_, _, accepted) => accepted == !Lost(k)
      case Rollback(_, _, accepted) => accepted == !Lost(k)
      case Read(state, _, _) => state == StatusAt(k, id)
      case Slept => true
    }

    /** The entries of t are the answers to the calls from the n-th on. */
    ghost predicate Scripted(t: seq<Call>, n: nat, id: string)
    {
      forall i :: 0 <= i < |t| ==> Answers(n + i, t[i], id)
    }

    method Inspect() returns (seen: Option<Service>, denied: bool)
      modifies this
      ensures calls == old(calls) + 1 && now == old(now)
      ensures seen == InspectionAt(old(calls))
      ensures denied == (seen.None? && denials(old(calls)))
      ensures trace == old(trace) + [Inspected(seen)]
    {
      seen := if Lost(calls) then None else inspections(calls);
      denied := seen.None? && denials(calls);
      trace, calls := trace + [Inspected(seen)], calls + 1;
    }

    method Pull() returns (ok: bool)
      modifies this
      ensures calls == old(calls) + 1 && now == old(now) && trace == old(trace) + [Pulled(ok)]
      ensures ok == !PullFails(old(calls))
    {
      ok := false;
      if !Lost(calls) {
        var complete, _ := PullProgress.Drain(streams(calls));
        ok := complete;
      }
      trace, calls := trace + [Pulled(ok)], calls + 1;
    }

    method SubmitUpdate(spec: Spec, version: nat, rollback: bool) returns (ok: bool, denied: bool)
      modifies this
      ensures calls == old(calls) + 1 && now == old(now)
      ensures ok == !Lost(old(calls)) && denied == (!ok && denials(old(calls)))
      ensures trace == old(trace) + [if rollback then Rollback(spec, version, ok) else Update(spec, version, ok)]
    {
      ok := !Lost(calls);
      denied := !ok && denials(calls);
      trace := trace + [if rollback then Rollback(spec, version, ok) else Update(spec, version, ok)];
      calls := calls + 1;
    }

    /** serviceStatus: the list endpoint may return other services too; only the one asked for counts. */
    method Status(serviceId: string, late: bool) returns (state: Option<ServiceState>)
      modifies this
      ensures calls == old(calls) + 1 && now == old(now)
      ensures trace == old(trace) + [Read(state, late, now)]
      ensures state == StatusAt(old(calls), serviceId)
    {
      state := None;
      if !Lost(calls) {
        var list := listings(calls);
        var i := 0;
        while i < |list| && state.None?
          invariant 0 <= i <= |list|
          invariant FirstState(list, serviceId) == if state.Some? then state else FirstState(list[i..], serviceId)
        {
          if list[i].id == serviceId { state := Some(StateFrom(list[i])); }
          i := i + 1;
        }
      }
      trace, calls := trace + [Read(state, late, now)], calls + 1;
    }

    /** Waits one poll interval, or longer; reports whether the caller's context ended meanwhile. */
    method Sleep() returns (cancelled: bool)
      modifies this
      ensures calls == old(calls) + 1 && now >= old(now) + poll && trace == old(trace) + [Slept]
      ensures cancelled == (calls >= cancelAt)
    {
      var extra: nat :| extra >= 0;
      now, calls, trace := now + poll + extra, calls + 1, trace + [Slept];
      cancelled := calls >= cancelAt;
    }

    /** The service that is polled for: the one the first inspection shows. */
    function Watched(k: nat): string { if InspectionAt(k).Some? then InspectionAt(k).value.id else "" }

    lemma ScriptedJoin(a: seq<Call>, b: seq<Call>, n: nat, id: string)
      requires Scripted(a, n, id) && Scripted(b, n + |a|, id)
      ensures Scripted(a + b, n, id)
    {
      forall i | 0 <= i < |a + b| ensures Answers(n + i, (a + b)[i], id) {
        if i >= |a| { assert (a + b)[i] == b[i - |a|]; }
      }
    }

    /** updateService. */
    method UpdateService(serviceId: string, target: string) returns (outcome: Outcome)
      modifies this
      // The calls made explain the outcome, each got the scripted answer, a read is late exactly from the
      // deadline on, and success is read off the service itself, in the last listing.
      ensures Accounted(old(trace), old(calls), old(now), Watched(old(calls)), target, outcome)
      // An incomplete or lost pull, and nothing else, is a failed pull; the service is left alone then.
      ensures outcome == PullFailed <==>
        InspectionAt(old(calls)).Some? && InspectionAt(old(calls)).value.spec.image.Some? && PullFails(old(calls) + 1)
    {
      ghost var start, n := trace, calls;
      var seen, denied := Inspect();
      if seen.None? {
        assert trace[|start|..] == [Inspected(seen)];
        return if denied then Disabled else InspectFailed;
      }
      var svc := seen.value;
      if svc.spec.image.None? {
        assert trace[|start|..] == [Inspected(seen)];
        return NoContainerSpec;
      }
      var pulled := Pull();
      if !pulled {
        assert trace[|start|..] == [Inspected(seen), Pulled(false)];
        return PullFailed;
      }
      outcome := Roll(start, n, svc, target);
    }

    /** The part of updateService that touches the service. */
    method Roll(ghost start: seq<Call>, ghost n: nat, svc: Service, target: string) returns (outcome: Outcome)
      requires trace == start + [Inspected(Some(svc)), Pulled(true)] && svc.spec.image.Some? && calls == n + 2
      requires InspectionAt(n) == Some(svc) && !PullFails(n + 1)
      modifies this
      ensures Accounted(start, n, old(now), svc.id, target, outcome) && outcome != PullFailed
    {
      var accepted, refusedByProxy := SubmitUpdate(Submitted(svc.spec, target), svc.version, false);
      ghost var head := [Inspected(Some(svc)), Pulled(true), Update(Submitted(svc.spec, target), svc.version,
          accepted)];
      assert trace == start + head;
      assert Scripted(head, n, svc.id);
      if !accepted {
        assert trace[|start|..] == head;
        return if refusedByProxy then Disabled else UpdateRefused;
      }
      ghost var tail;
      outcome, tail := AwaitConvergence(svc.id);
      AccountedInFull(start, head, tail, n, old(now), svc.id, target, outcome);
    }

    /** What updateService promises of the calls made since then. */
    ghost predicate Accounted(start: seq<Call>, n: nat, begun: nat, id: string, target: string, outcome: Outcome)
      reads this
    {
      && start <= trace && calls == n + |trace| - |start|
      && Explains(trace[|start|..], outcome, target) && Scripted(trace[|start|..], n, id)
      && (outcome.Waited() ==> |trace| >= |start| + 3 && Clocked(trace[|start| + 3..], begun, timeout, poll))
      && (outcome == Cancelled ==> calls >= cancelAt)
      && (outcome == Rolled ==> calls >= 1 && ShowsRolledOut(calls - 1, id))
    }

    lemma AccountedInFull(start: seq<Call>, head: seq<Call>, tail: seq<Call>, n: nat, begun: nat, id: string,
                          target: string, outcome: Outcome)
      requires |head| == 3 && Begins(head, target) && Scripted(head, n, id)
      requires Over(start + head, tail, n + 3, begun, id, outcome)
      requires outcome == Rolled ==> calls >= 1 && ShowsRolledOut(calls - 1, id)
      ensures Accounted(start, n, begun, id, target, outcome)
    {
      SliceOff(start, head, tail);
      JoinedAtThree(head, tail);
      ScriptedJoin(head, tail, n, id);
    }

    /** The wait so far: polls only, as many as calls were made. */
    ghost predicate StillPolling(start: seq<Call>, tail: seq<Call>, n: nat, begun: nat, id: string)
      reads this
    {
      && trace == start + tail && Waiting(tail) && calls == n + |tail|
      && Clocked(tail, begun, timeout, poll) && Scripted(tail, n, id)
      && now >= begun + Elapsed(|tail| / 2, poll) && (tail == [] ==> now == begun)
    }

    /** The wait is over. */
    ghost predicate Over(start: seq<Call>, tail: seq<Call>, n: nat, begun: nat, id: string, outcome: Outcome)
      reads this
    {
      && trace == start + tail && Settles(tail, outcome) && calls == n + |tail|
      && Clocked(tail, begun, timeout, poll) && Scripted(tail, n, id) && (outcome == Cancelled ==> calls >= cancelAt)
    }

    /** The polling loop of updateService. */
    method AwaitConvergence(serviceId: string) returns (outcome: Outcome, ghost tail: seq<Call>)
      modifies this
      ensures Over(old(trace), tail, old(calls), old(now), serviceId, outcome)
      ensures outcome == Rolled ==> calls >= 1 && ShowsRolledOut(calls - 1, serviceId)
    {
      ghost var start, n, begun := trace, calls, now;
      tail := [];
      var deadline := now + timeout;
      while true
        invariant StillPolling(start, tail, n, begun, serviceId)
        decreases cancelAt - calls
      {
        var ended;
        ended, tail := PollOnce(serviceId, deadline, start, tail, n, begun);
        if ended.Some? {
          if ended.value == Rolled { RolledIsRolledOut(this, tail, n, serviceId); }
          return ended.value, tail;
        }
      }
    }

    /** One turn of the loop: a read, and what follows from it. */
    method PollOnce(serviceId: string, deadline: nat, ghost start: seq<Call>, ghost waits: seq<Call>, ghost n: nat,
                    ghost begun: nat)
      returns (ended: Option<Outcome>, ghost tail: seq<Call>)
      requires StillPolling(start, waits, n, begun, serviceId) && deadline == begun + timeout
      modifies this
      ensures ended.Some? ==> Over(start, tail, n, begun, serviceId, ended.value)
      ensures ended.None? ==> StillPolling(start, tail, n, begun, serviceId) && old(calls) < calls < cancelAt
    {
      var late := now >= deadline;
      var state := Status(serviceId, late);
      ghost var read := Read(state, late, now);
      ReadIsClocked(waits, read, begun, timeout, poll);
      tail := waits + [read];
      if state.Some? && Classify(state.value, late) != Pending {
        ended, tail := Conclude(start, waits, state.value, late, n, begun, serviceId);
        return;
      }
      var cancelled;
      cancelled, tail := PollAgain(start, waits, read, n, begun, serviceId);
      ended := if cancelled then Some(Cancelled) else None;
    }

    /** The switch of updateService, when the state read is not pending. */
    method Conclude(ghost start: seq<Call>, ghost waits: seq<Call>, state: ServiceState, late: bool, ghost n: nat,
                    ghost begun: nat, ghost id: string)
      returns (ended: Option<Outcome>, ghost tail: seq<Call>)
      requires Waiting(waits) && Classify(state, late) != Pending && calls == n + |waits| + 1
      requires var read := Read(Some(state), late, now);
               && trace == start + (waits + [read])
               && Clocked(waits + [read], begun, timeout, poll) && Scripted(waits + [read], n, id)
      modifies this
      ensures ended.Some? && Over(start, tail, n, begun, id, ended.value)
    {
      ghost var read := Read(Some(state), late, now);
      EndsWaiting(waits, read, []);
      tail := waits + [read];
      assert tail + [] == tail;
      var verdict := Classify(state, late);
      if verdict == Done {
        ended := Some(Rolled);
      } else if verdict == RolledBack {
        ended := Some(DaemonRolledBack);
      } else {
        var outcome;
        outcome, tail := SendBack(start, waits, read, n, begun, id);
        ended := Some(outcome);
      }
    }

    /** The end of the loop body, after a read that settles nothing. */
    method PollAgain(ghost start: seq<Call>, ghost waits: seq<Call>, ghost read: Call, ghost n: nat, ghost begun: nat,
                     ghost id: string)
      returns (cancelled: bool, ghost tail: seq<Call>)
      requires Waiting(waits) && Undecided(read) && calls == n + |waits| + 1 && trace == start + (waits + [read])
      requires Clocked(waits + [read], begun, timeout, poll) && Scripted(waits + [read], n, id)
      requires now >= begun + Elapsed(|waits| / 2, poll)
      modifies this
      ensures StillPolling(start, tail, n, begun, id) && calls == old(calls) + 1 && cancelled == (calls >= cancelAt)
    {
      cancelled := Sleep();
      StillWaiting(waits, read);
      NothingElseIsClocked(waits + [read], [Slept], begun, timeout, poll);
      tail := waits + [read] + [Slept];
      assert tail == waits + [read, Slept];
      assert |tail| / 2 == |waits| / 2 + 1;
    }

    /** The rollback: the service is read again for its version. */
    method SendBack(ghost start: seq<Call>, ghost waits: seq<Call>, ghost read: Call, ghost n: nat, ghost begun: nat,
                    ghost id: string)
      returns (outcome: Outcome, ghost tail: seq<Call>)
      requires Waiting(waits) && read.Read? && read.state.Some? && Classify(read.state.value, read.late) == Failed
      requires trace == start + (waits + [read]) && calls == n + |waits| + 1
      requires Clocked(waits + [read], begun, timeout, poll) && Scripted(waits + [read], n, id)
      modifies this
      ensures Over(start, tail, n, begun, id, outcome)
    {
      ghost var at := calls;
      var cur, _ := Inspect();
      ghost var sent := [Inspected(cur)];
      outcome := CouldNotReread;
      assert Scripted(sent, at, id) && trace == start + (waits + [read]) + sent;
      if cur.Some? {
        var restored, _ := SubmitUpdate(cur.value.spec, cur.value.version, true);
        sent, outcome := sent + [Rollback(cur.value.spec, cur.value.version, restored)], WeRolledBack(restored);
      }
      tail := waits + [read] + sent;
      OverOnceSentBack(start, waits, read, cur, sent, n, begun, id, outcome);
    }

    lemma OverOnceSentBack(start: seq<Call>, waits: seq<Call>, read: Call, cur: Option<Service>, sent: seq<Call>,
                           n: nat, begun: nat, id: string, outcome: Outcome)
      requires trace == start + (waits + [read]) + sent && calls == n + |waits| + 1 + |sent|
      requires Clocked(waits + [read], begun, timeout, poll) && Scripted(waits + [read], n, id)
      requires SendsBack(waits, read, cur, sent, outcome) && Scripted(sent, n + |waits| + 1, id)
      ensures Over(start, waits + [read] + sent, n, begun, id, outcome)
    {
      EndsWaiting(waits, read, sent);
      NothingElseIsClocked(waits + [read], sent, begun, timeout, poll);
      ScriptedJoin(waits + [read], sent, n, id);
    }
  }

  function FirstState(list: seq<Service>, id: string): Option<ServiceState>
  {
    if list == [] then None
    else if list[0].id == id then Some(StateFrom(list[0]))
    else FirstState(list[1..], id)
  }

  /** The clock over the polls: the first read is made at once, each later one at least one interval after
      the one before, and a read is late exactly when the window has passed by then. */
  ghost predicate Clocked(t: seq<Call>, begun: nat, timeout: nat, poll: nat)
  {
    forall i :: 0 <= i < |t| && t[i].Read? ==> ReadOnTime(t[i], i, begun, timeout, poll)
  }

  predicate ReadOnTime(c: Call, i: nat, begun: nat, timeout: nat, poll: nat)
    requires c.Read?
  {
    OnTime(c.late, c.at, i / 2, begun, timeout, poll) && (i == 0 ==> c.at == begun)
  }

  lemma ReadIsClocked(waits: seq<Call>, read: Call, begun: nat, timeout: nat, poll: nat)
    requires Clocked(waits, begun, timeout, poll) && read.Read? && ReadOnTime(read, |waits|, begun, timeout, poll)
    ensures Clocked(waits + [read], begun, timeout, poll)
  {
  }

  lemma NothingElseIsClocked(t: seq<Call>, rest: seq<Call>, begun: nat, timeout: nat, poll: nat)
    requires Clocked(t, begun, timeout, poll) && forall c :: c in rest ==> !c.Read?
    ensures Clocked(t + rest, begun, timeout, poll)
  {
    forall i | |t| <= i < |t + rest| ensures !(t + rest)[i].Read? { assert (t + rest)[i] in rest; }
  }

  lemma StillWaiting(waits: seq<Call>, read: Call)
    requires Waiting(waits) && Undecided(read)
    ensures Waiting(waits + [read, Slept])
  {
  }

  lemma EndsWaiting(waits: seq<Call>, read: Call, rest: seq<Call>)
    requires Waiting(waits) && read.Read? && read.state.Some?
    ensures SettlesWith(waits + [read] + rest, |waits|, Classify(read.state.value, read.late))
  {
    assert (waits + [read] + rest)[..|waits|] == waits;
  }

  /** What is made of a rollout read as failed. */
  ghost predicate SendsBack(waits: seq<Call>, read: Call, cur: Option<Service>, sent: seq<Call>, outcome: Outcome)
  {
    && Waiting(waits) && read.Read? && read.state.Some? && Classify(read.state.value, read.late) == Failed
    && if cur.None? then sent == [Inspected(None)] && outcome == CouldNotReread
       else outcome.WeRolledBack? &&
            sent == [Inspected(cur), Rollback(cur.value.spec, cur.value.version, outcome.restored)]
  }

  /** Polls that did not settle anything, each followed by a sleep: a failed read, or one classified as
      pending. */
  ghost predicate Waiting(waits: seq<Call>)
  {
    |waits| % 2 == 0 && forall i :: 0 <= i < |waits| ==> if i % 2 == 0 then Undecided(waits[i]) else waits[i].Slept?
  }

  predicate Undecided(c: Call)
  {
    c.Read? && (c.state.Some? ==> Classify(c.state.value, c.late) == Pending)
  }

  ghost predicate Begins(t: seq<Call>, target: string)
  {
    && |t| >= 3
    && t[0].Inspected? && t[0].seen.Some? && t[0].seen.value.spec.image.Some?
    && t[1] == Pulled(true)
    && t[2] == Update(Submitted(t[0].seen.value.spec, target), t[0].seen.value.version, true)
  }

  ghost predicate SettlesWith(t: seq<Call>, n: int, c: Convergence)
  {
    && 0 <= n < |t| && Waiting(t[..n])
    && t[n].Read? && t[n].state.Some? && Classify(t[n].state.value, t[n].late) == c
  }

  /** What the polls must have been for the wait to end in this outcome. */
  ghost predicate Settles(t: seq<Call>, outcome: Outcome)
  {
    match outcome
    case Rolled => SettlesWith(t, |t| - 1, Done)
    case DaemonRolledBack => SettlesWith(t, |t| - 1, RolledBack)
    case CouldNotReread => SettlesWith(t, |t| - 2, Failed) && t[|t| - 1] == Inspected(None)
    case WeRolledBack(restored) =>
      && SettlesWith(t, |t| - 3, Failed)
      && t[|t| - 2].Inspected? && t[|t| - 2].seen.Some?
      && t[|t| - 1] == Rollback(t[|t| - 2].seen.value.spec, t[|t| - 2].seen.value.version, restored)
    case Cancelled => Waiting(t)
    case _ => false
  }

  /** What the calls made must have been for updateService to return this outcome. */
  ghost predicate Explains(t: seq<Call>, outcome: Outcome, target: string)
  {
    match outcome
    case InspectFailed => t == [Inspected(None)]
    case NoContainerSpec => |t| == 1 && t[0].Inspected? && t[0].seen.Some? && t[0].seen.value.spec.image.None?
    case PullFailed => |t| == 2 && t[0].Inspected? && t[0].seen.Some? && t[1] == Pulled(false)
    case UpdateRefused => RefusedUpdate(t, target)
    case Disabled => t == [Inspected(None)] || RefusedUpdate(t, target)
    case _ => Begins(t, target) && Settles(t[3..], outcome)
  }

  lemma SliceOff(start: seq<Call>, head: seq<Call>, tail: seq<Call>)
    ensures var t := start + head + tail;
            start <= t && t[|start|..] == head + tail && t[|start| + |head|..] == tail
  {
  }

  lemma JoinedAtThree(head: seq<Call>, tail: seq<Call>)
    requires |head| == 3
    ensures (head + tail)[3..] == tail
    ensures (head + tail)[0] == head[0] && (head + tail)[1] == head[1] && (head + tail)[2] == head[2]
  {
  }

  ghost predicate RefusedUpdate(t: seq<Call>, target: string)
  {
    && |t| == 3 && t[0].Inspected? && t[0].seen.Some? && t[1] == Pulled(true)
    && t[2] == Update(Submitted(t[0].seen.value.spec, target), t[0].seen.value.version, false)
  }

  /** Rollout safety over every run: success needs a finished pull, an accepted update and a final read
      of a completed rollout with every task running; at most one update and one rollback are ever
      sent, the update carrying the submitted spec and the version read with it. */
  lemma RolloutSafety(t: seq<Call>, outcome: Outcome, target: string)
    requires Explains(t, outcome, target)
    ensures outcome == Rolled ==>
              Pulled(true) in t && (exists c :: c in t && c.Update? && c.accepted) &&
              var last := t[|t| - 1];
              last.Read? && last.state.Some? && last.state.value.update == "completed" &&
              last.state.value.running >= last.state.value.desired
    ensures forall i, j :: 0 <= i < j < |t| && t[i].Update? ==> !t[j].Update?
    ensures forall i, j :: 0 <= i < j < |t| && t[i].Rollback? ==> !t[j].Rollback?
    ensures forall i :: 0 <= i < |t| && t[i].Update? ==>
              i == 2 && t[1] == Pulled(true) && t[0].Inspected? && t[0].seen.Some? &&
              t[i].spec == Submitted(t[0].seen.value.spec, target) && t[i].version == t[0].seen.value.version
  {
    WaitsAreHarmless(t, outcome, target);
    if outcome == Rolled { assert t[1] in t && t[2] in t; }
  }

  /** What a read shows of the service says, in the service's own terms: done exactly when it is rolled out,
      rolled back exactly when the daemon says so, and otherwise failed exactly at the deadline, unless the
      rollout is over but short of tasks, which is waited for even then. */
  lemma ReadingMeans(svc: Service, late: bool)
    ensures var c, back := Classify(StateFrom(svc), late), {Some("rollback_completed"), Some("rollback_paused")};
            && (c == Done <==> RolledOut(svc))
            && (c == RolledBack <==> svc.update in back)
            && (c == Failed <==> late && svc.update != Some("completed") && svc.update !in back)
  {
  }

  lemma RolledIsRolledOut(api: ServiceApi, t: seq<Call>, n: nat, id: string)
    requires Settles(t, Rolled) && api.Scripted(t, n, id)
    ensures |t| > 0 && api.ShowsRolledOut(n + |t| - 1, id)
  {
    var k := |t| - 1;
    assert api.Answers(n + k, t[k], id);
    var svc := FirstListed(api.listings(n + k), id);
    ReadingMeans(svc, t[k].late);
  }

  /** The service that a status was read off. */
  lemma {:induction false} FirstListed(list: seq<Service>, id: string) returns (svc: Service)
    requires FirstState(list, id).Some?
    ensures svc in list && svc.id == id && FirstState(list, id) == Some(StateFrom(svc))
  {
    if list[0].id == id { return list[0]; }
    svc := FirstListed(list[1..], id);
  }

  lemma WaitsAreHarmless(t: seq<Call>, outcome: Outcome, target: string)
    requires Explains(t, outcome, target)
    ensures forall i :: 3 <= i < |t| ==> !t[i].Update?
    ensures forall i :: 0 <= i < |t| && t[i].Rollback? ==> i == |t| - 1 && outcome.WeRolledBack?
  {
    if Begins(t, target) && Settles(t[3..], outcome) {
      assert forall i :: 3 <= i < |t| ==> t[i] == t[3..][i - 3];
      PollsUndecided(t[3..], outcome);
    }
  }

  /** A rollback is sent exactly when the last status read was undone neither by the daemon nor by
      success at the deadline, and the service could be re-read. In particular none follows a status
      read that says the daemon rolled back. */
  lemma NoRollbackAfterReadRollback(t: seq<Call>, outcome: Outcome, target: string, i: nat)
    requires Explains(t, outcome, target) && i < |t| && t[i].Rollback?
    ensures i >= 2 && t[i - 2].Read? && t[i - 2].state.Some? && t[i - 2].late
    ensures Classify(t[i - 2].state.value, true) == Failed
    ensures forall k :: 0 <= k < |t| && t[k].Read? && t[k].state.Some? ==>
      Classify(t[k].state.value, t[k].late) != RolledBack
  {
    WaitsAreHarmless(t, outcome, target);
    PollsUndecided(t[3..], outcome);
    assert t[i - 2] == t[3..][i - 5];
    forall k | 0 <= k < |t| && t[k].Read? && t[k].state.Some?
      ensures Classify(t[k].state.value, t[k].late) != RolledBack
    {
      if 3 <= k { assert t[k] == t[3..][k - 3]; }
    }
  }

  // ---------------------------------------------------------------- rolling back twice

  /** The daemon says that it undid the rollout. */
  predicate UndoneByDaemon(svc: Service) { StateFrom(svc).update in {"rollback_completed", "rollback_paused"} }

  /** The i-th call rolls back a service just re-read as rolled back. */
  predicate RollsBackAgain(t: seq<Call>, i: nat)
  {
    0 < i < |t| && t[i].Rollback? && t[i - 1].Inspected? && t[i - 1].seen.Some? && UndoneByDaemon(t[i - 1].seen.value)
  }

  /** After the read at i was given up on, the service is re-read as rolled back by the daemon. */
  predicate UndoneMeanwhile(t: seq<Call>, i: nat)
  {
    && i + 1 < |t| && t[i].Read? && t[i].state.Some? && Classify(t[i].state.value, t[i].late) == Failed
    && t[i + 1].Inspected? && t[i + 1].seen.Some? && UndoneByDaemon(t[i + 1].seen.value)
  }

  /** The re-read before the rollback is used for its version only: a second rollback is sent exactly
      when a late read says neither done nor rolled back and the re-read that follows says rolled back. */
  lemma RollsBackAgainIff(t: seq<Call>, outcome: Outcome, target: string)
    requires Explains(t, outcome, target)
    ensures (exists i: nat :: RollsBackAgain(t, i)) <==> (exists i: nat :: UndoneMeanwhile(t, i))
  {
    if i: nat :| RollsBackAgain(t, i) {
      NoRollbackAfterReadRollback(t, outcome, target, i);
      assert UndoneMeanwhile(t, i - 2);
    }
    if i: nat :| UndoneMeanwhile(t, i) {
      FailedReadIsLast(t, outcome, target, i);
      assert RollsBackAgain(t, i + 2);
    }
  }

  /** A read that is given up on ends the wait: with a rollback if the service can be re-read. */
  lemma FailedReadIsLast(t: seq<Call>, outcome: Outcome, target: string, i: nat)
    requires Explains(t, outcome, target) && i < |t| && t[i].Read? && t[i].state.Some?
    requires Classify(t[i].state.value, t[i].late) == Failed
    ensures outcome == CouldNotReread || outcome.WeRolledBack?
    ensures outcome == CouldNotReread ==> i == |t| - 2 && t[i + 1] == Inspected(None)
    ensures outcome.WeRolledBack? ==> i == |t| - 3 && t[i + 2].Rollback?
  {
    var tail := t[3..];
    assert t[i] == tail[i - 3];
    PollsUndecided(tail, outcome);
  }

  /** Where the wait ended: with the last read, unless the caller gave up. */
  function EndOf(tail: seq<Call>, outcome: Outcome): int
  {
    match outcome
    case Cancelled => |tail|
    case WeRolledBack(_) => |tail| - 3
    case CouldNotReread => |tail| - 2
    case _ => |tail| - 1
  }

  lemma PollsUndecided(tail: seq<Call>, outcome: Outcome)
    requires Settles(tail, outcome)
    ensures forall j :: 0 <= j < EndOf(tail, outcome) ==> tail[j].Slept? || Undecided(tail[j])
  {
    var n := EndOf(tail, outcome);
    forall j | 0 <= j < n ensures tail[j].Slept? || Undecided(tail[j]) { assert tail[..n][j] == tail[j]; }
  }

  /** While every read fails or shows a rollout completed short of tasks, the deadline does not count:
      the wait goes on until the caller gives up. */
  lemma ShortRolloutsAreAwaited(t: seq<Call>, outcome: Outcome, target: string)
    requires Explains(t, outcome, target) && outcome.Waited()
    requires forall c :: c in t && c.Read? && c.state.Some? ==>
      c.state.value.update == "completed" && c.state.value.running < c.state.value.desired
    ensures outcome == Cancelled
  {
    var tail := t[3..];
    forall i | 0 <= i < |tail| ensures tail[i] in t { assert tail[i] == t[i + 3]; }
  }

  /** With a caller patient enough for so many polls, reads that get through decide by the deadline. */
  lemma ClockRunsOut(tail: seq<Call>, begun: nat, timeout: nat, poll: nat, polls: nat)
    requires Waiting(tail) && Clocked(tail, begun, timeout, poll)
    requires polls * poll >= timeout && 2 * polls < |tail|
    ensures tail[2 * polls].Read? && tail[2 * polls].late
  {
    ElapsedIs(polls, poll);
    assert 2 * polls % 2 == 0 && 2 * polls / 2 == polls;
    assert Undecided(tail[2 * polls]);
  }

  /** The i-th call of such a run. */
  predicate Follows(c: Call, i: nat, hung: ServiceState, undone: Service)
  {
    match c
    case Inspected(seen) => seen.Some? && seen.value.spec.image.Some? && (i >= 3 ==> seen == Some(undone))
    case Pulled(ok) => ok
    case Update(_, _, accepted) => accepted
    case Rollback(_, _, accepted) => accepted
    case Read(state, _, _) => state == Some(hung)
    case Slept => true
  }

  /** A rollout that hangs until the deadline and is undone by the daemon just before the re-read. */
  lemma HangsThenUndone(t: seq<Call>, outcome: Outcome, target: string, hung: ServiceState, undone: Service)
    requires Explains(t, outcome, target) && hung.update == "updating" && UndoneByDaemon(undone)
    requires forall i :: 0 <= i < |t| ==> Follows(t[i], i, hung, undone)
    requires outcome != Cancelled
    ensures outcome == WeRolledBack(true) && |t| >= 3 && t[|t| - 2] == Inspected(Some(undone))
    ensures RollsBackAgain(t, |t| - 1)
  {
    if |t| >= 1 { assert Follows(t[0], 0, hung, undone); }
    if |t| >= 2 { assert Follows(t[1], 1, hung, undone); }
    if |t| >= 3 {
      assert Follows(t[2], 2, hung, undone);
      var tail := t[3..];
      forall i | 0 <= i < |tail| ensures Follows(tail[i], i + 3, hung, undone) { assert tail[i] == t[i + 3]; }
      if outcome.Waited() {
        HungTail(tail, outcome, hung, undone);
        assert t[|t| - 2] == tail[|tail| - 2] && t[|t| - 1] == tail[|tail| - 1];
      }
    }
  }

  lemma HungTail(tail: seq<Call>, outcome: Outcome, hung: ServiceState, undone: Service)
    requires Settles(tail, outcome) && outcome != Cancelled && hung.update == "updating"
    requires forall i :: 0 <= i < |tail| ==> Follows(tail[i], i + 3, hung, undone)
    ensures outcome == WeRolledBack(true) && |tail| >= 3
    ensures tail[|tail| - 2] == Inspected(Some(undone)) && tail[|tail| - 1].Rollback?
  {
    assert Classify(hung, true) == Failed && Classify(hung, false) == Pending;
    var n := EndOf(tail, outcome);
    assert Follows(tail[n], n + 3, hung, undone) && tail[n].state == Some(hung);
  }

  /** A hung rollout is given up on once enough polls have been made, if the caller is that patient. */
  lemma HungIsGivenUpOn(tail: seq<Call>, outcome: Outcome, begun: nat, timeout: nat, poll: nat, polls: nat,
                        hung: ServiceState)
    requires Settles(tail, outcome) && Clocked(tail, begun, timeout, poll) && polls * poll >= timeout
    requires forall i :: 0 <= i < |tail| && i <= 2 * polls && tail[i].Read? ==> tail[i].state == Some(hung)
    requires hung.update == "updating"
    ensures EndOf(tail, outcome) <= 2 * polls
  {
    assert Classify(hung, true) == Failed;
    var waits := tail[..EndOf(tail, outcome)];
    if 2 * polls < |waits| { ClockRunsOut(waits, begun, timeout, poll, polls); }
  }

  /** Nothing fails, the service inspected first hangs once updated, and is undone thereafter. */
  ghost predicate HungScript(api: ServiceApi, before: Service, hung: Service, undone: Service)
  {
    && (forall k :: !api.faults(k)) && (forall k :: api.streams(k) == [])
    && (forall k :: api.inspections(k) == Some(if k == 0 then before else undone))
    && (forall k :: api.listings(k) == [hung])
  }

  lemma HungAnswers(api: ServiceApi, before: Service, hung: Service, undone: Service, k: nat, c: Call)
    requires HungScript(api, before, hung, undone) && k < api.cancelAt && api.Answers(k, c, hung.id)
    ensures match c
      case Inspected(seen) => seen == Some(if k == 0 then before else undone)
      case Pulled(ok) => ok
      case Update(_, _, accepted) => accepted
      case Rollback(_, _, accepted) => accepted
      case Read(state, _, _) => state == Some(StateFrom(hung))
      case Slept => true
  {
    assert api.StatusAt(k, hung.id) == FirstState([hung], hung.id);
  }

  /** Whatever the polls cost in time, the run ends in a second rollback. */
  lemma HungRun(api: ServiceApi, before: Service, hung: Service, undone: Service, t: seq<Call>, outcome: Outcome,
                target: string)
    requires HungScript(api, before, hung, undone) && before.id == hung.id && before.spec.image.Some?
    requires undone.spec.image.Some?
    requires StateFrom(hung).update == "updating" && UndoneByDaemon(undone)
    requires api.cancelAt == 1000 && api.timeout == 300 && api.poll == 2
    requires Explains(t, outcome, target) && api.Scripted(t, 0, hung.id)
    requires outcome.Waited() ==> Clocked(t[3..], 0, api.timeout, api.poll)
    requires outcome == Cancelled ==> |t| >= api.cancelAt
    ensures outcome == WeRolledBack(true) && t != [] && RollsBackAgain(t, |t| - 1)
  {
    forall i | 0 <= i < |t| && i < 1000
      ensures api.Answers(i, t[i], hung.id)
    {
      assert api.Answers(0 + i, t[i], hung.id);
    }
    if |t| > 0 { HungAnswers(api, before, hung, undone, 0, t[0]); }
    if |t| > 1 { HungAnswers(api, before, hung, undone, 1, t[1]); }
    if |t| > 2 { HungAnswers(api, before, hung, undone, 2, t[2]); }
    var tail := t[3..];
    forall i | 0 <= i < |tail| && i <= 300 && tail[i].Read? ensures tail[i].state == Some(StateFrom(hung)) {
      HungAnswers(api, before, hung, undone, i + 3, t[i + 3]);
    }
    HungIsGivenUpOn(tail, outcome, 0, 300, 2, 150, StateFrom(hung));
    forall i | 0 <= i < |t| ensures Follows(t[i], i, StateFrom(hung), undone) {
      HungAnswers(api, before, hung, undone, i, t[i]);
    }
    HangsThenUndone(t, outcome, target, StateFrom(hung), undone);
  }

  /** It happens: with the shipped window of 300 seconds and interval of 2, a rollout that hangs and is
      undone by the daemon just before the re-read is rolled back a second time. */
  method RollbackRace() returns (api: ServiceApi, outcome: Outcome)
    ensures fresh(api) && api.timeout == 300 && api.poll == 2 && outcome == WeRolledBack(true)
    ensures api.trace != [] && RollsBackAgain(api.trace, |api.trace| - 1)
  {
    var before := Service("svc", 1, Spec(Some("web:1"), 0, ""), Some((2, 2)), None);
    var hung := Service("svc", 2, Spec(Some("web:2"), 0, ""), Some((1, 2)), Some("updating"));
    var undone := Service("svc", 3, Spec(Some("web:1"), 0, ""), Some((2, 2)), Some("rollback_completed"));
    assert UndoneByDaemon(undone) && StateFrom(hung).update == "updating";
    api, outcome := HungRace(before, hung, undone, "web:2");
  }

  method HungRace(before: Service, hung: Service, undone: Service, target: string)
    returns (api: ServiceApi, outcome: Outcome)
    requires before.id == hung.id && before.spec.image.Some? && undone.spec.image.Some?
    requires StateFrom(hung).update == "updating" && UndoneByDaemon(undone)
    ensures fresh(api) && api.timeout == 300 && api.poll == 2 && outcome == WeRolledBack(true)
    ensures api.trace != [] && RollsBackAgain(api.trace, |api.trace| - 1)
  {
    api := HungApi(before, hung, undone);
    outcome := FirstUpdate(api, hung.id, target);
    HungRun(api, before, hung, undone, api.trace, outcome, target);
  }

  method HungApi(before: Service, hung: Service, undone: Service) returns (api: ServiceApi)
    requires before.id == hung.id
    ensures fresh(api) && api.Unused() && HungScript(api, before, hung, undone) && api.Watched(0) == hung.id
    ensures api.cancelAt == 1000 && api.timeout == 300 && api.poll == 2
  {
    var inspections := (k: nat) => Some(if k == 0 then before else undone);
    api := new ServiceApi(k => false, k => false, inspections, k => [hung], k => [], 1000, 300, 2);
  }

  /** updateService as the first thing that is asked of the daemon. */
  method FirstUpdate(api: ServiceApi, id: string, target: string) returns (outcome: Outcome)
    requires api.Unused()
    modifies api
    ensures Explains(api.trace, outcome, target) && api.Scripted(api.trace, 0, api.Watched(0))
    ensures outcome.Waited() ==> Clocked(api.trace[3..], 0, api.timeout, api.poll)
    ensures outcome == Cancelled ==> |api.trace| >= api.cancelAt
  {
    outcome := api.UpdateService(id, target);
    assert api.trace[0..] == api.trace;
  }
}
