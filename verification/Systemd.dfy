/** Updating a container that a systemd unit owns: stop it, and watch the unit bring it back
    (recreateSystemdManaged and verifyRespawnImage, internal/dockerx/recreate.go). */
module Systemd {
  import opened Wrappers
  import opened Docker
  import opened Respawn
  import Swarm

  datatype Outcome = Updated | NotRunning | StopFailed | NeverCameBack | SameImage | Cancelled
  {
    predicate CameBack() { Updated? || SameImage? }
  }

  /** What one poll found, whether the deadline had passed, and when it was made. */
  datatype Poll = Poll(found: Option<Ref>, late: bool, at: nat)

  predicate Undecided(polls: seq<Poll>, oldId: Id)
  {
    forall i :: 0 <= i < |polls| ==> Decide(polls[i].found, oldId, polls[i].late) == Waiting
  }

  /** Only looks and waits: nothing is renamed, created, started or removed behind the unit's back. */
  ghost predicate HandsOff(t: seq<Call>, n: nat)
  {
    forall k :: n <= k < |t| ==> t[k].op in {Stop, List, Inspect, Sleep}
  }

  /** In some state from the n-th call on. */
  ghost predicate SeenRunning(history: seq<World>, n: nat, id: Id, name: string)
  {
    exists k :: n <= k < |history| && id in history[k] && history[k][id].name == name && history[k][id].running
  }

  // ---------------------------------------------------------------- what the polls show

  /** A poll shows the world it was made in, unless its call was lost. */
  predicate Shows(w: World, lost: bool, p: Poll, name: string)
  {
    && (p.found.None? <==> lost || NameFree(w, name))
    && (p.found.Some? ==> p.found.value.id in w && w[p.found.value.id].name == name)
    && (p.found.Some? ==> (p.found.value.state == "running" <==> w[p.found.value.id].running))
  }

  /** The polls are every other call from the n-th on; history has the world after each call. */
  ghost predicate Watched(d: Daemon, history: seq<World>, polls: seq<Poll>, n: nat, begun: nat, name: string)
  {
    forall j :: 0 <= j < |polls| ==>
      && n + 2 * j < |history| && Shows(history[n + 2 * j], d.Lost(n + 2 * j, false), polls[j], name)
      && OnTime(polls[j].late, polls[j].at, j, begun, d.timeout, d.poll)
  }

  lemma WatchedLater(d: Daemon, history: seq<World>, later: seq<World>, polls: seq<Poll>, n: nat, begun: nat,
                     name: string)
    requires Watched(d, history, polls, n, begun, name) && history <= later
    ensures Watched(d, later, polls, n, begun, name)
  {
  }

  lemma WatchedOneMore(d: Daemon, history: seq<World>, polls: seq<Poll>, p: Poll, n: nat, begun: nat, name: string)
    requires Watched(d, history, polls, n, begun, name) && n + 2 * |polls| < |history|
    requires Shows(history[n + 2 * |polls|], d.Lost(n + 2 * |polls|, false), p, name)
    requires OnTime(p.late, p.at, |polls|, begun, d.timeout, d.poll)
    ensures Watched(d, history, polls + [p], n, begun, name)
  {
  }

  /** All polls but the last were made before the deadline, and apart. */
  lemma PollsAreBounded(d: Daemon, history: seq<World>, polls: seq<Poll>, n: nat, begun: nat, name: string, oldId: Id)
    requires Watched(d, history, polls, n, begun, name) && (polls == [] || Undecided(polls[..|polls| - 1], oldId))
    ensures |polls| <= 1 || (|polls| - 2) * d.poll < d.timeout
  {
    var j := |polls| - 2;
    if j >= 0 {
      assert polls[..|polls| - 1][j] == polls[j];
      assert OnTime(polls[j].late, polls[j].at, j, begun, d.timeout, d.poll) && !polls[j].late;
      ElapsedIs(j, d.poll);
    }
  }

  /** How the wait may end, given the polls made and the image read off the container that came back. */
  ghost predicate Justified(outcome: Outcome, polls: seq<Poll>, after: Option<string>, id: Id, imageBefore: string)
  {
    match outcome
    case Cancelled => Undecided(polls, id)
    case NeverCameBack =>
      LastDecides(polls, id) && Decide(polls[|polls| - 1].found, id, polls[|polls| - 1].late) == GaveUp
    case Updated => FoundBack(polls, id) && (imageBefore == "" || after != Some(imageBefore))
    case SameImage => FoundBack(polls, id) && imageBefore != "" && after == Some(imageBefore)
    case _ => false
  }

  predicate LastDecides(polls: seq<Poll>, id: Id) { polls != [] && Undecided(polls[..|polls| - 1], id) }

  /** The last poll, and no earlier one, found another container running. */
  predicate FoundBack(polls: seq<Poll>, id: Id)
  {
    LastDecides(polls, id) && Decide(polls[|polls| - 1].found, id, polls[|polls| - 1].late).Back?
  }

  function NewId(polls: seq<Poll>): Id
    requires polls != [] && polls[|polls| - 1].found.Some?
  {
    polls[|polls| - 1].found.value.id
  }

  /** The image the new container was seen on, if it was: that takes a known image before, an inspection
      that gets through (the last call) and a non-blank answer. */
  ghost predicate ImageSeen(d: Daemon, newId: Id, imageBefore: string, after: Option<string>)
    reads d
  {
    && newId in d.world && d.calls > 0
    && after == if imageBefore == "" || d.Lost(d.calls - 1, false) || d.world[newId].imageId == "" then None
                else Some(d.world[newId].imageId)
  }

  // ---------------------------------------------------------------- the flow

  /** recreateSystemdManaged. Success and "same image" both need a container of exactly that name and
      another id that was seen running; they differ only in the image it was then seen on. With the
      shipped window of 90 seconds and interval of half a second the bound is 181 polls. */
  method RecreateManaged(d: Daemon, id: Id, insp: Container)
    returns (outcome: Outcome, ghost polls: seq<Poll>, ghost after: Option<string>)
    requires d.Valid()
    modifies d
    ensures d.Valid() && old(d.trace) <= d.trace && old(d.history) <= d.history
    ensures HandsOff(d.trace, |old(d.trace)|)
    ensures outcome == Outcome.NotRunning <==> !insp.running
    ensures outcome == Outcome.NotRunning ==> d.calls == old(d.calls) && d.world == old(d.world)
    ensures outcome == StopFailed ==>
      d.calls == old(d.calls) + 1 && d.world == d.Halted(old(d.world), old(d.calls), id)
    ensures outcome == StopFailed ==> d.Lost(old(d.calls), false) || id !in old(d.world)
    // Every other outcome follows from the polls made, which show the worlds they were made in; success also
    // says whether it rests on an image that was seen, and "same image" always does.
    ensures !outcome.NotRunning? && !outcome.StopFailed? ==>
      Over(d, outcome, polls, after, old(d.calls) + 1, old(d.now), insp.name, id, insp.imageId)
    ensures outcome.CameBack() ==>
      SeenRunning(d.history, |old(d.history)|, NewId(polls), insp.name) && NewId(polls) != id
    // The polls start in the world the stop left.
    ensures !outcome.NotRunning? && !outcome.StopFailed? ==>
      polls != [] && |d.history| > old(d.calls) + 1 &&
      d.history[old(d.calls) + 1] == d.Halted(old(d.world), old(d.calls), id)
    ensures |polls| <= 1 || (|polls| - 2) * d.poll < d.timeout
  {
    polls, after := [], None;
    if !insp.running {
      return Outcome.NotRunning, polls, after;
    }
    var stopped := d.ContainerStop(id);
    if stopped == StopError {
      return StopFailed, polls, after;
    }
    outcome, polls, after := AwaitRespawn(d, id, insp.name, insp.imageId);
  }

  /** The wait so far. */
  ghost predicate Looking(d: Daemon, polls: seq<Poll>, n: nat, begun: nat, name: string, oldId: Id)
    reads d
  {
    && d.Valid() && d.calls == n + 2 * |polls| && HandsOff(d.trace, n)
    && Watched(d, d.history, polls, n, begun, name) && Undecided(polls, oldId)
    && d.now >= begun + Elapsed(|polls|, d.poll)
  }

  /** The wait is over. */
  ghost predicate Over(d: Daemon, outcome: Outcome, polls: seq<Poll>, after: Option<string>, n: nat, begun: nat,
                       name: string, oldId: Id, imageBefore: string)
    reads d
  {
    && d.Valid() && HandsOff(d.trace, n) && Watched(d, d.history, polls, n, begun, name)
    && Justified(outcome, polls, after, oldId, imageBefore)
    && (outcome == Cancelled ==> d.calls >= d.cancelAt)
    && (outcome == NeverCameBack ==> d.now >= begun + d.timeout)
    && (outcome.CameBack() ==>
          d.world == d.history[n + 2 * (|polls| - 1)] && ImageSeen(d, NewId(polls), imageBefore, after))
    && (outcome.CameBack() ==> d.calls == n + 2 * |polls| - 1 + if imageBefore == "" then 0 else 1)
  }

  /** The polling loop and the image check after it. */
  method AwaitRespawn(d: Daemon, id: Id, name: string, imageBefore: string)
    returns (outcome: Outcome, ghost polls: seq<Poll>, ghost after: Option<string>)
    requires d.Valid()
    modifies d
    ensures old(d.trace) <= d.trace && old(d.history) <= d.history
    ensures Over(d, outcome, polls, after, old(d.calls), old(d.now), name, id, imageBefore)
    ensures outcome.CameBack() ==> SeenRunning(d.history, |old(d.history)|, NewId(polls), name) && NewId(polls) != id
    ensures |polls| <= 1 || (|polls| - 2) * d.poll < d.timeout
    ensures polls != [] && |d.history| > old(d.calls) && d.history[old(d.calls)] == old(d.world)
  {
    polls, after := [], None;
    var deadline := d.now + d.timeout;
    ghost var n, begun := d.calls, d.now;
    while true
      invariant Looking(d, polls, n, begun, name, id) && old(d.trace) <= d.trace && old(d.history) <= d.history
      invariant if polls == [] then d.world == old(d.world) else |d.history| > n && d.history[n] == old(d.world)
      decreases deadline + d.poll - d.now
    {
      var ended;
      ended, polls, after := PollOnce(d, id, name, imageBefore, deadline, polls, n, begun);
      if ended.Some? {
        PollsAreBounded(d, d.history, polls, n, begun, name, id);
        if ended.value.CameBack() { ItRan(d, d.history, polls, n, begun, name, id); }
        return ended.value, polls, after;
      }
    }
  }

  lemma ItRan(d: Daemon, history: seq<World>, polls: seq<Poll>, n: nat, begun: nat, name: string, oldId: Id)
    requires Watched(d, history, polls, n, begun, name) && FoundBack(polls, oldId)
    ensures SeenRunning(history, n, NewId(polls), name) && NewId(polls) != oldId
  {
    var j := |polls| - 1;
    assert Shows(history[n + 2 * j], d.Lost(n + 2 * j, false), polls[j], name);
  }

  /** One turn of the loop. */
  method PollOnce(d: Daemon, id: Id, name: string, imageBefore: string, deadline: nat, ghost polls: seq<Poll>,
                  ghost n: nat, ghost begun: nat)
    returns (ended: Option<Outcome>, ghost polls': seq<Poll>, ghost after: Option<string>)
    requires Looking(d, polls, n, begun, name, id) && deadline == begun + d.timeout
    modifies d
    ensures old(d.trace) <= d.trace && old(d.history) <= d.history && |polls'| == |polls| + 1
    ensures |d.history| > old(d.calls) && d.history[old(d.calls)] == old(d.world)
    ensures ended.Some? ==> Over(d, ended.value, polls', after, n, begun, name, id, imageBefore)
    ensures ended.None? ==>
      Looking(d, polls', n, begun, name, id) && old(d.now) < deadline && d.now >= old(d.now) + d.poll
  {
    after := None;
    var late := d.now >= deadline;
    ghost var p := Poll(None, late, d.now);
    ghost var before := d.history;
    var found := d.FindByName(name);
    p := p.(found := found);
    polls' := polls + [p];
    WatchedLater(d, before, d.history, polls, n, begun, name);
    WatchedOneMore(d, d.history, polls, p, n, begun, name);
    assert polls'[..|polls'| - 1] == polls;
    match Decide(found, id, late)
    case GaveUp =>
      ended := Some(NeverCameBack);
    case Back(newId) =>
      ended, after := Verified(d, newId, polls', n, begun, name, id, imageBefore);
    case Waiting =>
      ended := KeepLooking(d, polls', n, begun, name, id);
  }

  /** The branch of the loop that found the container back. */
  method Verified(d: Daemon, newId: Id, ghost polls: seq<Poll>, ghost n: nat, ghost begun: nat, ghost name: string,
                  ghost id: Id, imageBefore: string)
    returns (ended: Option<Outcome>, ghost after: Option<string>)
    requires d.Valid() && d.calls == n + 2 * |polls| - 1 && HandsOff(d.trace, n)
    requires Watched(d, d.history, polls, n, begun, name)
    requires FoundBack(polls, id) && NewId(polls) == newId && newId in d.world
    requires d.world == d.history[n + 2 * (|polls| - 1)]
    modifies d
    ensures old(d.trace) <= d.trace && old(d.history) <= d.history
    ensures ended.Some? && Over(d, ended.value, polls, after, n, begun, name, id, imageBefore)
  {
    ghost var before := d.history;
    var same;
    same, after := VerifyImage(d, newId, imageBefore);
    WatchedLater(d, before, d.history, polls, n, begun, name);
    ended := Some(if same then SameImage else Updated);
  }

  /** The branch of the loop that goes on waiting. */
  method KeepLooking(d: Daemon, ghost polls: seq<Poll>, ghost n: nat, ghost begun: nat, ghost name: string,
                     ghost id: Id)
    returns (ended: Option<Outcome>)
    requires d.Valid() && polls != [] && d.calls == n + 2 * |polls| - 1 && HandsOff(d.trace, n)
    requires Watched(d, d.history, polls, n, begun, name) && Undecided(polls, id)
    requires d.now >= begun + Elapsed(|polls| - 1, d.poll)
    modifies d
    ensures old(d.trace) <= d.trace && old(d.history) <= d.history && d.now >= old(d.now) + d.poll
    ensures Looking(d, polls, n, begun, name, id)
    ensures (ended.None? || (ended == Some(Cancelled) && d.calls >= d.cancelAt))
  {
    ghost var before := d.history;
    var cancelled := d.Wait();
    WatchedLater(d, before, d.history, polls, n, begun, name);
    ended := if cancelled then Some(Cancelled) else None;
  }

  /** verifyRespawnImage: best effort, so a failed or blank inspection counts as a changed image. */
  method VerifyImage(d: Daemon, newId: Id, imageBefore: string) returns (same: bool, ghost after: Option<string>)
    requires d.Valid() && newId in d.world && d.calls > 0
    modifies d
    ensures d.Valid() && d.world == old(d.world) && d.now == old(d.now) && old(d.trace) <= d.trace
    ensures old(d.history) <= d.history
    ensures forall k :: |old(d.trace)| <= k < |d.trace| ==> d.trace[k].op == Inspect
    ensures d.calls == old(d.calls) + if imageBefore == "" then 0 else 1
    ensures same <==> imageBefore != "" && after == Some(imageBefore)
    ensures ImageSeen(d, newId, imageBefore, after)
  {
    after := None;
    if imageBefore == "" {
      return false, after;
    }
    var c := d.ContainerInspect(newId);
    if c.None? || c.value.imageId == "" {
      return false, after;
    }
    after := Some(c.value.imageId);
    same := c.value.imageId == imageBefore;
  }

  // ---------------------------------------------------------------- what success proves

  /** Success shows a changed image exactly when the image before was known, the verifying inspection got
      through and the answer was not blank; "same image" is reported exactly when it then showed the old
      image again. */
  lemma ProofOfChange(d: Daemon, outcome: Outcome, polls: seq<Poll>, after: Option<string>, id: Id, imageBefore: string)
    requires outcome.CameBack() && Justified(outcome, polls, after, id, imageBefore)
    requires ImageSeen(d, NewId(polls), imageBefore, after)
    ensures var image := d.world[NewId(polls)].imageId;
            var seen := imageBefore != "" && !d.Lost(d.calls - 1, false) && image != "";
            && (outcome == SameImage <==> seen && image == imageBefore)
            && (outcome == Updated <==> (seen ==> image != imageBefore))
            && (after.Some? <==> seen)
  {
  }

  /** A container of that name and another id was seen running, and is there; "same image" means that a
      last call which got through showed the old image on it. */
  ghost predicate BackAs(d: Daemon, newId: Id, n: nat, name: string, oldId: Id, imageBefore: string, outcome: Outcome)
    reads d
  {
    && newId != oldId && newId in d.world && d.calls > 0 && SeenRunning(d.history, n, newId, name)
    && (outcome == SameImage <==>
          imageBefore != "" && !d.Lost(d.calls - 1, false) && d.world[newId].imageId == imageBefore)
  }

  ghost predicate BackRunning(d: Daemon, n: nat, name: string, oldId: Id, imageBefore: string, outcome: Outcome)
    reads d
  {
    exists newId :: BackAs(d, newId, n, name, oldId, imageBefore, outcome)
  }

  lemma ItIsBack(d: Daemon, outcome: Outcome, polls: seq<Poll>, after: Option<string>, n: nat, name: string, id: Id,
                 imageBefore: string)
    requires outcome.CameBack() && Justified(outcome, polls, after, id, imageBefore)
    requires ImageSeen(d, NewId(polls), imageBefore, after)
    requires SeenRunning(d.history, n, NewId(polls), name) && NewId(polls) != id
    ensures BackRunning(d, n, name, id, imageBefore, outcome)
  {
    ProofOfChange(d, outcome, polls, after, id, imageBefore);
    assert BackAs(d, NewId(polls), n, name, id, imageBefore, outcome);
  }

  /** It happens: the unit brings its container back on the very image it had, the verifying inspection
      (the third call) is lost, and the update counts as done. */
  method UpdatedOnTheOldImage(swarm: Swarm.ServiceApi) returns (d: Daemon, outcome: Outcome)
    ensures fresh(d) && outcome == Updated
    ensures forall i :: i in d.world ==> d.world[i].imageId == "sha256:old"
  {
    var labels := map["PODMAN_SYSTEMD_UNIT" := "web.service"];
    var web := Container("web", true, "sha256:old", Config("web:1", [], labels, ""), None, "");
    d := new Daemon(map[1 := web], k => k == 2, 1000, k => false, k => [], (k, ref) => "", (k, w) => map[2 := web],
                    k => false, 90, 1, swarm);
    ghost var polls, after;
    ghost var back := map[2 := web];
    assert Unit(web) == "web.service" && d.Halted(d.world, 0, 1) == back;
    outcome, polls, after := RecreateManaged(d, 1, web);
    assert d.history[1] == back;
    FoundAtOnce(back, 2, outcome, polls, after, 1, "sha256:old", "web");
    ProofOfChange(d, outcome, polls, after, 1, "sha256:old");
  }

  /** A container of another id, running in the world of the first poll, ends the wait there. */
  lemma FoundAtOnce(w: World, newId: Id, outcome: Outcome, polls: seq<Poll>, after: Option<string>, id: Id,
                    imageBefore: string, name: string)
    requires w.Keys == {newId} && newId != id && w[newId].running && w[newId].name == name
    requires polls != [] && Shows(w, false, polls[0], name) && Justified(outcome, polls, after, id, imageBefore)
    ensures outcome.CameBack() && |polls| == 1 && NewId(polls) == newId
  {
    assert !NameFree(w, name);
    if outcome != Cancelled { EarlierPollsWait(polls, id); }
  }

  lemma EarlierPollsWait(polls: seq<Poll>, id: Id)
    requires LastDecides(polls, id)
    ensures forall j :: 0 <= j < |polls| - 1 ==> Decide(polls[j].found, id, polls[j].late) == Waiting
  {
    forall j | 0 <= j < |polls| - 1 ensures Decide(polls[j].found, id, polls[j].late) == Waiting {
      assert polls[..|polls| - 1][j] == polls[j];
    }
  }
}
