/** recreateContainer, which sends each container to the only flow that is safe for it
    (internal/dockerx/recreate.go), and startSelfUpdate, which hands this process's own replacement to
    a helper container (internal/dockerx/selfupdate.go). */
module Dispatch {
  import opened Wrappers
  import opened Docker
  import Recreate
  import Swarm
  import Systemd

  datatype Outcome =
    | InspectFailed
    | PullFailed
    | UnknownService
    | Direct(ok: bool)
    | Managed(respawn: Systemd.Outcome)
    | Service(rollout: Swarm.Outcome)

  const TASK_ID := "com.docker.swarm.task.id"
  const SERVICE_ID := "com.docker.swarm.service.id"

  /** Which flow a container's labels ask for; a systemd unit outranks a swarm task. */
  ghost predicate RoutedBy(outcome: Outcome, c: Container)
  {
    var unit := Label(c.config.labels, "PODMAN_SYSTEMD_UNIT");
    var task := Label(c.config.labels, "com.docker.swarm.task.id");
    var service := Label(c.config.labels, "com.docker.swarm.service.id");
    match outcome
    case Managed(_) => unit != ""
    case Service(_) => unit == "" && task != "" && service != ""
    case UnknownService => unit == "" && task != "" && service == ""
    case Direct(_) => unit == "" && task == ""
    case _ => true
  }

  /** From the n-th on, only calls that cannot disturb a container. */
  ghost predicate Untouching(t: seq<Call>, n: nat)
  {
    forall k :: n <= k < |t| ==> t[k].op in {Inspect, Pull}
  }

  /** recreateContainer. */
  method RecreateContainer(d: Daemon, id: Id, target: string, backup: string) returns (outcome: Outcome)
    requires d.Valid() && UniqueNames(d.world)
    modifies d, d.swarm
    ensures d.Valid() && old(d.trace) <= d.trace && old(d.history) <= d.history
    // Nothing happens to any container before it was inspected and the image is on disk: a lost
    // inspection, and then a lost or broken-off pull, end the update with the host as it was.
    ensures outcome == InspectFailed <==> d.Lost(old(d.calls), false) || id !in old(d.world)
    ensures outcome == PullFailed <==> outcome != InspectFailed && d.PullFails(old(d.calls) + 1)
    ensures outcome == InspectFailed || outcome == PullFailed ==>
      d.world == old(d.world) && Untouching(d.trace, |old(d.trace)|) && d.swarm.trace == old(d.swarm.trace)
    ensures outcome != InspectFailed && outcome != PullFailed ==>
      old(d.trace) + [Call(Inspect, false, true), Call(Pull, false, true)] <= d.trace
    // Then the container's labels choose the flow; a service task is rolled by its service, under the rules of
    // Swarm.RolloutSafety.
    ensures outcome != InspectFailed && outcome != PullFailed ==>
      HandedOn(outcome, d, old(d.world), id, target, backup, old(d.calls) + 2, old(d.now)) &&
      Served(outcome, d.swarm, old(d.swarm.trace), old(d.swarm.calls), old(d.swarm.now), target)
    // At every moment, outside the flows that others own, the workload is there.
    ensures outcome.Direct? ==> Recreate.NeverOut(d, old(d.calls), old(d.world), id, target)
  {
    ghost var w0 := d.world;
    var early, insp := Prepare(d, id);
    if early.Some? {
      return early.value;
    }
    ghost var before := d.history;
    outcome := Route(d, id, insp.value, target, backup);
    Recreate.StillThere(w0, w0, id, target);
    assert forall k :: |old(d.history)| <= k < |before| ==> d.history[k] == w0;
  }

  /** The inspection and the pull, in that order; neither touches anything. */
  method Prepare(d: Daemon, id: Id) returns (early: Option<Outcome>, insp: Option<Container>)
    requires d.Valid()
    modifies d
    ensures d.Valid() && d.world == old(d.world) && d.now == old(d.now)
    ensures early == Some(InspectFailed) <==> d.Lost(old(d.calls), false) || id !in old(d.world)
    ensures early == Some(PullFailed) <==> early != Some(InspectFailed) && d.PullFails(old(d.calls) + 1)
    ensures early == Some(InspectFailed) ==> Untouched(d, old(d.trace), old(d.history), [Call(Inspect, false, false)])
    ensures early == Some(PullFailed) ==>
      Untouched(d, old(d.trace), old(d.history), [Call(Inspect, false, true), Call(Pull, false, false)])
    ensures early.Some? ==> early.value in {InspectFailed, PullFailed}
    ensures early.None? ==> id in d.world && insp == Some(d.world[id])
    ensures early.None? ==>
      Untouched(d, old(d.trace), old(d.history), [Call(Inspect, false, true), Call(Pull, false, true)])
  {
    insp := d.ContainerInspect(id);
    if insp.None? {
      return Some(InspectFailed), insp;
    }
    var pulled := d.ImagePull();
    early := if pulled then None else Some(PullFailed);
  }

  /** These calls were made, and the host stayed as it was through all of them. */
  ghost predicate Untouched(d: Daemon, trace: seq<Call>, history: seq<World>, made: seq<Call>)
    reads d
  {
    && d.trace == trace + made && |d.history| == |history| + |made| && history <= d.history
    && forall k :: |history| <= k < |d.history| ==> d.history[k] == d.world
  }

  /** Nothing was asked of the services API but by a rollout, and that is explained by what was answered. */
  ghost predicate Served(outcome: Outcome, swarm: Swarm.ServiceApi, before: seq<Swarm.Call>, n: nat, begun: nat,
                         target: string)
    reads swarm
  {
    if outcome.Service? then swarm.Accounted(before, n, begun, swarm.Watched(n), target, outcome.rollout)
    else swarm.trace == before
  }

  /** The flow is the one for this container, and keeps its promises. */
  ghost predicate HandedOn(outcome: Outcome, d: Daemon, w0: World, id: Id, target: string, backup: string, n: nat,
                           begun: nat)
    reads d
  {
    d.Valid() && id in w0 && RoutedBy(outcome, w0[id]) && Kept(outcome, d, w0, id, target, backup, n, begun)
  }

  /** What each flow promises, from the n-th call on, begun then. */
  ghost predicate Kept(outcome: Outcome, d: Daemon, w0: World, id: Id, target: string, backup: string, n: nat,
                       begun: nat)
    requires id in w0 && d.Valid()
    reads d
  {
    match outcome
    case Direct(ok) => KeptDirect(ok, d, w0, id, target, backup, n)
    case Managed(respawn) => KeptManaged(respawn, d, w0, id, n, begun)
    case _ => d.world == w0 && d.calls == n
  }

  /** The promises of the flow through the unit: what it saw come back, or why it gave up. */
  ghost predicate KeptManaged(respawn: Systemd.Outcome, d: Daemon, w0: World, id: Id, n: nat, begun: nat)
    requires id in w0 && d.Valid()
    reads d
  {
    && Systemd.HandsOff(d.trace, n) && (respawn == Systemd.NotRunning <==> !w0[id].running)
    && (respawn == Systemd.NotRunning ==> d.calls == n && d.world == w0)
    && (respawn == Systemd.StopFailed ==> d.Lost(n, false) && d.calls == n + 1 && d.world == d.Halted(w0, n, id))
    && (respawn == Systemd.NeverCameBack ==> d.now >= begun + d.timeout)
    && (respawn == Systemd.Cancelled ==> d.calls >= d.cancelAt)
    && (respawn.CameBack() ==> Systemd.BackRunning(d, n, w0[id].name, id, w0[id].imageId, respawn))
  }

  /** The promises of recreateDirect: success exactly when the backup name is free and every forward call
      gets through, and then a running replacement under the name, on the target image; otherwise, if the
      recovery calls take effect, the host as it was exactly when no call before them broke off halfway. */
  ghost predicate KeptDirect(ok: bool, d: Daemon, w0: World, id: Id, target: string, backup: string, n: nat)
    requires id in w0 && d.Valid()
    reads d
  {
    var forward := if w0[id].running then 4 else 3;
    && (ok <==> NameFree(w0, backup) && forall k :: n <= k < n + forward ==> !d.Lost(k, false))
    && (ok ==> Recreate.IsReplaced(d, w0, id, target, backup))
    && (!ok && Recreate.RecoveryReached(d, n) ==>
          (d.world == w0 <==> !Recreate.BreaksOff(d, n, w0[id].running, NameFree(w0, backup))))
  }

  /** The part of recreateContainer that chooses the flow. */
  method Route(d: Daemon, id: Id, c: Container, target: string, backup: string) returns (outcome: Outcome)
    requires d.Valid() && UniqueNames(d.world) && id in d.world && c == d.world[id]
    modifies d, d.swarm
    ensures d.Valid() && old(d.trace) <= d.trace && old(d.history) <= d.history
    ensures outcome != InspectFailed && outcome != PullFailed
    ensures HandedOn(outcome, d, old(d.world), id, target, backup, old(d.calls), old(d.now))
    ensures Served(outcome, d.swarm, old(d.swarm.trace), old(d.swarm.calls), old(d.swarm.now), target)
    ensures outcome.Direct? ==> Recreate.NeverOut(d, old(d.calls), old(d.world), id, target)
  {
    if Unit(c) != "" {
      var respawn;
      ghost var n, polls, after := d.calls, [], None;
      respawn, polls, after := Systemd.RecreateManaged(d, id, c);
      if respawn.CameBack() { Systemd.ItIsBack(d, respawn, polls, after, n, c.name, id, c.imageId); }
      return Managed(respawn);
    }
    if Label(c.config.labels, TASK_ID) != "" {
      var service := Label(c.config.labels, SERVICE_ID);
      if service == "" {
        return UnknownService;
      }
      var rollout := d.swarm.UpdateService(service, target);
      return Service(rollout);
    }
    var ok := Recreate.RecreateDirect(d, id, c, target, backup);
    return Direct(ok);
  }

  // ---------------------------------------------------------------- replacing oneself

  const HELPER_NAME := "whatsnewdock-self-update"

  datatype Launch = Launched | AlreadyCurrent | Failed

  function HelperConfig(selfImageId: string, selfId: string, target: string, dockerHost: string): Config
  {
    Config(selfImageId,
           ["WND_MODE=selfupdate", "WND_SELFUPDATE_CONTAINER=" + selfId, "WND_SELFUPDATE_IMAGE=" + target,
            "WND_DOCKER_HOST=" + dockerHost],
           map["com.whatsnewdock.role" := "self-update"], "")
  }

  /** The hosts two states have in common: everything except a container named like the helper. */
  ghost predicate SameButHelper(w0: World, w: World)
  {
    && (forall i :: i in w0 && w0[i].name != HELPER_NAME ==> i in w && w[i] == w0[i])
    && (forall i :: i in w && w[i].name != HELPER_NAME ==> i in w0)
  }

  /** Exactly one container has the helper's name; it runs, with this configuration. */
  ghost predicate RunsHelper(w: World, config: Config, access: HostConfig)
  {
    exists h :: h in w && w[h].running && w[h].config == config && w[h].host == Some(access) && OnlyHelper(w, h)
  }

  ghost predicate OnlyHelper(w: World, h: Id)
    requires h in w
  {
    w[h].name == HELPER_NAME && forall i :: i in w && w[i].name == HELPER_NAME ==> i == h
  }

  /** Exactly one container has the helper's name; it runs from this image id, with the access given, and its
      environment tells it to replace this container by one on that target. */
  ghost predicate HelperAtWork(w: World, imageId: string, selfId: string, target: string, dockerHost: string,
                               access: HostConfig)
  {
    exists h :: h in w && w[h].running && w[h].host == Some(access) && OnlyHelper(w, h) &&
                w[h].config.image == imageId && Told(w[h].config.env, selfId, target, dockerHost)
  }

  predicate Told(env: seq<string>, selfId: string, target: string, dockerHost: string)
  {
    && |env| == 4 && "WND_MODE=selfupdate" in env && "WND_SELFUPDATE_CONTAINER=" + selfId in env
    && "WND_SELFUPDATE_IMAGE=" + target in env && "WND_DOCKER_HOST=" + dockerHost in env
  }

  lemma HelperIsTold(w: World, imageId: string, selfId: string, target: string, dockerHost: string,
                     access: HostConfig)
    requires RunsHelper(w, HelperConfig(imageId, selfId, target, dockerHost), access)
    ensures HelperAtWork(w, imageId, selfId, target, dockerHost, access)
  {
    var config := HelperConfig(imageId, selfId, target, dockerHost);
    assert config.env[0] in config.env && config.env[1] in config.env && config.env[2] in config.env;
    assert config.env[3] in config.env;
  }

  /** startSelfUpdate. access stands for the mounts and networks copied for the helper. */
  method StartSelfUpdate(d: Daemon, self: Id, selfId: string, target: string, dockerHost: string, access: HostConfig)
    returns (launch: Launch)
    requires d.Valid() && UniqueNames(d.world)
    modifies d
    ensures d.Valid() && old(d.trace) <= d.trace
    // This process's container, like every other one on the host, is left exactly as it was.
    ensures SameButHelper(old(d.world), d.world)
    // A launch means: one running helper, built from the image id this process runs, told what to do.
    ensures launch == Launched ==> self in old(d.world)
    ensures launch == Launched ==>
      HelperAtWork(d.world, old(d.world)[self].imageId, selfId, target, dockerHost, access)
    // "Already current" needs the very reference to resolve to the running image, after a full pull.
    ensures launch == AlreadyCurrent ==>
      d.world == old(d.world) && self in d.world && d.world[self].config.image == target &&
      |d.trace| == |old(d.trace)| + 3 && d.trace[|old(d.trace)| + 1] == Call(Pull, false, true) &&
      d.resolve(d.calls - 1, target) == d.world[self].imageId
    // A lost or broken-off pull is a failure, with nothing touched.
    ensures d.PullFails(old(d.calls) + 1) ==> launch == Failed && d.world == old(d.world)
    // A failure creates nothing that stays, unless the clean-up call takes no effect or the create did.
    ensures launch == Failed && Recreate.RecoveryReached(d, old(d.calls)) && CreatesOrNot(d, old(d.calls)) ==>
      Cleared(old(d.world), d.world)
  {
    ghost var w0 := d.world;
    var insp := d.ContainerInspect(self);
    if insp.None? || insp.value.config.image == "" {
      return Failed;
    }
    var pulled := d.ImagePull();
    if !pulled {
      return Failed;
    }
    launch := Deploy(d, insp.value, selfId, target, dockerHost, access);
  }

  /** The part of startSelfUpdate after the pull. */
  method Deploy(d: Daemon, insp: Container, selfId: string, target: string, dockerHost: string, access: HostConfig)
    returns (launch: Launch)
    requires d.Valid() && UniqueNames(d.world)
    modifies d
    ensures d.Valid() && old(d.trace) <= d.trace && SameButHelper(old(d.world), d.world)
    ensures launch == Launched ==> HelperAtWork(d.world, insp.imageId, selfId, target, dockerHost, access)
    ensures launch == AlreadyCurrent ==>
      d.world == old(d.world) && insp.config.image == target && d.calls == old(d.calls) + 1 &&
      d.resolve(old(d.calls), target) == insp.imageId
    ensures launch == Failed && Recreate.RecoveryReached(d, old(d.calls)) && CreatesOrNot(d, old(d.calls)) ==>
      Cleared(old(d.world), d.world)
  {
    if insp.config.image == target {
      var id := d.ImageInspect(target);
      if id == Some(insp.imageId) {
        return AlreadyCurrent;
      }
    }
    launch := LaunchHelper(d, HelperConfig(insp.imageId, selfId, target, dockerHost), access);
    if launch == Launched { HelperIsTold(d.world, insp.imageId, selfId, target, dockerHost, access); }
  }

  /** From the n-th call on, no create takes effect while reporting an error. */
  ghost predicate CreatesOrNot(d: Daemon, n: nat)
    requires d.Valid()
    reads d
  {
    forall k :: n <= k < |d.trace| && d.trace[k].op == Create && !d.trace[k].ok ==> !d.HalfDone(k)
  }

  /** Nothing was added, and nothing but containers named like the helper was taken away. */
  ghost predicate Cleared(w0: World, w: World)
  {
    && (forall i :: i in w0 && w0[i].name != HELPER_NAME ==> i in w)
    && (forall i :: i in w ==> i in w0 && w[i] == w0[i])
  }

  /** A helper left over from an interrupted attempt is removed, if the daemon lets us. */
  method ClearStale(d: Daemon)
    requires d.Valid()
    modifies d
    ensures d.Valid() && old(d.trace) <= d.trace && d.calls >= old(d.calls)
    ensures Cleared(old(d.world), d.world)
  {
    var stale := d.FindByName(HELPER_NAME);
    if stale.Some? {
      var _ := d.ContainerRemove(stale.value.id, false);
    }
  }

  /** The part of startSelfUpdate that touches the host: clear a stale helper, create and start a new one. */
  method LaunchHelper(d: Daemon, config: Config, access: HostConfig) returns (launch: Launch)
    requires d.Valid() && UniqueNames(d.world)
    modifies d
    ensures d.Valid() && old(d.trace) <= d.trace && launch != AlreadyCurrent
    ensures SameButHelper(old(d.world), d.world)
    ensures launch == Launched ==> RunsHelper(d.world, config, access)
    ensures launch == Failed && Recreate.RecoveryReached(d, old(d.calls)) && CreatesOrNot(d, old(d.calls)) ==>
      Cleared(old(d.world), d.world)
  {
    ClearStale(d);
    launch := StartHelper(d, config, access);
  }

  ghost predicate AddsHelper(w0: World, w: World)
  {
    exists h :: h !in w0 && h in w && w == w0[h := w[h]] && w[h].name == HELPER_NAME
  }

  method StartHelper(d: Daemon, config: Config, access: HostConfig) returns (launch: Launch)
    requires d.Valid()
    modifies d
    ensures d.Valid() && old(d.trace) <= d.trace && launch != AlreadyCurrent
    ensures d.world == old(d.world) || AddsHelper(old(d.world), d.world)
    ensures launch == Launched ==> RunsHelper(d.world, config, access)
    ensures launch == Failed && Recreate.RecoveryReached(d, old(d.calls)) && CreatesOrNot(d, old(d.calls)) ==>
      d.world == old(d.world)
  {
    var created := d.ContainerCreate(config, Some(access), "", HELPER_NAME);
    assert d.trace[old(d.calls)] == Call(Create, false, created.Some?);
    if created.None? {
      return Failed;
    }
    var h := created.value;
    var started := d.ContainerStart(h, false);
    if !started {
      var _ := d.ContainerRemove(h, true);
      assert d.Lands(d.calls - 1, true) ==> d.world == old(d.world);
      return Failed;
    }
    assert d.world[h].config == config && d.world == old(d.world)[h := d.world[h]];
    launch := Launched;
  }
}
