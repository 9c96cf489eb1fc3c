/** The container daemon as the recreate flow sees it (the containerDaemon interface of
    internal/dockerx/recreate.go). Every call may be lost, ordinary calls are all lost once the caller's
    context ends. A refused call changes nothing; a lost one reports an error but may have taken effect. */
module Docker {
  import opened Wrappers
  import opened Respawn
  import PullProgress
  import Swarm

  type Id = nat

  datatype Config = Config(image: string, env: seq<string>, labels: map<string, string>, rest: string)

  datatype HostConfig = HostConfig(swappiness: Option<int>, rest: string)

  datatype Container = Container(name: string, running: bool, imageId: string,
                                 config: Config, host: Option<HostConfig>, networks: string)

  type World = map<Id, Container>

  predicate NameFree(w: World, name: string)
  {
    forall i :: i in w ==> w[i].name != name
  }

  /** One container more than before. */
  ghost predicate Adds(w0: World, w: World, c: Container)
  {
    exists i: Id :: i !in w0 && w == w0[i := c]
  }

  ghost predicate UniqueNames(w: World)
  {
    forall i, j :: i in w && j in w && w[i].name == w[j].name ==> i == j
  }

  function Label(labels: map<string, string>, key: string): string
  {
    if key in labels then labels[key] else ""
  }

  function Unit(c: Container): string { Label(c.config.labels, "PODMAN_SYSTEMD_UNIT") }

  /** Podman reports an unset swappiness as 0; handing that 0 back is refused by the runtime. */
  function Sanitize(h: Option<HostConfig>): (s: Option<HostConfig>)
    ensures s.Some? <==> h.Some?
    ensures s.Some? ==> s.value.rest == h.value.rest && s.value.swappiness != Some(0)
    ensures s.Some? && h.value.swappiness != Some(0) ==> s == h
  {
    if h.None? then None
    else if h.value.swappiness == Some(0) then Some(h.value.(swappiness := None))
    else h
  }

  datatype Op = Inspect | Pull | Stop | Rename | Create | Start | Remove | List | Resolve | Sleep

  datatype Call = Call(op: Op, recovery: bool, ok: bool)

  datatype StopResult = Stopped | AlreadyGone | StopError

  datatype Summary = Summary(id: Id, names: seq<string>, state: string)

  predicate Mirrors(s: Summary, w: World)
  {
    s.id in w && s.names == ["/" + w[s.id].name] && (s.state == "running" <==> w[s.id].running)
  }

  /** faults(k) loses the k-th call; ordinary calls from cancelAt on are lost as well. lands(k) lets the
      k-th call take effect even if it is lost. unit is what a systemd unit (or anyone else) turns the world
      into while it is given time to act. */
  class Daemon {
    const faults: nat -> bool
    const cancelAt: nat
    const lands: nat -> bool
    const streams: nat -> seq<PullProgress.Line>
    const resolve: (nat, string) -> string
    const unit: (nat, World) -> World
    const goneErrors: nat -> bool
    const timeout: nat
    const poll: nat
    const swarm: Swarm.ServiceApi
    var world: World
    var now: nat
    var calls: nat
    ghost var trace: seq<Call>
    ghost var history: seq<World>

    constructor (world: World, faults: nat -> bool, cancelAt: nat, lands: nat -> bool,
                 streams: nat -> seq<PullProgress.Line>, resolve: (nat, string) -> string,
                 unit: (nat, World) -> World, goneErrors: nat -> bool, timeout: nat, poll: nat,
                 swarm: Swarm.ServiceApi)
      requires poll > 0
      ensures Valid() && this.world == world && this.swarm == swarm && calls == 0
      ensures this.faults == faults && this.cancelAt == cancelAt && this.lands == lands && this.streams == streams
      ensures this.resolve == resolve && this.unit == unit && this.goneErrors == goneErrors
      ensures this.timeout == timeout && this.poll == poll
    {
      this.world, this.faults, this.cancelAt, this.lands, this.streams := world, faults, cancelAt, lands, streams;
      this.resolve, this.unit, this.goneErrors := resolve, unit, goneErrors;
      this.timeout, this.poll, this.swarm := timeout, poll, swarm;
      now, calls, trace, history := 0, 0, [], [];
    }

    ghost predicate Valid() reads this
    {
      |trace| == |history| == calls && poll > 0
    }

    predicate Lost(k: nat, recovery: bool) { faults(k) || (!recovery && k >= cancelAt) }

    /** The call takes effect, if nothing but its loss stands in the way. */
    predicate Lands(k: nat, recovery: bool) { !Lost(k, recovery) || lands(k) }

    /** An ordinary call that takes effect and reports an error all the same. */
    predicate HalfDone(k: nat) { Lost(k, false) && lands(k) }

    /** A pull is complete when its stream is not broken off by an error message. */
    predicate PullFails(k: nat) { Lost(k, false) || PullProgress.Breaks(streams(k)) }

    twostate predicate Logged(op: Op, recovery: bool, ok: bool)
      reads this
    {
      && calls == old(calls) + 1
      && trace == old(trace) + [Call(op, recovery, ok)]
      && history == old(history) + [world]
    }

    ghost method Log(op: Op, recovery: bool, ok: bool)
      modifies this`trace, this`history
      ensures trace == old(trace) + [Call(op, recovery, ok)] && history == old(history) + [world]
    {
      trace, history := trace + [Call(op, recovery, ok)], history + [world];
    }

    method ContainerInspect(id: Id) returns (c: Option<Container>)
      modifies this
      ensures Logged(Inspect, false, c.Some?) && world == old(world) && now == old(now)
      ensures c == if !Lost(old(calls), false) && id in world then Some(world[id]) else None
    {
      c := if !Lost(calls, false) && id in world then Some(world[id]) else None;
      calls := calls + 1;
      Log(Inspect, false, c.Some?);
    }

    method ImagePull() returns (ok: bool)
      modifies this
      ensures Logged(Pull, false, ok) && world == old(world) && now == old(now)
      ensures ok == !PullFails(old(calls))
    {
      ok := false;
      if !Lost(calls, false) {
        var complete, _ := PullProgress.Drain(streams(calls));
        ok := complete;
      }
      calls := calls + 1;
      Log(Pull, false, ok);
    }

    /** The image id a reference resolves to on the host right now. */
    method ImageInspect(ref: string) returns (id: Option<string>)
      modifies this
      ensures Logged(Resolve, false, id.Some?) && world == old(world) && now == old(now)
      ensures id == if Lost(old(calls), false) then None else Some(resolve(old(calls), ref))
    {
      id := if Lost(calls, false) then None else Some(resolve(calls, ref));
      calls := calls + 1;
      Log(Resolve, false, id.Some?);
    }

    /** What stopping leaves as the k-th call: the unit, if there is one, has acted. */
    function Halted(w: World, k: nat, id: Id): World
    {
      if id !in w || !Lands(k, false) then w
      else
        var stopped := w[id := w[id].(running := false)];
        if Unit(w[id]) == "" then stopped else unit(k, stopped)
    }

    /** Stopping a container that a systemd unit owns makes the unit act on it. */
    method ContainerStop(id: Id) returns (r: StopResult)
      modifies this
      ensures Logged(Stop, false, r == Stopped) && now == old(now)
      ensures r == Stopped <==> !Lost(old(calls), false) && id in old(world)
      ensures world == Halted(old(world), old(calls), id)
    {
      r := if id in world && !Lost(calls, false) then Stopped else if goneErrors(calls) then AlreadyGone else StopError;
      if id in world && Lands(calls, false) {
        var managed := Unit(world[id]) != "";
        world := world[id := world[id].(running := false)];
        if managed { world := unit(calls, world); }
      }
      calls := calls + 1;
      Log(Stop, false, r == Stopped);
    }

    method ContainerRename(id: Id, name: string, recovery: bool) returns (ok: bool)
      modifies this
      ensures Logged(Rename, recovery, ok) && now == old(now)
      ensures ok <==> !Lost(old(calls), recovery) && id in old(world) && NameFree(old(world), name)
      ensures world == if Lands(old(calls), recovery) && id in old(world) && NameFree(old(world), name)
                       then old(world)[id := old(world)[id].(name := name)] else old(world)
    {
      var possible := id in world && NameFree(world, name);
      ok := !Lost(calls, recovery) && possible;
      if possible && Lands(calls, recovery) { world := world[id := world[id].(name := name)]; }
      calls := calls + 1;
      Log(Rename, recovery, ok);
    }

    method ContainerCreate(config: Config, host: Option<HostConfig>, networks: string, name: string)
      returns (id: Option<Id>)
      modifies this
      ensures Logged(Create, false, id.Some?) && now == old(now)
      ensures id.Some? <==> !Lost(old(calls), false) && NameFree(old(world), name)
      ensures id.None? && !(Lands(old(calls), false) && NameFree(old(world), name)) ==> world == old(world)
      ensures id.None? && Lands(old(calls), false) && NameFree(old(world), name) ==>
        var imageId := resolve(old(calls), config.image);
        Adds(old(world), world, Container(name, false, imageId, config, host, networks))
      ensures id.Some? ==> id.value !in old(world)
      ensures id.Some? ==>
        var imageId := resolve(old(calls), config.image);
        world == old(world)[id.value := Container(name, false, imageId, config, host, networks)]
    {
      id := None;
      if Lands(calls, false) && NameFree(world, name) {
        FreshIdExists(world);
        var unused: Id :| unused !in world;
        if !Lost(calls, false) { id := Some(unused); }
        world := world[unused := Container(name, false, resolve(calls, config.image), config, host, networks)];
      }
      calls := calls + 1;
      Log(Create, false, id.Some?);
    }

    method ContainerStart(id: Id, recovery: bool) returns (ok: bool)
      modifies this
      ensures Logged(Start, recovery, ok) && now == old(now)
      ensures ok <==> !Lost(old(calls), recovery) && id in old(world)
      ensures world == if Lands(old(calls), recovery) && id in old(world)
                       then old(world)[id := old(world)[id].(running := true)] else old(world)
    {
      ok := !Lost(calls, recovery) && id in world;
      if id in world && Lands(calls, recovery) { world := world[id := world[id].(running := true)]; }
      calls := calls + 1;
      Log(Start, recovery, ok);
    }

    method ContainerRemove(id: Id, recovery: bool) returns (ok: bool)
      modifies this
      ensures Logged(Remove, recovery, ok) && now == old(now)
      ensures ok <==> !Lost(old(calls), recovery) && id in old(world)
      ensures world == if Lands(old(calls), recovery) then old(world) - {id} else old(world)
    {
      ok := !Lost(calls, recovery) && id in world;
      if Lands(calls, recovery) { world := world - {id}; }
      calls := calls + 1;
      Log(Remove, recovery, ok);
    }

    /** The name filter lets through at least the exact matches, in any order. */
    method ContainerList(name: string) returns (list: Option<seq<Summary>>)
      modifies this
      ensures Logged(List, false, list.Some?) && world == old(world) && now == old(now)
      ensures list.None? <==> Lost(old(calls), false)
      ensures list.Some? ==> forall s :: s in list.value ==> Mirrors(s, world)
      ensures list.Some? ==> forall i :: i in world && world[i].name == name ==>
        exists s :: s in list.value && s.id == i
    {
      list := None;
      if !Lost(calls, false) {
        var out: seq<Summary> := [];
        var rest := world.Keys;
        while rest != {}
          invariant rest <= world.Keys
          invariant forall s :: s in out ==> Mirrors(s, world)
          invariant forall i :: i in world && i !in rest && world[i].name == name ==> exists s :: s in out && s.id == i
          decreases rest
        {
          var i :| i in rest;
          var lookalike: bool := *;
          if lookalike || world[i].name == name {
            var s := Summary(i, ["/" + world[i].name], if world[i].running then "running" else "exited");
            assert forall t :: t in out ==> t in out + [s];
            out := out + [s];
            assert s in out;
          }
          rest := rest - {i};
        }
        list := Some(out);
      }
      calls := calls + 1;
      Log(List, false, list.Some?);
    }

    /** findContainerByName: a failed listing reads as nothing found. */
    method FindByName(name: string) returns (found: Option<Ref>)
      modifies this
      ensures Logged(List, false, !Lost(old(calls), false)) && world == old(world) && now == old(now)
      ensures found.Some? ==> found.value.id in world && world[found.value.id].name == name
      ensures found.Some? ==> (found.value.state == "running" <==> world[found.value.id].running)
      ensures found.None? <==> Lost(old(calls), false) || NameFree(world, name)
    {
      var list := ContainerList(name);
      found := None;
      if list.Some? {
        var i := 0;
        while i < |list.value| && found.None?
          modifies {}
          invariant 0 <= i <= |list.value|
          invariant found.None? ==> forall k :: 0 <= k < i ==> !ExactNameMatch(list.value[k].names, name)
          invariant found.Some? ==> found.value.id in world && world[found.value.id].name == name
          invariant found.Some? ==> (found.value.state == "running" <==> world[found.value.id].running)
        {
          var s := list.value[i];
          MatchMeansNamed(s, world, name);
          if ExactNameMatch(s.names, name) { found := Some(Ref(s.id, s.state)); }
          i := i + 1;
        }
        if found.None? {
          forall i | i in world ensures world[i].name != name {
            if world[i].name == name {
              var s :| s in list.value && s.id == i;
              MatchMeansNamed(s, world, name);
            }
          }
        }
      }
    }

    /** One poll interval passes, or more, and the unit acts. */
    method Wait() returns (cancelled: bool)
      modifies this
      ensures Logged(Sleep, false, true) && now >= old(now) + poll && world == unit(old(calls), old(world))
      ensures cancelled == (calls >= cancelAt)
    {
      var extra: nat :| extra >= 0;
      now, world, calls := now + poll + extra, unit(calls, world), calls + 1;
      Log(Sleep, false, true);
      cancelled := calls >= cancelAt;
    }
  }

  lemma MatchMeansNamed(s: Summary, w: World, name: string)
    requires Mirrors(s, w)
    ensures ExactNameMatch(s.names, name) <==> w[s.id].name == name
  {
    var n := "/" + w[s.id].name;
    assert TrimSlash(n) == w[s.id].name;
    assert n in s.names;
  }

  lemma FreshIdExists(w: World)
    ensures exists i: Id :: i !in w
  {
    var n := NotBelow(w.Keys);
    assert n !in w;
  }
}
