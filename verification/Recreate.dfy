/** Replacing a container by one on another image (internal/dockerx/recreate.go) and handing a
    self-replacement to a helper (internal/dockerx/selfupdate.go). */
module Recreate {
  import opened Wrappers
  import opened Docker
  import Respawn
  import Swarm

  // ---------------------------------------------------------------- what is promised

  /** The container created in place of before, once started. */
  function Replacement(before: Container, imageId: string, target: string): Container
  {
    Container(before.name, true, imageId, before.config.(image := target), Sanitize(before.host), before.networks)
  }

  /** c runs under before's name and on the target image, with all else that before was configured with;
      only a swappiness of zero is not handed on. */
  predicate TakesOver(before: Container, c: Container, target: string)
  {
    && c.running && c.name == before.name && c.networks == before.networks
    && c.config.image == target && c.config.env == before.config.env
    && c.config.labels == before.config.labels && c.config.rest == before.config.rest
    && (c.host.Some? <==> before.host.Some?) && (c.host.Some? ==> HandedOn(before.host.value, c.host.value))
  }

  predicate HandedOn(h: HostConfig, h': HostConfig)
  {
    h'.rest == h.rest && h'.swappiness == if h.swappiness == Some(0) then None else h.swappiness
  }

  lemma ReplacementTakesOver(before: Container, imageId: string, target: string)
    ensures TakesOver(before, Replacement(before, imageId, target), target)
    ensures Replacement(before, imageId, target).imageId == imageId
  {
  }

  ghost predicate OthersKept(w0: World, w: World, id: Id)
  {
    forall j :: j in w0 && j != id ==> j in w && w[j] == w0[j]
  }

  /** The original is still there, whatever its name and running state. */
  predicate OriginalKept(w0: World, w: World, id: Id)
    requires id in w0
  {
    id in w && w[id] == w0[id].(name := w[id].name, running := w[id].running)
  }

  ghost predicate Replaced(w0: World, w: World, id: Id, target: string)
    requires id in w0
  {
    exists r :: r in w && r !in w0 && TakesOver(w0[id], w[r], target)
  }

  /** At no point is the workload gone: the original exists with all its configuration, or a started
      replacement holds its name; and nothing else on the host changed. */
  ghost predicate NoOutage(w0: World, w: World, id: Id, target: string)
    requires id in w0
  {
    (OriginalKept(w0, w, id) || Replaced(w0, w, id, target)) && OthersKept(w0, w, id)
  }

  /** Every recovery call made since the n-th call took effect. */
  ghost predicate RecoveryReached(d: Daemon, n: nat)
    requires d.Valid()
    reads d
  {
    forall k :: n <= k < |d.trace| && d.trace[k].recovery ==> d.Lands(k, true)
  }

  // ---------------------------------------------------------------- the direct flow

  /** Every state the daemon was in from the n-th call on. */
  ghost predicate NeverOut(d: Daemon, n: nat, w0: World, id: Id, target: string)
    requires id in w0
    reads d
  {
    forall k :: n <= k < |d.history| ==> NoOutage(w0, d.history[k], id, target)
  }

  /** The world once the original has been moved aside. */
  function MovedAside(w0: World, id: Id, backup: string): World
    requires id in w0
  {
    w0[id := w0[id].(name := backup, running := false)]
  }

  /** The world after a successful swap; the old container may have survived its removal. */
  function Swapped(w0: World, id: Id, backup: string, removed: bool, r: Id, replacement: Container): World
    requires id in w0
  {
    (if removed then w0 - {id} else MovedAside(w0, id, backup))[r := replacement]
  }

  /** A running replacement has the name, on what the target resolved to when it was created (the third call
      from the end); the original is gone or under the backup name. */
  ghost predicate IsReplaced(d: Daemon, w0: World, id: Id, target: string, backup: string)
    requires id in w0
    reads d
  {
    && d.calls >= 3
    && exists r ::
         && SwappedFor(w0, d.world, id, backup, d.Lands(d.calls - 1, false), r)
         && TakesOver(w0[id], d.world[r], target) && d.world[r].imageId == d.resolve(d.calls - 3, target)
  }

  /** One container has come in for another, which is gone or stopped under the backup name. */
  ghost predicate SwappedFor(w0: World, w: World, id: Id, backup: string, removed: bool, r: Id)
    requires id in w0
  {
    && r in w && r !in w0 && OthersKept(w0, w, id) && (forall j :: j in w ==> j == r || j in w0)
    && (if removed then id !in w else id in w && w[id] == w0[id].(name := backup, running := false))
  }

  lemma SwapIsReplaced(d: Daemon, w0: World, id: Id, target: string, backup: string, r: Id)
    requires id in w0 && r !in w0 && d.calls >= 3
    requires var repl := Replacement(w0[id], d.resolve(d.calls - 3, target), target);
             d.world == Swapped(w0, id, backup, d.Lands(d.calls - 1, false), r, repl)
    ensures IsReplaced(d, w0, id, target, backup)
  {
    ReplacementTakesOver(w0[id], d.resolve(d.calls - 3, target), target);
    assert SwappedFor(w0, d.world, id, backup, d.Lands(d.calls - 1, false), r);
  }

  /** The stop, or the rename to a free name after it, takes effect and reports an error. */
  predicate LeftAside(d: Daemon, n: nat, running: bool, free: bool)
  {
    if running then d.HalfDone(n) || (free && !d.Lost(n, false) && d.HalfDone(n + 1)) else free && d.HalfDone(n)
  }

  /** So does one of the two, or the create once they got through. */
  predicate BreaksOff(d: Daemon, n: nat, running: bool, free: bool)
  {
    var create := if running then n + 2 else n + 1;
    LeftAside(d, n, running, free) ||
    (free && d.HalfDone(create) && forall k :: n <= k < create ==> !d.Lost(k, false))
  }

  /** The restore closure of recreateDirect. Whether or not its calls get through, the original stays;
      if they do, it has its name and state back, provided the name is free. */
  method Restore(d: Daemon, ghost w0: World, id: Id, name: string, renamed: bool, wasRunning: bool,
                 ghost target: string)
    requires d.Valid() && id in w0 && OriginalKept(w0, d.world, id) && OthersKept(w0, d.world, id)
    modifies d
    ensures d.Valid() && old(d.history) <= d.history && old(d.trace) <= d.trace
    ensures d.calls == old(d.calls) + (if renamed then 1 else 0) + (if wasRunning then 1 else 0)
    ensures OriginalKept(w0, d.world, id) && OthersKept(w0, d.world, id) && NeverOut(d, old(d.calls), w0, id, target)
    ensures d.world.Keys == old(d.world).Keys && (!renamed ==> d.world[id].name == old(d.world)[id].name)
    ensures Restorable(w0, old(d.world), id, name, renamed, wasRunning) && RecoveryReached(d, old(d.calls)) ==>
      d.world == w0
  {
    ghost var w1 := d.world;
    if renamed { RenameBack(d, w0, id, name, target); }
    ghost var w2 := d.world;
    if wasRunning { StartAgain(d, w0, id, target); }
    if Restorable(w0, w1, id, name, renamed, wasRunning) && RecoveryReached(d, old(d.calls)) {
      PutBack(w0, w1, w2, d.world, id, name, renamed, wasRunning);
    }
  }

  lemma StillItself(w0: World, w: World, w': World, id: Id, target: string)
    requires id in w0 && OriginalKept(w0, w, id) && OthersKept(w0, w, id) && id in w'
    requires w' == w[id := w[id].(name := w'[id].name, running := w'[id].running)]
    ensures OriginalKept(w0, w', id) && OthersKept(w0, w', id) && NoOutage(w0, w', id, target)
    ensures w'.Keys == w.Keys
  {
  }

  /** One call has been added to the log, and left the workload there. */
  twostate predicate OneCall(d: Daemon, recovery: bool, w0: World, id: Id, target: string)
    requires id in w0
    reads d
  {
    && d.Valid() && d.calls == old(d.calls) + 1
    && old(d.trace) <= d.trace && d.trace[old(d.calls)].recovery == recovery
    && d.history == old(d.history) + [d.world]
    && OriginalKept(w0, d.world, id) && OthersKept(w0, d.world, id) && NoOutage(w0, d.world, id, target)
  }

  method RenameBack(d: Daemon, ghost w0: World, id: Id, name: string, ghost target: string)
    requires d.Valid() && id in w0 && OriginalKept(w0, d.world, id) && OthersKept(w0, d.world, id)
    modifies d
    ensures OneCall(d, true, w0, id, target) && d.world.Keys == old(d.world).Keys
    ensures d.Lands(old(d.calls), true) && NameFree(old(d.world), name) ==>
      d.world == old(d.world)[id := old(d.world)[id].(name := name)]
  {
    ghost var w := d.world;
    var _ := d.ContainerRename(id, name, true);
    StillItself(w0, w, d.world, id, target);
  }

  method StartAgain(d: Daemon, ghost w0: World, id: Id, ghost target: string)
    requires d.Valid() && id in w0 && OriginalKept(w0, d.world, id) && OthersKept(w0, d.world, id)
    modifies d
    ensures OneCall(d, true, w0, id, target) && d.world.Keys == old(d.world).Keys
    ensures d.world[id].name == old(d.world)[id].name
    ensures d.Lands(old(d.calls), true) ==> d.world == old(d.world)[id := old(d.world)[id].(running := true)]
  {
    ghost var w := d.world;
    var _ := d.ContainerStart(id, true);
    StillItself(w0, w, d.world, id, target);
  }

  /** Nothing but the original's name and running state has changed, and the name is to be had. */
  predicate Restorable(w0: World, w: World, id: Id, name: string, renamed: bool, wasRunning: bool)
    requires id in w0
  {
    && id in w && w == w0[id := w0[id].(name := w[id].name, running := false)]
    && wasRunning == w0[id].running && name == w0[id].name
    && (if renamed then NameFree(w, name) else w[id].name == name)
  }

  lemma PutBack(w0: World, w1: World, w2: World, w3: World, id: Id, name: string, renamed: bool, wasRunning: bool)
    requires id in w0 && Restorable(w0, w1, id, name, renamed, wasRunning)
    requires w2 == if renamed then w1[id := w1[id].(name := name)] else w1
    requires w3 == if wasRunning then w2[id := w2[id].(running := true)] else w2
    ensures w3 == w0
  {
    assert w3[id] == w0[id];
  }

  lemma StillThere(w0: World, w: World, id: Id, target: string)
    requires id in w0 && OriginalKept(w0, w, id) && OthersKept(w0, w, id)
    ensures NoOutage(w0, w, id, target)
  {
  }

  lemma NameIsFreed(w0: World, id: Id, backup: string)
    requires UniqueNames(w0) && id in w0 && NameFree(w0, backup)
    ensures NameFree(MovedAside(w0, id, backup), w0[id].name)
  {
  }

  /** Steps 2 to 4 of recreateDirect, from the moment the original has been moved aside. */
  method SwapIn(d: Daemon, ghost w0: World, id: Id, insp: Container, target: string, backup: string)
    returns (ok: bool)
    requires d.Valid() && id in w0 && insp == w0[id] && UniqueNames(w0) && NameFree(w0, backup)
    requires d.world == MovedAside(w0, id, backup)
    modifies d
    ensures d.Valid() && d.calls > old(d.calls)
    ensures old(d.history) <= d.history && old(d.trace) <= d.trace
    ensures !ok && RecoveryReached(d, old(d.calls)) && !d.HalfDone(old(d.calls)) ==> d.world == w0
    ensures d.HalfDone(old(d.calls)) ==> !ok && d.world != w0
    ensures !ok ==> OriginalKept(w0, d.world, id) && OthersKept(w0, d.world, id)
    ensures NeverOut(d, old(d.calls), w0, id, target)
    ensures ok <==> !d.Lost(old(d.calls), false) && !d.Lost(old(d.calls) + 1, false)
    ensures ok ==> d.calls == old(d.calls) + 3
    ensures ok ==> IsReplaced(d, w0, id, target, backup)
  {
    var created := CreateInPlace(d, w0, id, insp, target, backup);
    if created.None? {
      Restore(d, w0, id, insp.name, true, insp.running, target);
      ok := false;
    } else {
      ghost var imageId := d.resolve(old(d.calls), target);
      ok := StartAndDrop(d, w0, id, insp, target, backup, created.value, imageId);
      if ok { SwapIsReplaced(d, w0, id, target, backup, created.value); }
    }
  }

  /** Step 2, under the name that was freed. */
  method CreateInPlace(d: Daemon, ghost w0: World, id: Id, insp: Container, target: string, ghost backup: string)
    returns (created: Option<Id>)
    requires d.Valid() && id in w0 && insp == w0[id] && UniqueNames(w0) && NameFree(w0, backup)
    requires d.world == MovedAside(w0, id, backup)
    modifies d
    ensures OneCall(d, false, w0, id, target) && (created.Some? <==> !d.Lost(old(d.calls), false))
    ensures created.Some? ==>
      created.value !in w0 &&
      d.world == MovedAside(w0, id, backup)[created.value :=
        Replacement(insp, d.resolve(old(d.calls), target), target).(running := false)]
    ensures created.None? && d.HalfDone(old(d.calls)) ==> d.world.Keys != w0.Keys
    ensures created.None? && !d.HalfDone(old(d.calls)) ==>
      Restorable(w0, d.world, id, insp.name, true, insp.running)
  {
    NameIsFreed(w0, id, backup);
    created := d.ContainerCreate(insp.config.(image := target), Sanitize(insp.host), insp.networks, insp.name);
    StillThere(w0, d.world, id, target);
  }

  /** Steps 3 and 4: start the replacement, then remove the original. */
  method StartAndDrop(d: Daemon, ghost w0: World, id: Id, insp: Container, target: string, backup: string,
                      created: Id, ghost imageId: string)
    returns (ok: bool)
    requires d.Valid() && id in w0 && insp == w0[id] && UniqueNames(w0) && NameFree(w0, backup) && created !in w0
    requires d.world == MovedAside(w0, id, backup)[created := Replacement(insp, imageId, target).(running := false)]
    modifies d
    ensures d.Valid() && d.calls > old(d.calls)
    ensures old(d.history) <= d.history && old(d.trace) <= d.trace
    ensures !ok && RecoveryReached(d, old(d.calls)) ==> d.world == w0
    ensures !ok ==> OriginalKept(w0, d.world, id) && OthersKept(w0, d.world, id)
    ensures NeverOut(d, old(d.calls), w0, id, target)
    ensures ok <==> !d.Lost(old(d.calls), false)
    ensures ok ==> d.calls == old(d.calls) + 2
    ensures ok ==>
      d.world == Swapped(w0, id, backup, d.Lands(d.calls - 1, false), created, Replacement(insp, imageId, target))
  {
    var started := d.ContainerStart(created, false);
    StillThere(w0, d.world, id, target);
    if !started {
      ok := GiveUp(d, w0, id, insp, target, backup, created);
    } else {
      StartedIsSwapped(w0, id, backup, created, insp, imageId, target);
      Drop(d, w0, id, target, backup, created, imageId);
      ok := true;
    }
  }

  /** Step 4: a container that cannot be removed stays under the backup name. */
  method Drop(d: Daemon, ghost w0: World, id: Id, ghost target: string, ghost backup: string, ghost created: Id,
              ghost imageId: string)
    requires d.Valid() && id in w0 && created !in w0
    requires d.world == Swapped(w0, id, backup, false, created, Replacement(w0[id], imageId, target))
    modifies d
    ensures d.Valid() && d.calls == old(d.calls) + 1
    ensures old(d.history) <= d.history && old(d.trace) <= d.trace
    ensures NeverOut(d, old(d.calls), w0, id, target)
    ensures d.world ==
      Swapped(w0, id, backup, d.Lands(d.calls - 1, false), created, Replacement(w0[id], imageId, target))
  {
    var _ := d.ContainerRemove(id, false);
    ghost var removed := d.Lands(old(d.calls), false);
    assert d.world == Swapped(w0, id, backup, removed, created, Replacement(w0[id], imageId, target));
    TakenOver(w0, id, backup, removed, created, imageId, target);
  }

  lemma StartedIsSwapped(w0: World, id: Id, backup: string, created: Id, insp: Container, imageId: string,
                         target: string)
    requires id in w0 && insp == w0[id]
    ensures var repl := Replacement(insp, imageId, target);
            var w := MovedAside(w0, id, backup)[created := repl.(running := false)];
            w[created := w[created].(running := true)] == Swapped(w0, id, backup, false, created, repl)
  {
  }

  lemma TakenOver(w0: World, id: Id, backup: string, removed: bool, created: Id, imageId: string, target: string)
    requires id in w0 && created !in w0
    ensures NoOutage(w0, Swapped(w0, id, backup, removed, created, Replacement(w0[id], imageId, target)), id, target)
  {
    var w := Swapped(w0, id, backup, removed, created, Replacement(w0[id], imageId, target));
    ReplacementTakesOver(w0[id], imageId, target);
    assert w[created] == Replacement(w0[id], imageId, target);
  }

  /** The replacement could not be started: drop it, then restore. */
  method GiveUp(d: Daemon, ghost w0: World, id: Id, insp: Container, target: string, backup: string, created: Id)
    returns (ok: bool)
    requires d.Valid() && id in w0 && insp == w0[id] && UniqueNames(w0) && NameFree(w0, backup)
    requires created in d.world && created !in w0
    requires d.world == MovedAside(w0, id, backup)[created := d.world[created]]
    modifies d
    ensures !ok && d.Valid() && d.calls > old(d.calls)
    ensures old(d.history) <= d.history && old(d.trace) <= d.trace
    ensures RecoveryReached(d, old(d.calls)) ==> d.world == w0
    ensures OriginalKept(w0, d.world, id) && OthersKept(w0, d.world, id)
    ensures NeverOut(d, old(d.calls), w0, id, target)
  {
    var _ := d.ContainerRemove(created, true);
    assert d.Lands(old(d.calls), true) ==> d.world == MovedAside(w0, id, backup);
    StillThere(w0, d.world, id, target);
    NameIsFreed(w0, id, backup);
    Restore(d, w0, id, insp.name, true, insp.running, target);
    ok := false;
  }

  /** The stop and step 1 of recreateDirect. */
  method MoveAside(d: Daemon, id: Id, insp: Container, ghost target: string, backup: string) returns (ok: bool)
    requires d.Valid() && UniqueNames(d.world) && id in d.world && insp == d.world[id] && Unit(insp) == ""
    modifies d
    ensures d.Valid() && d.calls > old(d.calls) && old(d.history) <= d.history && old(d.trace) <= d.trace
    ensures var steps := if insp.running then 2 else 1;
            && (ok <==> NameFree(old(d.world), backup) && forall k :: old(d.calls) <= k < old(d.calls) + steps ==>
                  !d.Lost(k, false))
            && (ok ==> d.calls == old(d.calls) + steps && d.world == MovedAside(old(d.world), id, backup))
    ensures !ok ==> OriginalKept(old(d.world), d.world, id) && OthersKept(old(d.world), d.world, id)
    ensures var half := LeftAside(d, old(d.calls), insp.running, NameFree(old(d.world), backup));
            && (!ok && RecoveryReached(d, old(d.calls)) && !half ==> d.world == old(d.world))
            && (half ==> !ok && d.world != old(d.world))
    ensures insp.running && d.HalfDone(old(d.calls)) ==> d.world == old(d.world)[id := insp.(running := false)]
    ensures NeverOut(d, old(d.calls), old(d.world), id, target)
  {
    ghost var w0 := d.world;
    if insp.running {
      var stopped := StopFirst(d, id, target);
      if !stopped {
        return false;
      }
    }
    ok := RenameAside(d, w0, id, insp, target, backup);
  }

  method StopFirst(d: Daemon, id: Id, ghost target: string) returns (ok: bool)
    requires d.Valid() && id in d.world && Unit(d.world[id]) == ""
    modifies d
    ensures OneCall(d, false, old(d.world), id, target) && ok == !d.Lost(old(d.calls), false)
    ensures d.world == if d.Lands(old(d.calls), false) then old(d.world)[id := old(d.world)[id].(running := false)]
                       else old(d.world)
  {
    ghost var w0 := d.world;
    var stopped := d.ContainerStop(id);
    StillThere(w0, d.world, id, target);
    ok := stopped == Stopped;
  }

  /** Step 1, with the original already stopped if it was running. */
  method RenameAside(d: Daemon, ghost w0: World, id: Id, insp: Container, ghost target: string, backup: string)
    returns (ok: bool)
    requires d.Valid() && id in w0 && insp == w0[id] && UniqueNames(w0)
    requires d.world == w0[id := insp.(running := false)]
    modifies d
    ensures d.Valid() && d.calls > old(d.calls) && old(d.history) <= d.history && old(d.trace) <= d.trace
    ensures ok <==> NameFree(w0, backup) && !d.Lost(old(d.calls), false)
    ensures ok ==> d.calls == old(d.calls) + 1 && d.world == MovedAside(w0, id, backup)
    ensures !ok ==> OriginalKept(w0, d.world, id) && OthersKept(w0, d.world, id)
    ensures var half := d.HalfDone(old(d.calls)) && NameFree(w0, backup);
            && (!ok && RecoveryReached(d, old(d.calls)) && !half ==> d.world == w0)
            && (half ==> !ok && d.world != w0)
    ensures NeverOut(d, old(d.calls), w0, id, target)
  {
    ok := TryRename(d, w0, id, target, backup);
    ghost var w := d.world;
    if !ok {
      Restore(d, w0, id, insp.name, false, insp.running, target);
    }
    StoppedOrAside(w0, w, id, backup);
  }

  method TryRename(d: Daemon, ghost w0: World, id: Id, ghost target: string, backup: string) returns (ok: bool)
    requires d.Valid() && id in w0 && UniqueNames(w0) && d.world == w0[id := w0[id].(running := false)]
    modifies d
    ensures OneCall(d, false, w0, id, target)
    ensures ok <==> NameFree(w0, backup) && !d.Lost(old(d.calls), false)
    ensures d.world == if NameFree(w0, backup) && d.Lands(old(d.calls), false) then MovedAside(w0, id, backup)
                       else w0[id := w0[id].(running := false)]
  {
    ok := d.ContainerRename(id, backup, false);
    StoppedOrAside(w0, d.world, id, backup);
    StillThere(w0, d.world, id, target);
  }

  /** After the rename, taken effect or not. */
  lemma StoppedOrAside(w0: World, w: World, id: Id, backup: string)
    requires id in w0
    ensures w == w0[id := w0[id].(running := false)] ==> Restorable(w0, w, id, w0[id].name, false, w0[id].running)
    ensures NameFree(w0, backup) ==> MovedAside(w0, id, backup)[id].name == backup != w0[id].name
    ensures w0[id := w0[id].(running := false)][id := w0[id].(running := false, name := backup)] ==
      MovedAside(w0, id, backup)
  {
  }

  /** recreateDirect. insp is what the inspection returned; backup is the name the clock suggests. */
  method RecreateDirect(d: Daemon, id: Id, insp: Container, target: string, backup: string) returns (ok: bool)
    requires d.Valid() && UniqueNames(d.world) && id in d.world && insp == d.world[id] && Unit(insp) == ""
    modifies d
    ensures d.Valid() && d.calls > old(d.calls) && old(d.history) <= d.history && old(d.trace) <= d.trace
    // A failure leaves nothing behind, provided that the recovery calls take effect and that no stop, rename
    // or create takes effect while reporting an error; if one does, something always stays behind.
    ensures var half := BreaksOff(d, old(d.calls), insp.running, NameFree(old(d.world), backup));
            && (!ok ==> Failed(old(d.world), d.world, id, RecoveryReached(d, old(d.calls)) && !half))
            && (half ==> !ok && d.world != old(d.world))
    // Such a stop, for one, leaves the original stopped.
    ensures insp.running && d.HalfDone(old(d.calls)) ==> d.world == old(d.world)[id := insp.(running := false)]
    // Whatever fails and whenever the caller gives up, there is never a moment without the workload.
    ensures NeverOut(d, old(d.calls), old(d.world), id, target)
    // It succeeds exactly when the backup name is free and every forward call gets through ...
    ensures var forward := if insp.running then 4 else 3;
            ok <==> NameFree(old(d.world), backup) &&
                    forall k :: old(d.calls) <= k < old(d.calls) + forward ==> !d.Lost(k, false)
    // ... and then a running replacement has the name, the original being gone or under the backup name.
    ensures ok ==> IsReplaced(d, old(d.world), id, target, backup)
  {
    ok := MoveAside(d, id, insp, target, backup);
    if ok {
      ok := SwapIn(d, old(d.world), id, insp, target, backup);
    }
  }

  // ---------------------------------------------------------------- many attempts

  /** What a failed attempt leaves: the very same host if it could be rolled back (its recovery calls took
      effect and no other call did so halfway), and in any case the original and every other container. */
  ghost predicate Failed(w0: World, w: World, id: Id, rolledBack: bool)
    requires id in w0
  {
    (rolledBack ==> w == w0) && OriginalKept(w0, w, id) && OthersKept(w0, w, id)
  }

  predicate AllRolledBack(rolledBack: seq<bool>)
  {
    forall i :: 0 <= i < |rolledBack| ==> rolledBack[i]
  }

  /** However many attempts fail, and whatever is lost on the way, the original keeps its image and
      configuration and no other container is touched; if all could be rolled back, nothing changed at all. */
  lemma {:induction false} AnyNumberOfFailures(ws: seq<World>, rolledBack: seq<bool>, id: Id)
    requires |ws| == |rolledBack| + 1 && forall w :: w in ws ==> id in w
    requires forall i :: 0 <= i < |rolledBack| ==> Failed(ws[i], ws[i + 1], id, rolledBack[i])
    ensures Failed(ws[0], ws[|rolledBack|], id, AllRolledBack(rolledBack))
  {
    var n := |rolledBack|;
    if n > 0 {
      AnyNumberOfFailures(ws[..n], rolledBack[..n - 1], id);
      var first, last := ws[n - 1], ws[n];
      assert Failed(first, last, id, rolledBack[n - 1]);
    }
  }
}
