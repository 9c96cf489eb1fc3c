/** Deciding whether a systemd unit brought its container back (internal/dockerx/respawn.go). */
module Respawn {
  import opened Wrappers

  datatype Ref = Ref(id: nat, state: string)

  datatype State = Gone | OldStillThere | NotRunning | Running

  function Classify(found: Option<Ref>, oldId: nat): State
  {
    if found.None? then Gone
    else if found.value.id == oldId then OldStillThere
    else if found.value.state == "running" then Running
    else NotRunning
  }

  datatype Verdict = Waiting | GaveUp | Back(id: nat)

  /** Success needs a container that is both new and running, at whatever time; giving up needs the
      deadline. A crash-looping or lingering container is never a success. */
  function Decide(found: Option<Ref>, oldId: nat, deadlineReached: bool): (v: Verdict)
    ensures v.Back? <==> found.Some? && found.value.id != oldId && found.value.state == "running"
    ensures v.Back? ==> v.id == found.value.id
    ensures v == Waiting ==> !deadlineReached
    ensures v == GaveUp ==> deadlineReached
  {
    if Classify(found, oldId) == Running then Back(found.value.id)
    else if !deadlineReached then Waiting
    else GaveUp
  }

  function TrimSlash(name: string): string
  {
    if name != "" && name[0] == '/' then name[1..] else name
  }

  /** The daemon's name filter matches more than asked for, so names are confirmed exactly. */
  predicate ExactNameMatch(names: seq<string>, name: string)
  {
    exists n :: n in names && TrimSlash(n) == name
  }
}
