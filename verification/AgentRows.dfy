/** One agent's place in a self-update run, and what planning and polling make of it
    (internal/server/selfupdate_run.go:21-69, 178-216, 293-327). */
module AgentRows {
  import opened Wrappers
  import Checker

  type ServerId = nat

  type CommandId = nat

  datatype Status = Queued | Updated | Failed | Skipped

  /** A command's state: pending, or the first reply it got. */
  datatype Answer = Pending | Done | Refused

  /** A row of the servers table as this protocol sees it. */
  datatype Host = Host(id: ServerId, isAgent: bool, online: bool, image: string, digest: string)

  /** digest is the one the agent last reported before planning. */
  datatype Row = Row(server: ServerId, target: string, status: Status, command: Option<CommandId>, digest: string)

  /** What is being rolled out. */
  datatype Release = Release(kind: Checker.Kind, target: string)

  /** command is None when it could not be queued. */
  function Planned(h: Host, release: Release, command: Option<CommandId>): Row
  {
    if !h.online then Row(h.id, "", Skipped, None, h.digest)
    else
      var target := Checker.AgentTarget(h.image, release.kind, release.target);
      Row(h.id, target, if command.Some? then Queued else Failed, command, h.digest)
  }

  /** digest is None when the server is not in the list; the command is looked at only then, or when the
      digest says nothing. */
  function Judged(row: Row, digest: Option<string>, answer: Option<Answer>): Status
  {
    if row.status != Queued then row.status
    else if Returned(row, digest) then Updated
    else if answer == Some(Done) then Updated
    else if answer == Some(Refused) then Failed
    else Queued
  }

  /** A queued row is updated exactly when the agent is listed with a digest that is neither blank nor the one
      it had, or its command was answered done; failed exactly when it was refused and no such digest is
      there; every other row stays as it is. */
  lemma JudgedIff(row: Row, digest: Option<string>, answer: Option<Answer>)
    ensures var judged, back := Judged(row, digest, answer), digest.Some? && digest.value !in {"", row.digest};
            && (row.status != Queued ==> judged == row.status)
            && (row.status == Queued ==>
                  && (judged == Updated <==> back || answer == Some(Done))
                  && (judged == Failed <==> !back && answer == Some(Refused))
                  && judged != Skipped)
  {
  }

  predicate Returned(row: Row, digest: Option<string>)
  {
    digest.Some? && digest.value != "" && digest.value != row.digest
  }

  predicate UniqueServers(rows: seq<Row>)
  {
    forall i, j :: 0 <= i < j < |rows| ==> rows[i].server != rows[j].server
  }

  function CountOf(rows: seq<Row>, status: Status): nat
  {
    if rows == [] then 0
    else CountOf(rows[..|rows| - 1], status) + if rows[|rows| - 1].status == status then 1 else 0
  }

  lemma {:induction false} CountsAddUp(rows: seq<Row>)
    ensures CountOf(rows, Queued) + CountOf(rows, Updated) + CountOf(rows, Failed) + CountOf(rows, Skipped) == |rows|
  {
    if rows != [] { CountsAddUp(rows[..|rows| - 1]); }
  }

  lemma {:induction false} CountIsZeroIff(rows: seq<Row>, status: Status)
    ensures CountOf(rows, status) == 0 <==> forall i :: 0 <= i < |rows| ==> rows[i].status != status
  {
    if rows != [] {
      CountIsZeroIff(rows[..|rows| - 1], status);
    }
  }

  /** The first row of that server changes. */
  function WithStatus(rows: seq<Row>, server: ServerId, status: Status): seq<Row>
  {
    if rows == [] then []
    else if rows[0].server == server then [rows[0].(status := status)] + rows[1..]
    else [rows[0]] + WithStatus(rows[1..], server, status)
  }

  lemma {:induction false} WithStatusAt(rows: seq<Row>, i: nat, status: Status)
    requires i < |rows| && forall j :: 0 <= j < i ==> rows[j].server != rows[i].server
    ensures WithStatus(rows, rows[i].server, status) == rows[i := rows[i].(status := status)]
  {
    if i > 0 { WithStatusAt(rows[1..], i - 1, status); }
  }

  lemma {:induction false} WithStatusNone(rows: seq<Row>, server: ServerId, status: Status)
    requires forall j :: 0 <= j < |rows| ==> rows[j].server != server
    ensures WithStatus(rows, server, status) == rows
  {
    if rows != [] { WithStatusNone(rows[1..], server, status); }
  }

  /** A row only ever moves from queued to updated or failed. */
  ghost predicate Moves(before: seq<Row>, after: seq<Row>)
  {
    |before| == |after| && forall i :: 0 <= i < |before| ==> MovesTo(before[i], after[i])
  }

  predicate MovesTo(a: Row, b: Row)
  {
    && b == a.(status := b.status)
    && (a.status == b.status || (a.status == Queued && (b.status == Updated || b.status == Failed)))
  }

  predicate NoneQueued(rows: seq<Row>)
  {
    forall i :: 0 <= i < |rows| ==> rows[i].status != Queued
  }

  predicate NoneFailed(rows: seq<Row>) { forall i :: 0 <= i < |rows| ==> rows[i].status != Failed }

  function DigestIn(view: map<ServerId, string>, server: ServerId): Option<string>
  {
    if server in view then Some(view[server]) else None
  }

  /** The deadline: every row still queued fails. */
  function TimedOut(rows: seq<Row>): (r: seq<Row>)
    ensures |r| == |rows| && forall i :: 0 <= i < |rows| ==>
      r[i] == if rows[i].status == Queued then rows[i].(status := Failed) else rows[i]
  {
    seq(|rows|, i requires 0 <= i < |rows| => if rows[i].status == Queued then rows[i].(status := Failed) else rows[i])
  }

  type Digests = set<(ServerId, string)>

  type Answers = set<(CommandId, Answer)>

  /** A digest was read for the server that is neither blank nor the planned one, or its own command was
      read as done. */
  ghost predicate Evidence(row: Row, digests: Digests, answers: Answers)
  {
    (exists d :: (row.server, d) in digests && Returned(row, Some(d))) || (row.command.Some? &&
        (row.command.value, Done) in answers)
  }

  ghost predicate Refusal(row: Row, answers: Answers) { row.command.Some? && (row.command.value, Refused) in answers }
}
