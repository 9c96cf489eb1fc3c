/** The command queue as the controller's handlers and the agents drive it (internal/store/extra.go:95-189,
    internal/server/agent_handlers.go:96-157, internal/agent/agent.go:103-185): the code behind the
    Deliver, Fetch, Execute and Remove steps of the protocol. Any store call may fail. */
module CommandQueue {
  import opened AgentRows
  import opened Wrappers
  import opened Protocol
  import Dispatch

  datatype Response = Stored | NotFound | StoreError

  class Queue {
    var commands: map<CommandId, Command>
    var created: map<CommandId, int>

    ghost predicate Valid()
      reads this
    {
      commands.Keys <= created.Keys
    }

    constructor ()
      ensures Valid() && commands == map[]
    {
      commands, created := map[], map[];
    }

    method CreateCommand(c: Command, now: int) returns (id: Option<CommandId>)
      requires Valid() && c.answer == Pending
      modifies this
      ensures Valid()
      ensures id.None? ==> commands == old(commands)
      ensures id.Some? ==>
        id.value !in old(created) && commands == old(commands)[id.value := c] &&
        created == old(created)[id.value := now]
    {
      if * { return None; }
      var above := NotBelow(created.Keys);
      assert above !in created;
      var unused :| unused !in created;
      commands, created := commands[unused := c], created[unused := now];
      return Some(unused);
    }

    /** The server's unanswered commands, oldest first, each once. */
    method ListPendingCommands(server: ServerId) returns (ok: bool, ids: seq<CommandId>)
      requires Valid()
      ensures ok ==> forall c :: c in ids <==> IsPending(commands, server, c)
      ensures forall i, j :: 0 <= i < j < |ids| ==> ids[i] != ids[j]
      ensures forall i, j :: 0 <= i < j < |ids| && ids[i] in created && ids[j] in created ==>
        created[ids[i]] <= created[ids[j]]
    {
      ids := [];
      if * { return false, ids; }
      var todo := set c | c in commands && IsPending(commands, server, c);
      while todo != {}
        invariant todo <= commands.Keys
        invariant forall c :: c in todo ==> IsPending(commands, server, c) && c !in ids
        invariant forall c :: c in ids ==> IsPending(commands, server, c)
        invariant forall c :: IsPending(commands, server, c) ==> c in todo || c in ids
        invariant forall i, j :: 0 <= i < j < |ids| ==> ids[i] != ids[j]
        invariant forall i, j :: 0 <= i < j < |ids| ==> created[ids[i]] <= created[ids[j]]
        invariant forall i, c :: 0 <= i < |ids| && c in todo ==> created[ids[i]] <= created[c]
        decreases todo
      {
        ghost var first := Oldest(todo, created);
        var next :| next in todo && forall c :: c in todo ==> created[next] <= created[c];
        todo := todo - {next};
        ids := ids + [next];
      }
      return true, ids;
    }

    /** UPDATE ... WHERE id: by itself this would overwrite an earlier reply. */
    method UpdateCommandResult(id: CommandId, answer: Answer) returns (ok: bool)
      requires Valid()
      modifies this`commands
      ensures Valid()
      ensures commands == if ok && id in old(commands)
          then old(commands)[id := old(commands)[id].(answer := answer)] else old(commands)
    {
      if * { return false; }
      if id in commands { commands := commands[id := commands[id].(answer := answer)]; }
      ok := true;
    }

    /** handleAgentCommandResult: a status that is neither "done" nor "failed" is recorded as failed, and
        only the sender's own unanswered command is touched. */
    method HandleResult(sender: ServerId, id: CommandId, status: string) returns (r: Response)
      requires Valid()
      modifies this`commands
      ensures Valid()
      ensures var m := Message(sender, id, if status == "done" then Done else Refused);
              && (r != StoreError ==> commands == Answered(old(commands), m))
              && (r == StoreError ==> commands == old(commands))
              && (r == Stored ==> Accepts(old(commands), m)) && (r == NotFound ==> !Accepts(old(commands), m))
      ensures commands.Keys == old(commands).Keys
      ensures forall c :: c in commands && commands[c] != old(commands)[c] ==>
        && r == Stored && c == id && old(commands)[c].server == sender && old(commands)[c].answer == Pending
        && commands[c] == old(commands)[c].(answer := if status == "done" then Done else Refused)
      ensures r == Stored ==> id in commands && commands[id].answer != Pending
    {
      var normal := if status != "done" && status != "failed" then "failed" else status;
      var ok, ids := ListPendingCommands(sender);
      if !ok { return StoreError; }
      var owned := false;
      for i := 0 to |ids|
        invariant owned <==> id in ids[..i]
        modifies {}
      {
        if ids[i] == id {
          owned := true;
          assert id in ids[..i + 1];
          assert id in ids;
          break;
        }
      }
      assert owned <==> id in ids by { assert ids[..|ids|] == ids; }
      if !owned { return NotFound; }
      var did := UpdateCommandResult(id, if normal == "done" then Done else Refused);
      return if did then Stored else StoreError;
    }

    method DeleteServer(server: ServerId) returns (ok: bool)
      requires Valid()
      modifies this`commands
      ensures Valid()
      ensures commands == if ok then WithoutServer(old(commands), server) else old(commands)
      ensures ok ==> forall c :: c in commands <==> c in old(commands) && old(commands)[c].server != server
      ensures forall c :: c in commands ==> c in old(commands) && commands[c] == old(commands)[c]
    {
      if * { return false; }
      commands, ok := WithoutServer(commands, server), true;
    }
  }

  lemma {:induction false} Oldest(ids: set<CommandId>, created: map<CommandId, int>) returns (c: CommandId)
    requires ids != {} && ids <= created.Keys
    ensures c in ids && forall d :: d in ids ==> created[c] <= created[d]
  {
    var x :| x in ids;
    if ids == {x} { return x; }
    var y := Oldest(ids - {x}, created);
    c := if created[x] <= created[y] then x else y;
    assert forall d :: d in ids ==> d == x || d in ids - {x};
  }

  /** What the agent's own surroundings decide. */
  datatype Attempt = Attempt(selfKnown: bool, launch: Dispatch.Launch, recreated: bool, delivered: bool)

  /** It worked: the helper was started, the image was already current, or the container was recreated. */
  predicate Worked(c: Command, a: Attempt)
  {
    if c.selfUpdate then a.selfKnown && !a.launch.Failed? else a.recreated
  }

  class Agent {
    const server: ServerId
    var posts: seq<Message>

    constructor (server: ServerId)
      ensures this.server == server && posts == []
    {
      this.server, posts := server, [];
    }

    /** An image that is already current counts as done. */
    method SelfUpdate(target: string, a: Attempt) returns (answer: Answer)
      ensures answer == Reply(Command(server, true, target, Pending), a.selfKnown && !a.launch.Failed?)
      ensures answer == Done <==> target != "" && a.selfKnown && (a.launch.Launched? || a.launch.AlreadyCurrent?)
      ensures answer != Pending
    {
      if target == "" { return Refused; }
      if !a.selfKnown { return Refused; }
      match a.launch {
        case AlreadyCurrent => return Done;
        case Failed => return Refused;
        case Launched => return Done;
      }
    }

    method Execute(id: CommandId, c: Command, a: Attempt) returns (ok: bool)
      modifies this`posts
      ensures posts == old(posts) + [Message(server, id, Reply(c, Worked(c, a)))]
      ensures var done := if c.selfUpdate then c.target != "" && a.selfKnown && a.launch != Dispatch.Failed
                          else a.recreated;
              posts[|old(posts)|].answer == if done then Done else Refused
      ensures ok <==> a.delivered
    {
      var answer;
      if c.selfUpdate {
        answer := SelfUpdate(c.target, a);
      } else {
        answer := if a.recreated then Done else Refused;
      }
      posts := posts + [Message(server, id, answer)];
      ok := a.delivered;
    }

    /** Every fetched command is carried out once, in order; a reply that does not get through does not
        hold up the rest. */
    method PollCommands(ids: seq<CommandId>, cmds: seq<Command>, attempts: seq<Attempt>)
      requires |ids| == |cmds| == |attempts|
      modifies this`posts
      ensures |posts| == |old(posts)| + |ids| && old(posts) <= posts
      ensures forall i :: 0 <= i < |ids| ==>
        posts[|old(posts)| + i] == Message(server, ids[i], Reply(cmds[i], Worked(cmds[i], attempts[i])))
    {
      for i := 0 to |ids|
        invariant |posts| == |old(posts)| + i && old(posts) <= posts
        invariant forall j :: 0 <= j < i ==>
          posts[|old(posts)| + j] == Message(server, ids[j], Reply(cmds[j], Worked(cmds[j], attempts[j])))
      {
        var _ := Execute(ids[i], cmds[i], attempts[i]);
      }
    }
  }
}
