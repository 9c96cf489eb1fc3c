/** The two loops of ReplaceServerSnapshot that merge a report into the stack and container tables
    (internal/store/entities.go:563-686). Unless the store is reliable, every statement may fail, and a failure
    abandons the merge. */
module Merge {
  import opened Tables
  import opened Wrappers

  // ---------------------------------------------------------------- stacks

  /** The table after a prefix of the report: rows not yet reported are untouched, none is gone. */
  ghost predicate StacksSoFar(t: Stacks, cur: Stacks, server: Id, rs: seq<StackReport>)
  {
    && OtherStacksKept(t, cur, server) && UniqueStacks(cur)
    && (forall i :: i in t ==> i in cur && cur[i].server == t[i].server && cur[i].name == t[i].name)
    && (forall i :: i in cur && cur[i].server == server ==> StackSoFar(t, server, rs, i, cur[i]))
  }

  ghost predicate StackSoFar(t: Stacks, server: Id, rs: seq<StackReport>, id: Id, row: Stack)
  {
    match LastStack(rs, row.name)
    case Some(r) => StackRow(t, server, r, id, row)
    case None => id in t && row == t[id]
  }

  /** The reported stacks and the ids they were given. */
  ghost predicate StackIds(cur: Stacks, server: Id, rs: seq<StackReport>, ids: seq<Id>)
  {
    |ids| == |rs| && forall k :: 0 <= k < |ids| ==>
      ids[k] in cur && cur[ids[k]].server == server && cur[ids[k]].name == rs[k].name
  }

  ghost predicate KnownRows(t: Stacks, server: Id, known: map<string, Id>)
  {
    forall n :: n in known ==> known[n] in t && t[known[n]] == Stack(server, n, t[known[n]].kind)
  }

  lemma UpsertKeepsUnique(cur: Stacks, id: Id, server: Id, name: string, kind: string)
    requires UniqueStacks(cur) && !StackClash(cur, id, server, name)
    ensures UniqueStacks(UpsertStack(cur, id, server, name, kind))
  {
  }

  lemma LastStackNext(rs: seq<StackReport>, r: StackReport, name: string)
    ensures LastStack(rs + [r], name) == if r.name == name then Some(r) else LastStack(rs, name)
  {
    assert (rs + [r])[..|rs|] == rs;
  }

  lemma StackStep(t: Stacks, cur: Stacks, server: Id, rs: seq<StackReport>, r: StackReport, id: Id)
    requires StacksSoFar(t, cur, server, rs) && !StackClash(cur, id, server, r.name)
    requires if id in t then t[id].server == server && t[id].name == r.name else id != BLANK && id !in cur
    ensures StacksSoFar(t, UpsertStack(cur, id, server, r.name, r.kind), server, rs + [r])
  {
    var next := UpsertStack(cur, id, server, r.name, r.kind);
    UpsertKeepsUnique(cur, id, server, r.name, r.kind);
    UpsertKeepsOthers(t, cur, id, server, r.name, r.kind);
    forall i | i in next && next[i].server == server ensures StackSoFar(t, server, rs + [r], i, next[i]) {
      LastStackNext(rs, r, next[i].name);
      if i == id {
        if id !in t { NameIsNew(t, cur, server, r.name, id); }
      } else {
        assert StackSoFar(t, server, rs, i, cur[i]);
      }
    }
  }

  lemma UpsertKeepsOthers(t: Stacks, cur: Stacks, id: Id, server: Id, name: string, kind: string)
    requires OtherStacksKept(t, cur, server)
    requires (if id in t then t[id].server == server && t[id].name == name else id !in cur)
    requires forall i :: i in t ==> i in cur && cur[i].server == t[i].server && cur[i].name == t[i].name
    ensures var next := UpsertStack(cur, id, server, name, kind);
            && OtherStacksKept(t, next, server)
            && forall i :: i in t ==> i in next && next[i].server == t[i].server && next[i].name == t[i].name
  {
  }

  lemma NameIsNew(t: Stacks, cur: Stacks, server: Id, name: string, id: Id)
    requires id !in cur && !StackClash(cur, id, server, name)
    requires forall i :: i in t ==> i in cur && cur[i].server == t[i].server && cur[i].name == t[i].name
    ensures forall k :: k in t && t[k].server == server ==> t[k].name != name
  {
  }

  lemma StackIdsStep(t: Stacks, cur: Stacks, server: Id, rs: seq<StackReport>, r: StackReport, ids: seq<Id>, id: Id)
    requires StacksSoFar(t, cur, server, rs) && StackIds(cur, server, rs, ids)
    requires if id in t then t[id].server == server && t[id].name == r.name else id !in cur
    ensures StackIds(UpsertStack(cur, id, server, r.name, r.kind), server, rs + [r], ids + [id])
  {
  }

  lemma StacksProgress(t: Stacks, cur: Stacks, server: Id, known: map<string, Id>, rs: seq<StackReport>,
                       r: StackReport, ids: seq<Id>, id: Id)
    requires StacksSoFar(t, cur, server, rs) && StackIds(cur, server, rs, ids) && !StackClash(cur, id, server, r.name)
    requires KnownRows(t, server, known) && if r.name in known then id == known[r.name] else id != BLANK && id !in cur
    ensures StacksSoFar(t, UpsertStack(cur, id, server, r.name, r.kind), server, rs + [r])
    ensures StackIds(UpsertStack(cur, id, server, r.name, r.kind), server, rs + [r], ids + [id])
  {
    StackStep(t, cur, server, rs, r, id);
    StackIdsStep(t, cur, server, rs, r, ids, id);
  }

  /** The rows of one server by name. complete is false when the iteration ended early, which the code
      does not notice. */
  method KnownStacks(t: Stacks, server: Id, reliable: bool) returns (ok: bool, complete: bool, known: map<string, Id>)
    requires UniqueStacks(t)
    ensures reliable ==> ok && complete
    ensures KnownRows(t, server, known)
    ensures ok && complete ==> forall i :: i in t && t[i].server == server ==> t[i].name in known
  {
    known := map[];
    var todo := t.Keys;
    while todo != {}
      invariant todo <= t.Keys
      invariant KnownRows(t, server, known)
      invariant forall i :: i in t && i !in todo && t[i].server == server ==> t[i].name in known
    {
      if !reliable {
        if * { return false, false, known; }
        if * { return true, false, known; }
      }
      var i :| i in todo;
      todo := todo - {i};
      if t[i].server == server { known := known[t[i].name := i]; }
    }
    return true, true, known;
  }

  /** One reported stack: the id it carries, else the known one for its name, else a new one. */
  method UpsertReportedStack(cur: Stacks, server: Id, known: map<string, Id>, r: StackReport, reliable: bool)
    returns (out: Outcome, id: Id, next: Stacks)
    requires UniqueStacks(cur)
    ensures UniqueStacks(next)
    ensures BLANK !in cur && (forall n :: n in known ==> known[n] != BLANK) ==> BLANK !in next
    ensures r.id == BLANK ==> if r.name in known then id == known[r.name] else id != BLANK && id !in cur
    ensures r.id != BLANK ==> id == r.id
    ensures out == Committed ==>
      !StackClash(cur, id, server, r.name) && next == UpsertStack(cur, id, server, r.name, r.kind)
    ensures out == Clashed ==> StackClash(cur, id, server, r.name)
    ensures reliable ==> out != Lost
  {
    next, id := cur, r.id;
    if id == BLANK {
      if r.name in known {
        id := known[r.name];
      } else {
        var above := NotBelow(cur.Keys);
        assert above !in cur;
        id :| id != BLANK && id !in cur;
      }
    }
    if !reliable {
      if * { return Lost, id, next; }
    }
    if StackClash(cur, id, server, r.name) { return Clashed, id, next; }
    UpsertKeepsUnique(cur, id, server, r.name, r.kind);
    return Committed, id, UpsertStack(cur, id, server, r.name, r.kind);
  }

  /** The last report that carries this id. */
  function LastStackClaim(rs: seq<StackReport>, id: Id): Option<StackReport>
  {
    if rs == [] then None
    else if rs[|rs| - 1].id == id then Some(rs[|rs| - 1])
    else LastStackClaim(rs[..|rs| - 1], id)
  }

  function ClaimedStack(row: Stack, claim: Option<StackReport>): Stack
  {
    if claim.None? then row else row.(name := claim.value.name, kind := claim.value.kind)
  }

  /** Rows of other servers read as the last report that carries their id says. */
  ghost predicate OtherStacksClaimed(t: Stacks, cur: Stacks, server: Id, rs: seq<StackReport>)
  {
    && (forall g :: g in t && t[g].server != server ==> g in cur && cur[g] == ClaimedStack(t[g], LastStackClaim(rs, g)))
    && (forall i :: i in cur && cur[i].server != server ==> i in t)
    && (forall i :: i in t ==> i in cur && cur[i].server == t[i].server)
  }

  /** No report carries the id of another server's stack, or the last one to do so says the same. */
  ghost predicate NoStackClaims(t: Stacks, server: Id, rs: seq<StackReport>)
  {
    forall g :: g in t && t[g].server != server ==> ClaimedStack(t[g], LastStackClaim(rs, g)) == t[g]
  }

  lemma StackClaimsStep(t: Stacks, cur: Stacks, server: Id, known: map<string, Id>, rs: seq<StackReport>,
                        r: StackReport, id: Id)
    requires OtherStacksClaimed(t, cur, server, rs) && KnownRows(t, server, known) && BLANK !in t
    requires r.id == BLANK ==> if r.name in known then id == known[r.name] else id !in cur
    requires r.id != BLANK ==> id == r.id
    ensures OtherStacksClaimed(t, UpsertStack(cur, id, server, r.name, r.kind), server, rs + [r])
  {
    assert (rs + [r])[..|rs|] == rs;
  }

  lemma StackClaimsDecide(t: Stacks, cur: Stacks, t': Stacks, server: Id, known: map<string, Id>, rs: seq<StackReport>)
    requires OtherStacksClaimed(t, cur, server, rs) && KnownRows(t, server, known)
    requires t'.Keys <= cur.Keys && forall i :: i in t' ==> t'[i] == cur[i]
    requires forall i :: i in cur && i !in known.Values ==> i in t'
    ensures OtherStacksKept(t, t', server) <==> NoStackClaims(t, server, rs)
  {
    forall g | g in t && t[g].server != server ensures g in t' && t'[g] == ClaimedStack(t[g], LastStackClaim(rs, g)) {
      assert g !in known.Values;
    }
  }

  /** What holds after the first k reports: about other servers' rows for any report, and about the
      server's own for one with blank ids. */
  ghost predicate StacksMidway(t: Stacks, cur: Stacks, server: Id, rs: seq<StackReport>, k: nat, ids: seq<Id>)
    requires k <= |rs|
  {
    && |ids| == k && OtherStacksClaimed(t, cur, server, rs[..k])
    && (BlankStacks(rs) ==> StacksSoFar(t, cur, server, rs[..k]) && StackIds(cur, server, rs[..k], ids))
    && (BlankStacks(rs) ==> !NewNameTwice(t, server, rs[..k]))
  }

  lemma StacksMidwayStep(t: Stacks, cur: Stacks, server: Id, known: map<string, Id>, rs: seq<StackReport>, k: nat,
                         ids: seq<Id>, id: Id)
    requires k < |rs| && StacksMidway(t, cur, server, rs, k, ids) && KnownRows(t, server, known) && BLANK !in t
    requires rs[k].id == BLANK ==> if rs[k].name in known then id == known[rs[k].name] else id != BLANK && id !in cur
    requires rs[k].id != BLANK ==> id == rs[k].id
    requires !StackClash(cur, id, server, rs[k].name)
    ensures StacksMidway(t, UpsertStack(cur, id, server, rs[k].name, rs[k].kind), server, rs, k + 1, ids + [id])
  {
    assert rs[..k + 1] == rs[..k] + [rs[k]];
    StackClaimsStep(t, cur, server, known, rs[..k], rs[k], id);
    if BlankStacks(rs) {
      StacksProgress(t, cur, server, known, rs[..k], rs[k], ids, id);
      NoClashNotTwice(t, cur, server, known, rs[..k], rs[k], ids, id);
    }
  }

  /** ids records the id each reported stack was given; complete says that known misses no row. */
  method UpsertStacks(t: Stacks, server: Id, rs: seq<StackReport>, known: map<string, Id>, ghost complete: bool,
                      reliable: bool)
    returns (out: Outcome, cur: Stacks, ids: seq<Id>)
    requires UniqueStacks(t) && BLANK !in t && KnownRows(t, server, known)
    requires complete ==> forall i :: i in t && t[i].server == server ==> t[i].name in known
    ensures UniqueStacks(cur) && BLANK !in cur
    ensures out == Committed ==> StacksMidway(t, cur, server, rs, |rs|, ids) && AllGiven(t, known, rs, ids)
    ensures out == Clashed && BlankStacks(rs) && complete ==> NewNameTwice(t, server, rs)
    ensures (out == Clashed ==> rs != []) && (reliable ==> out != Lost)
  {
    cur, ids := t, [];
    for k := 0 to |rs|
      invariant UniqueStacks(cur) && BLANK !in cur && StacksMidway(t, cur, server, rs, k, ids)
      invariant AllGiven(t, known, rs, ids)
    {
      out, cur, ids := UpsertNextStack(t, cur, server, rs, k, ids, known, complete, reliable);
      if out != Committed { return; }
    }
    out := Committed;
  }

  method UpsertNextStack(t: Stacks, cur: Stacks, server: Id, rs: seq<StackReport>, k: nat, ids: seq<Id>,
                         known: map<string, Id>, ghost complete: bool, reliable: bool)
    returns (out: Outcome, next: Stacks, ids': seq<Id>)
    requires BLANK !in t && KnownRows(t, server, known) && UniqueStacks(cur) && BLANK !in cur
    requires complete ==> forall i :: i in t && t[i].server == server ==> t[i].name in known
    requires k < |rs| && StacksMidway(t, cur, server, rs, k, ids) && AllGiven(t, known, rs, ids)
    ensures UniqueStacks(next) && BLANK !in next && (reliable ==> out != Lost)
    ensures out == Committed ==> StacksMidway(t, next, server, rs, k + 1, ids') && AllGiven(t, known, rs, ids')
    ensures out == Clashed && BlankStacks(rs) && complete ==> NewNameTwice(t, server, rs)
  {
    var id;
    out, id, next := UpsertReportedStack(cur, server, known, rs[k], reliable);
    ids' := ids + [id];
    if out == Clashed && BlankStacks(rs) && complete { ClashMeansTwice(t, cur, server, known, rs, k, id); }
    if out == Committed { StacksMidwayStep(t, cur, server, known, rs, k, ids, id); }
    GivenStep(t, cur, server, known, rs, k, ids, id);
  }

  lemma GivenStep(t: Stacks, cur: Stacks, server: Id, known: map<string, Id>, rs: seq<StackReport>, k: nat,
                  ids: seq<Id>, id: Id)
    requires k < |rs| && StacksMidway(t, cur, server, rs, k, ids) && AllGiven(t, known, rs, ids)
    requires rs[k].id == BLANK ==> if rs[k].name in known then id == known[rs[k].name] else id != BLANK && id !in cur
    requires rs[k].id != BLANK ==> id == rs[k].id
    ensures AllGiven(t, known, rs, ids + [id])
  {
  }

  /** The ids written: the one reported, else the known one for the name, else a new one. */
  ghost predicate AllGiven(t: Stacks, known: map<string, Id>, rs: seq<StackReport>, ids: seq<Id>)
  {
    |ids| <= |rs| && forall k :: 0 <= k < |ids| ==> Given(t, known, rs[k], ids[k])
  }

  predicate Given(t: Stacks, known: map<string, Id>, r: StackReport, id: Id)
  {
    if r.id != BLANK then id == r.id
    else if r.name in known then id == known[r.name]
    else id != BLANK && id !in t
  }

  lemma NoClashNotTwice(t: Stacks, cur: Stacks, server: Id, known: map<string, Id>, rs: seq<StackReport>,
                        r: StackReport, ids: seq<Id>, id: Id)
    requires StackIds(cur, server, rs, ids) && KnownRows(t, server, known) && !NewNameTwice(t, server, rs)
    requires (r.name in known || id !in cur) && !StackClash(cur, id, server, r.name)
    ensures !NewNameTwice(t, server, rs + [r])
  {
    var all := rs + [r];
    if r.name !in known {
      forall j | 0 <= j < |rs| ensures rs[j].name != r.name { assert ids[j] in cur && cur[ids[j]].name == rs[j].name; }
    }
    forall j, k | 0 <= j < k < |all| && all[j].name == all[k].name ensures !IsNewName(t, server, all[k].name) {
      if k < |rs| { assert rs[j].name == rs[k].name; }
    }
  }

  lemma ClashMeansTwice(t: Stacks, cur: Stacks, server: Id, known: map<string, Id>, rs: seq<StackReport>, n: nat,
                        id: Id)
    requires n < |rs| && StacksSoFar(t, cur, server, rs[..n]) && KnownRows(t, server, known)
    requires forall i :: i in t && t[i].server == server ==> t[i].name in known
    requires if rs[n].name in known then id == known[rs[n].name] else id !in cur
    requires StackClash(cur, id, server, rs[n].name)
    ensures NewNameTwice(t, server, rs)
  {
    var name := rs[n].name;
    var k :| k in cur && k != id && cur[k].name == name && cur[k].server == server;
    assert name !in known;
    assert StackSoFar(t, server, rs[..n], k, cur[k]);
    var r := LastStack(rs[..n], name).value;
    var j :| 0 <= j < n && rs[..n][j] == r;
    assert IsNewName(t, server, rs[n].name) && rs[j].name == rs[n].name;
  }

  /** Deletes the known stacks that were not reported. */
  method DropStacks(t: Stacks, known: map<string, Id>, seen: seq<Id>, reliable: bool)
    returns (ok: bool, rest: Stacks)
    ensures reliable ==> ok
    ensures rest.Keys <= t.Keys && forall i :: i in rest ==> rest[i] == t[i]
    ensures forall i :: i in t && (i in seen || i !in known.Values) ==> i in rest
    ensures ok ==> forall i :: i in rest && i in known.Values ==> i in seen
  {
    rest := t;
    var todo := known.Keys;
    while todo != {}
      invariant todo <= known.Keys
      invariant rest.Keys <= t.Keys && forall i :: i in rest ==> rest[i] == t[i]
      invariant forall i :: i in t && (i in seen || i !in known.Values) ==> i in rest
      invariant forall n :: n in known && n !in todo && known[n] in rest ==> known[n] in seen
    {
      var n :| n in todo;
      todo := todo - {n};
      if known[n] !in seen {
        if !reliable {
          if * { return false, rest; }
        }
        rest := rest - {known[n]};
      }
    }
    return true, rest;
  }

  lemma StacksAreMerged(t: Stacks, cur: Stacks, t': Stacks, server: Id, rs: seq<StackReport>, ids: seq<Id>,
                        known: map<string, Id>)
    requires StacksSoFar(t, cur, server, rs) && StackIds(cur, server, rs, ids) && KnownRows(t, server, known)
    requires forall i :: i in t && t[i].server == server ==> t[i].name in known
    requires t'.Keys <= cur.Keys && forall i :: i in t' ==> t'[i] == cur[i]
    requires forall i :: i in cur && (i in ids || i !in known.Values) ==> i in t'
    requires forall i :: i in t' && i in known.Values ==> i in ids
    requires UniqueStacks(t)
    ensures StacksMerged(t, t', server, rs)
  {
    forall i | i in t' && t'[i].server == server
      ensures LastStack(rs, t'[i].name).Some? && StackRow(t, server, LastStack(rs, t'[i].name).value, i, t'[i])
    {
      if i in t { assert known[t[i].name] == i; }
      if i in known.Values {
        var k :| 0 <= k < |ids| && ids[k] == i;
        assert rs[k] in rs;
      }
      assert StackSoFar(t, server, rs, i, cur[i]);
    }
    forall r | r in rs ensures exists i :: i in t' && t'[i].server == server && t'[i].name == r.name {
      var k :| 0 <= k < |rs| && rs[k] == r;
      assert ids[k] in t';
    }
    forall i | i in t && t[i].server != server ensures i in t' { assert i !in known.Values; }
  }

  /** The id given to the last report of each non-blank name. */
  ghost predicate NamesLast(rs: seq<StackReport>, ids: seq<Id>, byName: map<string, Id>)
    requires |ids| >= |rs|
  {
    forall n ::
      (n in byName <==> n != "" && LastStack(rs, n).Some?) &&
      (n in byName ==> exists k :: 0 <= k < |rs| && Some(rs[k]) == LastStack(rs, n) && ids[k] == byName[n])
  }

  method NameIds(rs: seq<StackReport>, ids: seq<Id>) returns (byName: map<string, Id>)
    requires |ids| == |rs|
    ensures NamesLast(rs, ids, byName)
  {
    byName := map[];
    for k := 0 to |rs|
      invariant NamesLast(rs[..k], ids, byName)
    {
      assert rs[..k + 1] == rs[..k] + [rs[k]];
      NamesLastStep(rs[..k], ids, byName, rs[k]);
      if rs[k].name != "" { byName := byName[rs[k].name := ids[k]]; }
    }
    assert rs[..|rs|] == rs;
  }

  lemma NamesLastStep(rs: seq<StackReport>, ids: seq<Id>, byName: map<string, Id>, r: StackReport)
    requires |ids| > |rs| && NamesLast(rs, ids, byName)
    ensures NamesLast(rs + [r], ids, if r.name != "" then byName[r.name := ids[|rs|]] else byName)
  {
    var byName' := if r.name != "" then byName[r.name := ids[|rs|]] else byName;
    var all := rs + [r];
    forall n
      ensures n in byName' <==> n != "" && LastStack(all, n).Some?
      ensures n in byName' ==> exists k :: 0 <= k < |all| && Some(all[k]) == LastStack(all, n) && ids[k] == byName'[n]
    {
      LastStackNext(rs, r, n);
      if n in byName' {
        if n == r.name {
          assert all[|rs|] == r;
        } else {
          var k :| 0 <= k < |rs| && Some(rs[k]) == LastStack(rs, n) && ids[k] == byName[n];
          assert all[k] == rs[k];
        }
      }
    }
  }

  /** The stack that a name in the report stands for: that of the last report of the name, none if there
      is no such report; not to be foreseen if that report needs a new one. */
  ghost predicate Resolves(t: Stacks, server: Id, rs: seq<StackReport>, name: string, id: Id)
  {
    match LastStack(rs, name)
    case None => id == BLANK
    case Some(r) =>
      if name == "" then id == BLANK
      else if r.id != BLANK then id == r.id
      else if IsNewName(t, server, name) then id != BLANK && id !in t
      else id in t && t[id].server == server && t[id].name == name
  }

  lemma NamesResolve(t: Stacks, server: Id, known: map<string, Id>, rs: seq<StackReport>, ids: seq<Id>,
                     byName: map<string, Id>)
    requires |ids| == |rs| && AllGiven(t, known, rs, ids) && NamesLast(rs, ids, byName) && KnownRows(t, server, known)
    requires forall i :: i in t && t[i].server == server ==> t[i].name in known
    ensures forall n :: Resolves(t, server, rs, n, StackFor(byName, n))
  {
    forall n ensures Resolves(t, server, rs, n, StackFor(byName, n)) {
      if n in byName {
        var k :| 0 <= k < |rs| && Some(rs[k]) == LastStack(rs, n) && ids[k] == byName[n];
        assert Given(t, known, rs[k], ids[k]);
      }
    }
  }

  lemma NamesAreMerged(t: Stacks, t': Stacks, server: Id, rs: seq<StackReport>, ids: seq<Id>, byName: map<string, Id>)
    requires StacksMerged(t, t', server, rs) && StackIds(t', server, rs, ids) && NamesLast(rs, ids, byName)
    ensures Names(byName, t', server)
  {
    forall i | i in t' && t'[i].server == server && t'[i].name != "" ensures t'[i].name in byName {
      var r := LastStack(rs, t'[i].name).value;
      assert r in rs;
    }
  }

  lemma {:induction false} BlankClaimsNoStack(t: Stacks, server: Id, rs: seq<StackReport>)
    requires BlankStacks(rs) && BLANK !in t
    ensures NoStackClaims(t, server, rs)
  {
    forall g | g in t && t[g].server != server ensures LastStackClaim(rs, g) == None { NoStackClaim(rs, g); }
  }

  lemma {:induction false} NoStackClaim(rs: seq<StackReport>, id: Id)
    requires BlankStacks(rs) && id != BLANK
    ensures LastStackClaim(rs, id) == None
  {
    if rs != [] { NoStackClaim(rs[..|rs| - 1], id); }
  }

  /** The whole stack merge; byName holds the id given to each reported, non-blank name. */
  method MergeStacks(t: Stacks, server: Id, rs: seq<StackReport>, reliable: bool)
    returns (out: Outcome, complete: bool, t': Stacks, byName: map<string, Id>)
    requires UniqueStacks(t) && BLANK !in t
    ensures UniqueStacks(t') && BLANK !in t'
    ensures out == Committed ==> (OtherStacksKept(t, t', server) <==> NoStackClaims(t, server, rs))
    ensures out == Committed && complete && BlankStacks(rs) ==>
      StacksMerged(t, t', server, rs) && Names(byName, t', server)
    ensures out == Committed && complete ==> forall n :: Resolves(t, server, rs, n, StackFor(byName, n))
    ensures out != Lost && complete && BlankStacks(rs) ==> (out == Clashed <==> NewNameTwice(t, server, rs))
    ensures (out == Clashed ==> rs != []) && (reliable ==> out != Lost && complete)
  {
    byName, t', out := map[], t, Lost;
    var ok, known, cur, ids;
    ok, complete, known := KnownStacks(t, server, reliable);
    if !ok { return; }
    out, cur, ids := UpsertStacks(t, server, rs, known, complete, reliable);
    if out != Committed { return; }
    ok, t' := DropStacks(cur, known, ids, reliable);
    if !ok { return Lost, complete, t', byName; }
    assert rs[..|rs|] == rs;
    byName := NameIds(rs, ids);
    StackClaimsDecide(t, cur, t', server, known, rs);
    if complete { NamesResolve(t, server, known, rs, ids, byName); }
    if complete && BlankStacks(rs) {
      StacksAreMerged(t, cur, t', server, rs, ids, known);
      NamesAreMerged(t, t', server, rs, ids, byName);
    }
  }

  // ---------------------------------------------------------------- containers

  datatype Existing = Existing(id: Id, pinned: bool)

  ghost predicate ContainersSoFar(t: Containers, cur: Containers, server: Id, byName: map<string, Id>,
                                  rs: seq<ContainerReport>)
  {
    && OtherContainersKept(t, cur, server) && UniqueContainers(cur)
    && (forall i :: i in t ==>
          i in cur && cur[i].server == t[i].server && cur[i].docker == t[i].docker && cur[i].pinned == t[i].pinned)
    && (forall i :: i in cur && cur[i].server == server ==> ContainerSoFar(t, server, byName, rs, i, cur[i]))
  }

  ghost predicate ContainerSoFar(t: Containers, server: Id, byName: map<string, Id>, rs: seq<ContainerReport>, id: Id,
                                 row: Container)
  {
    match LastContainer(rs, row.docker)
    case Some(r) => ContainerRow(t, server, byName, r, id, row)
    case None => id in t && row == t[id]
  }

  ghost predicate ContainerIds(cur: Containers, server: Id, rs: seq<ContainerReport>, ids: seq<Id>)
  {
    |ids| == |rs| && forall k :: 0 <= k < |ids| ==>
      ids[k] in cur && cur[ids[k]].server == server && cur[ids[k]].docker == rs[k].docker
  }

  ghost predicate KnownDockers(t: Containers, server: Id, known: map<string, Existing>)
  {
    && (forall d :: d in known ==> known[d].id in t && t[known[d].id].server == server && t[known[d].id].docker == d)
    && (forall d :: d in known ==> t[known[d].id].pinned == known[d].pinned)
  }

  lemma LastContainerNext(rs: seq<ContainerReport>, r: ContainerReport, docker: string)
    ensures LastContainer(rs + [r], docker) == if r.docker == docker then Some(r) else LastContainer(rs, docker)
  {
    assert (rs + [r])[..|rs|] == rs;
  }

  /** The stack named by id, or else by name. */
  function StackOf(byName: map<string, Id>, r: ContainerReport): Id
  {
    if r.stackId == BLANK then StackFor(byName, r.stackName) else r.stackId
  }

  /** The row written for a report: a known docker id keeps its pin, and the stack is looked up by name. */
  function Written(server: Id, byName: map<string, Id>, known: map<string, Existing>, r: ContainerReport): Container
  {
    Container(server, StackOf(byName, r), r.docker, r.pinned || (r.docker in known && known[r.docker].pinned), r.data)
  }

  lemma ContainerStep(t: Containers, cur: Containers, server: Id, byName: map<string, Id>,
                      known: map<string, Existing>, rs: seq<ContainerReport>, r: ContainerReport, id: Id)
    requires ContainersSoFar(t, cur, server, byName, rs) && KnownDockers(t, server, known) && r.stackId == BLANK
    requires if r.docker in known then id == known[r.docker].id else id != BLANK && id !in cur
    requires !ContainerClash(cur, id, Written(server, byName, known, r))
    ensures ContainersSoFar(t, UpsertContainer(cur, id, Written(server, byName, known, r)), server, byName, rs + [r])
  {
    var c := Written(server, byName, known, r);
    var next := UpsertContainer(cur, id, c);
    UpsertKeepsContainers(t, cur, id, c);
    UpsertKeepsIdentity(t, cur, id, c);
    forall i | i in next && next[i].server == server ensures ContainerSoFar(t, server, byName, rs + [r], i, next[i]) {
      LastContainerNext(rs, r, next[i].docker);
      if i == id {
        if id !in t { DockerIsNew(t, cur, c, id); }
        WrittenRow(t, cur, server, byName, known, r, id);
      } else {
        assert ContainerSoFar(t, server, byName, rs, i, cur[i]);
      }
    }
  }

  lemma WrittenRow(t: Containers, cur: Containers, server: Id, byName: map<string, Id>, known: map<string, Existing>,
                   r: ContainerReport, id: Id)
    requires KnownDockers(t, server, known) && r.stackId == BLANK
    requires if r.docker in known then id == known[r.docker].id else id != BLANK && id !in cur && id !in t
    requires id in t ==>
      id in cur && cur[id].server == t[id].server && cur[id].docker == t[id].docker && cur[id].pinned == t[id].pinned
    requires id !in t ==> IsNewDocker(t, server, r.docker)
    ensures ContainerRow(t, server, byName, r, id, UpsertContainer(cur, id, Written(server, byName, known, r))[id])
  {
  }

  lemma UpsertKeepsIdentity(t: Containers, cur: Containers, id: Id, c: Container)
    requires forall i :: i in t ==>
      i in cur && cur[i].server == t[i].server && cur[i].docker == t[i].docker && cur[i].pinned == t[i].pinned
    ensures var next := UpsertContainer(cur, id, c);
            && (forall i :: i in t ==> i in next && next[i].server == t[i].server)
            && (forall i :: i in t ==> next[i].docker == t[i].docker && next[i].pinned == t[i].pinned)
  {
  }

  lemma DockerIsNew(t: Containers, cur: Containers, c: Container, id: Id)
    requires id !in cur && !ContainerClash(cur, id, c)
    requires forall i :: i in t ==> i in cur && cur[i].server == t[i].server && cur[i].docker == t[i].docker
    ensures forall k :: k in t && t[k].server == c.server ==> t[k].docker != c.docker
  {
  }

  lemma UpsertKeepsContainers(t: Containers, cur: Containers, id: Id, c: Container)
    requires OtherContainersKept(t, cur, c.server) && UniqueContainers(cur) && !ContainerClash(cur, id, c)
    requires if id in t then t[id].server == c.server else id !in cur
    requires forall i :: i in t ==> i in cur && cur[i].server == t[i].server
    ensures OtherContainersKept(t, UpsertContainer(cur, id, c), c.server)
    ensures UniqueContainers(UpsertContainer(cur, id, c))
  {
  }

  lemma ContainerIdsStep(t: Containers, cur: Containers, server: Id, byName: map<string, Id>,
                         known: map<string, Existing>, rs: seq<ContainerReport>, r: ContainerReport, ids: seq<Id>,
                         id: Id)
    requires ContainersSoFar(t, cur, server, byName, rs) && ContainerIds(cur, server, rs, ids)
    requires KnownDockers(t, server, known)
    requires if r.docker in known then id == known[r.docker].id else id !in cur
    ensures ContainerIds(UpsertContainer(cur, id, Written(server, byName, known, r)), server, rs + [r], ids + [id])
  {
  }

  lemma ContainersProgress(t: Containers, cur: Containers, server: Id, byName: map<string, Id>,
                           known: map<string, Existing>, rs: seq<ContainerReport>, r: ContainerReport, ids: seq<Id>,
                           id: Id)
    requires ContainersSoFar(t, cur, server, byName, rs) && ContainerIds(cur, server, rs, ids)
    requires KnownDockers(t, server, known)
    requires r.stackId == BLANK && !ContainerClash(cur, id, Written(server, byName, known, r))
    requires if r.docker in known then id == known[r.docker].id else id != BLANK && id !in cur
    ensures ContainersSoFar(t, UpsertContainer(cur, id, Written(server, byName, known, r)), server, byName, rs + [r])
    ensures ContainerIds(UpsertContainer(cur, id, Written(server, byName, known, r)), server, rs + [r], ids + [id])
  {
    ContainerStep(t, cur, server, byName, known, rs, r, id);
    ContainerIdsStep(t, cur, server, byName, known, rs, r, ids, id);
  }

  method KnownContainers(t: Containers, server: Id, reliable: bool)
    returns (ok: bool, complete: bool, known: map<string, Existing>)
    requires UniqueContainers(t)
    ensures reliable ==> ok && complete
    ensures KnownDockers(t, server, known)
    ensures ok && complete ==> forall i :: i in t && t[i].server == server ==> t[i].docker in known
  {
    known := map[];
    var todo := t.Keys;
    while todo != {}
      invariant todo <= t.Keys
      invariant KnownDockers(t, server, known)
      invariant forall i :: i in t && i !in todo && t[i].server == server ==> t[i].docker in known
    {
      if !reliable {
        if * { return false, false, known; }
        if * { return true, false, known; }
      }
      var i :| i in todo;
      todo := todo - {i};
      if t[i].server == server { known := known[t[i].docker := Existing(i, t[i].pinned)]; }
    }
    return true, true, known;
  }

  /** One reported container: the known id for its docker id, else the id it carries, else a new one. */
  method UpsertReportedContainer(cur: Containers, server: Id, byName: map<string, Id>, known: map<string, Existing>,
                                 r: ContainerReport, reliable: bool)
    returns (out: Outcome, id: Id, next: Containers)
    requires UniqueContainers(cur)
    ensures UniqueContainers(next) && cur.Keys <= next.Keys
    ensures BLANK !in cur && (forall d :: d in known ==> known[d].id != BLANK) ==> BLANK !in next
    ensures r.docker in known ==> id == known[r.docker].id
    ensures r.docker !in known ==> if r.id == BLANK then id != BLANK && id !in cur else id == r.id
    ensures out == Committed ==>
      !ContainerClash(cur, id, Written(server, byName, known, r)) &&
      next == UpsertContainer(cur, id, Written(server, byName, known, r))
    ensures out == Clashed ==> ContainerClash(cur, id, Written(server, byName, known, r))
    ensures reliable ==> out != Lost
  {
    next, id := cur, r.id;
    if r.docker in known {
      id := known[r.docker].id;
    } else if id == BLANK {
      var above := NotBelow(cur.Keys);
      assert above !in cur;
      id :| id != BLANK && id !in cur;
    }
    var c := Written(server, byName, known, r);
    if !reliable {
      if * { return Lost, id, next; }
    }
    if ContainerClash(cur, id, c) { return Clashed, id, next; }
    return Committed, id, UpsertContainer(cur, id, c);
  }

  /** The last report that carries this id with a docker id the server did not have. */
  function LastClaim(t: Containers, server: Id, rs: seq<ContainerReport>, id: Id): Option<ContainerReport>
  {
    if rs == [] then None
    else if rs[|rs| - 1].id == id && IsNewDocker(t, server, rs[|rs| - 1].docker) then Some(rs[|rs| - 1])
    else LastClaim(t, server, rs[..|rs| - 1], id)
  }

  function Claimed(row: Container, byName: map<string, Id>, claim: Option<ContainerReport>): Container
  {
    if claim.None? then row else row.(stack := StackOf(byName, claim.value), data := claim.value.data)
  }

  /** What the columns of another server's container read after a report. */
  function DataAfter(t: Containers, server: Id, rs: seq<ContainerReport>, id: Id): string
    requires id in t
  {
    var claim := LastClaim(t, server, rs, id);
    if claim.None? then t[id].data else claim.value.data
  }

  ghost predicate OthersClaimed(t: Containers, cur: Containers, server: Id, byName: map<string, Id>,
                                rs: seq<ContainerReport>)
  {
    && (forall g :: g in t && t[g].server != server ==>
          g in cur && cur[g] == Claimed(t[g], byName, LastClaim(t, server, rs, g)))
    && (forall i :: i in cur && cur[i].server != server ==> i in t)
    && (forall i :: i in t ==> i in cur && cur[i].server == t[i].server)
  }

  /** No report claims another server's container, or the last one to do so says the same. */
  ghost predicate NoClaims(t: Containers, server: Id, byName: map<string, Id>, rs: seq<ContainerReport>)
  {
    forall g :: g in t && t[g].server != server ==> Claimed(t[g], byName, LastClaim(t, server, rs, g)) == t[g]
  }

  /** The same, from the tables and the report alone: the last report to claim another server's container
      repeats its columns, its stack id or the one its stack name stands for included. */
  ghost predicate NoContainerClaims(db: Db, server: Id, stacks: seq<StackReport>, rs: seq<ContainerReport>)
  {
    forall g :: g in db.containers && db.containers[g].server != server ==>
      Repeats(db, server, stacks, LastClaim(db.containers, server, rs, g), db.containers[g])
  }

  ghost predicate Repeats(db: Db, server: Id, stacks: seq<StackReport>, claim: Option<ContainerReport>, row: Container)
  {
    match claim
    case None => true
    case Some(r) =>
      r.data == row.data &&
      if r.stackId == BLANK then Resolves(db.stacks, server, stacks, r.stackName, row.stack) else r.stackId == row.stack
  }

  lemma ClaimsFromTheReport(db: Db, server: Id, stacks: seq<StackReport>, byName: map<string, Id>,
                            rs: seq<ContainerReport>)
    requires Consistent(db) && forall n :: Resolves(db.stacks, server, stacks, n, StackFor(byName, n))
    ensures NoClaims(db.containers, server, byName, rs) <==> NoContainerClaims(db, server, stacks, rs)
  {
    forall g | g in db.containers && db.containers[g].server != server
      ensures var claim := LastClaim(db.containers, server, rs, g);
              Claimed(db.containers[g], byName, claim) == db.containers[g] <==>
              Repeats(db, server, stacks, claim, db.containers[g])
    {
      var claim, row := LastClaim(db.containers, server, rs, g), db.containers[g];
      if claim.Some? {
        var name := claim.value.stackName;
        OneResolution(db, server, stacks, name, StackFor(byName, name), row.stack);
      }
    }
  }

  /** A name stands for at most one of the stacks there are. */
  lemma OneResolution(db: Db, server: Id, stacks: seq<StackReport>, name: string, id: Id, other: Id)
    requires Consistent(db) && Resolves(db.stacks, server, stacks, name, id) && (other == BLANK || other in db.stacks)
    ensures Resolves(db.stacks, server, stacks, name, other) <==> other == id
  {
  }

  lemma ClaimsStep(t: Containers, cur: Containers, server: Id, byName: map<string, Id>, known: map<string, Existing>,
                   rs: seq<ContainerReport>, r: ContainerReport, id: Id)
    requires OthersClaimed(t, cur, server, byName, rs) && KnownDockers(t, server, known) && BLANK !in t
    requires r.docker in known <==> !IsNewDocker(t, server, r.docker)
    requires r.docker in known ==> id == known[r.docker].id
    requires r.docker !in known ==> if r.id == BLANK then id !in cur else id == r.id
    ensures OthersClaimed(t, UpsertContainer(cur, id, Written(server, byName, known, r)), server, byName, rs + [r])
  {
    assert (rs + [r])[..|rs|] == rs;
  }

  lemma ClaimsDecide(t: Containers, cur: Containers, t': Containers, server: Id, byName: map<string, Id>,
                     known: map<string, Existing>, rs: seq<ContainerReport>)
    requires OthersClaimed(t, cur, server, byName, rs) && KnownDockers(t, server, known)
    requires t'.Keys <= cur.Keys && forall i :: i in t' ==> t'[i] == cur[i]
    requires forall i :: i in cur && (forall d :: d in known ==> known[d].id != i) ==> i in t'
    ensures OtherContainersKept(t, t', server) <==> NoClaims(t, server, byName, rs)
    ensures forall g :: g in t && t[g].server != server ==>
      g in t' && t'[g] == Claimed(t[g], byName, LastClaim(t, server, rs, g))
  {
    forall g | g in t && t[g].server != server
      ensures g in t' && t'[g] == Claimed(t[g], byName, LastClaim(t, server, rs, g))
    {
      assert forall d :: d in known ==> known[d].id != g;
    }
  }

  /** What holds after the first k reports: for any report, as far as known misses no row, about other
      servers' rows, and for one with blank ids about the server's own. */
  ghost predicate Midway(t: Containers, cur: Containers, server: Id, byName: map<string, Id>,
                         rs: seq<ContainerReport>, k: nat, ids: seq<Id>, complete: bool)
    requires k <= |rs|
  {
    && (complete ==> OthersClaimed(t, cur, server, byName, rs[..k]))
    && (BlankContainers(rs) ==>
          ContainersSoFar(t, cur, server, byName, rs[..k]) && ContainerIds(cur, server, rs[..k], ids))
    && (BlankContainers(rs) ==> !NewDockerTwice(t, server, rs[..k]))
  }

  lemma MidwayStep(t: Containers, cur: Containers, server: Id, byName: map<string, Id>, known: map<string, Existing>,
                   rs: seq<ContainerReport>, k: nat, ids: seq<Id>, id: Id, complete: bool)
    requires k < |rs| && Midway(t, cur, server, byName, rs, k, ids, complete) && KnownDockers(t, server, known)
    requires BLANK !in t
    requires complete ==> forall i :: i in t && t[i].server == server ==> t[i].docker in known
    requires rs[k].docker in known ==> id == known[rs[k].docker].id
    requires rs[k].docker !in known ==> if rs[k].id == BLANK then id != BLANK && id !in cur else id == rs[k].id
    requires !ContainerClash(cur, id, Written(server, byName, known, rs[k]))
    ensures Midway(t, UpsertContainer(cur, id, Written(server, byName, known, rs[k])), server, byName, rs, k + 1,
        ids + [id], complete)
  {
    assert rs[..k + 1] == rs[..k] + [rs[k]];
    if complete {
      KnownIsNotNew(t, server, known, rs[k].docker);
      ClaimsStep(t, cur, server, byName, known, rs[..k], rs[k], id);
    }
    if BlankContainers(rs) {
      ContainersProgress(t, cur, server, byName, known, rs[..k], rs[k], ids, id);
      NoClashNoDockerTwice(t, cur, server, byName, known, rs[..k], rs[k], ids, id);
    }
  }

  method UpsertContainers(t: Containers, server: Id, byName: map<string, Id>, rs: seq<ContainerReport>,
                          known: map<string, Existing>, ghost complete: bool, reliable: bool)
    returns (out: Outcome, cur: Containers, ids: seq<Id>)
    requires UniqueContainers(t) && BLANK !in t && KnownDockers(t, server, known)
    requires complete ==> forall i :: i in t && t[i].server == server ==> t[i].docker in known
    ensures UniqueContainers(cur) && BLANK !in cur && t.Keys <= cur.Keys
    ensures out == Committed ==> Midway(t, cur, server, byName, rs, |rs|, ids, complete)
    ensures out == Clashed && BlankContainers(rs) && complete ==> NewDockerTwice(t, server, rs)
    ensures (out == Clashed ==> exists r :: r in rs && r.id !in t) && (reliable ==> out != Lost)
  {
    cur, ids := t, [];
    for k := 0 to |rs|
      invariant UniqueContainers(cur) && BLANK !in cur && t.Keys <= cur.Keys
      invariant Midway(t, cur, server, byName, rs, k, ids, complete)
    {
      out, cur, ids := UpsertNextContainer(t, cur, server, byName, rs, k, ids, known, complete, reliable);
      if out != Committed { return; }
    }
    out := Committed;
  }

  method UpsertNextContainer(t: Containers, cur: Containers, server: Id, byName: map<string, Id>,
                             rs: seq<ContainerReport>, k: nat, ids: seq<Id>, known: map<string, Existing>,
                             ghost complete: bool, reliable: bool)
    returns (out: Outcome, next: Containers, ids': seq<Id>)
    requires BLANK !in t && KnownDockers(t, server, known)
    requires UniqueContainers(cur) && BLANK !in cur && t.Keys <= cur.Keys
    requires complete ==> forall i :: i in t && t[i].server == server ==> t[i].docker in known
    requires k < |rs| && Midway(t, cur, server, byName, rs, k, ids, complete)
    ensures UniqueContainers(next) && BLANK !in next && t.Keys <= next.Keys && (reliable ==> out != Lost)
    ensures out == Committed ==> Midway(t, next, server, byName, rs, k + 1, ids', complete)
    ensures out == Clashed && BlankContainers(rs) && complete ==> NewDockerTwice(t, server, rs)
    ensures out == Clashed ==> rs[k].id !in t
  {
    var id;
    out, id, next := UpsertReportedContainer(cur, server, byName, known, rs[k], reliable);
    ids' := ids + [id];
    if out == Clashed && BlankContainers(rs) && complete {
      DockerClashMeansTwice(t, cur, server, byName, known, rs, k, id);
    }
    if out == Committed { MidwayStep(t, cur, server, byName, known, rs, k, ids, id, complete); }
  }

  lemma KnownIsNotNew(t: Containers, server: Id, known: map<string, Existing>, docker: string)
    requires KnownDockers(t, server, known) && forall i :: i in t && t[i].server == server ==> t[i].docker in known
    ensures docker in known <==> !IsNewDocker(t, server, docker)
  {
  }

  lemma NoClashNoDockerTwice(t: Containers, cur: Containers, server: Id, byName: map<string, Id>,
                             known: map<string, Existing>, rs: seq<ContainerReport>, r: ContainerReport, ids: seq<Id>,
                             id: Id)
    requires ContainerIds(cur, server, rs, ids) && KnownDockers(t, server, known) && !NewDockerTwice(t, server, rs)
    requires (r.docker in known || id !in cur) && !ContainerClash(cur, id, Written(server, byName, known, r))
    ensures !NewDockerTwice(t, server, rs + [r])
  {
    var all := rs + [r];
    if r.docker !in known {
      forall j | 0 <= j < |rs|
        ensures rs[j].docker != r.docker
      {
        assert ids[j] in cur && cur[ids[j]].docker == rs[j].docker;
      }
    }
    forall j, k | 0 <= j < k < |all| && all[j].docker == all[k].docker ensures !IsNewDocker(t, server, all[k].docker) {
      if k < |rs| { assert rs[j].docker == rs[k].docker; }
    }
  }

  lemma DockerClashMeansTwice(t: Containers, cur: Containers, server: Id, byName: map<string, Id>,
                              known: map<string, Existing>, rs: seq<ContainerReport>, n: nat, id: Id)
    requires n < |rs| && ContainersSoFar(t, cur, server, byName, rs[..n]) && KnownDockers(t, server, known)
    requires forall i :: i in t && t[i].server == server ==> t[i].docker in known
    requires rs[n].docker in known ==> id == known[rs[n].docker].id
    requires ContainerClash(cur, id, Written(server, byName, known, rs[n]))
    ensures NewDockerTwice(t, server, rs)
  {
    var docker := rs[n].docker;
    var k :| k in cur && cur[k].server == server && cur[k].docker == docker;
    assert docker !in known;
    assert ContainerSoFar(t, server, byName, rs[..n], k, cur[k]);
    var r := LastContainer(rs[..n], docker).value;
    var j :| 0 <= j < n && rs[..n][j] == r;
    assert IsNewDocker(t, server, rs[n].docker) && rs[j].docker == rs[n].docker;
  }

  /** Deletes the known containers that were not reported; each takes its update with it. */
  method DropContainers(t: Containers, updates: map<Id, string>, known: map<string, Existing>, seen: seq<Id>,
                        reliable: bool)
    returns (ok: bool, rest: Containers, updates': map<Id, string>)
    requires updates.Keys <= t.Keys
    ensures reliable ==> ok
    ensures rest.Keys <= t.Keys && forall i :: i in rest ==> rest[i] == t[i]
    ensures forall i :: i in t && (i in seen || forall d :: d in known ==> known[d].id != i) ==> i in rest
    ensures ok ==> forall d :: d in known && known[d].id in rest ==> known[d].id in seen
    ensures updates' == map c | c in updates && c in rest :: updates[c]
  {
    rest, updates' := t, updates;
    var todo := known.Keys;
    while todo != {}
      invariant todo <= known.Keys
      invariant rest.Keys <= t.Keys && forall i :: i in rest ==> rest[i] == t[i]
      invariant forall i :: i in t && (i in seen || forall d :: d in known ==> known[d].id != i) ==> i in rest
      invariant forall d :: d in known && d !in todo && known[d].id in rest ==> known[d].id in seen
      invariant updates' == map c | c in updates && c in rest :: updates[c]
    {
      var d :| d in todo;
      todo := todo - {d};
      if known[d].id !in seen {
        if !reliable {
          if * { return false, rest, updates'; }
        }
        rest := rest - {known[d].id};
        updates' := updates' - {known[d].id};
      }
    }
    return true, rest, updates';
  }

  lemma ContainersAreMerged(t: Containers, cur: Containers, t': Containers, server: Id, byName: map<string, Id>,
                            rs: seq<ContainerReport>, ids: seq<Id>, known: map<string, Existing>)
    requires ContainersSoFar(t, cur, server, byName, rs) && ContainerIds(cur, server, rs, ids)
    requires KnownDockers(t, server, known)
    requires forall i :: i in t && t[i].server == server ==> t[i].docker in known
    requires t'.Keys <= cur.Keys && forall i :: i in t' ==> t'[i] == cur[i]
    requires forall i :: i in cur && (i in ids || forall d :: d in known ==> known[d].id != i) ==> i in t'
    requires forall d :: d in known && known[d].id in t' ==> known[d].id in ids
    requires UniqueContainers(t)
    ensures ContainersMerged(t, t', server, byName, rs)
  {
    forall i | i in t' && t'[i].server == server
      ensures LastContainer(rs, t'[i].docker).Some?
      ensures ContainerRow(t, server, byName, LastContainer(rs, t'[i].docker).value, i, t'[i])
    {
      if i in t { assert known[t[i].docker].id == i; }
      if i in ids {
        var k :| 0 <= k < |ids| && ids[k] == i;
        assert rs[k] in rs;
      }
      assert ContainerSoFar(t, server, byName, rs, i, cur[i]);
    }
    forall r | r in rs ensures exists i :: i in t' && t'[i].server == server && t'[i].docker == r.docker {
      var k :| 0 <= k < |rs| && rs[k] == r;
      assert ids[k] in t';
    }
  }

  lemma DropsOwnContainers(t: Containers, cur: Containers, t': Containers, server: Id, known: map<string, Existing>)
    requires OtherContainersKept(t, cur, server) && KnownDockers(t, server, known)
    requires t'.Keys <= cur.Keys && forall i :: i in t' ==> t'[i] == cur[i]
    requires forall i :: i in cur && (forall d :: d in known ==> known[d].id != i) ==> i in t'
    ensures OtherContainersKept(t, t', server)
  {
    forall i | i in t && t[i].server != server ensures i in t' { assert forall d :: d in known ==> known[d].id != i; }
  }

  /** The whole container merge, and what it leaves of the updates. */
  method MergeContainers(t: Containers, updates: map<Id, string>, server: Id, byName: map<string, Id>,
                         rs: seq<ContainerReport>, reliable: bool)
    returns (out: Outcome, complete: bool, t': Containers, updates': map<Id, string>)
    requires UniqueContainers(t) && BLANK !in t && updates.Keys <= t.Keys
    ensures UniqueContainers(t') && BLANK !in t' && updates'.Keys <= t'.Keys
    ensures out == Committed && BlankContainers(rs) ==> OtherContainersKept(t, t', server)
    ensures out == Committed && complete ==> (OtherContainersKept(t, t', server) <==> NoClaims(t, server, byName, rs))
    ensures out == Committed && complete ==> forall g :: g in t && t[g].server != server ==>
      g in t' && t'[g] == Claimed(t[g], byName, LastClaim(t, server, rs, g))
    ensures out == Committed && complete && BlankContainers(rs) ==> ContainersMerged(t, t', server, byName, rs)
    ensures out == Committed ==> updates' == map c | c in updates && c in t' :: updates[c]
    ensures out != Lost && complete && BlankContainers(rs) ==> (out == Clashed <==> NewDockerTwice(t, server, rs))
    ensures (out == Clashed ==> exists r :: r in rs && r.id !in t) && (reliable ==> out != Lost && complete)
  {
    t', updates', out := t, updates, Lost;
    var ok, known, cur, ids;
    ok, complete, known := KnownContainers(t, server, reliable);
    if !ok { return; }
    out, cur, ids := UpsertContainers(t, server, byName, rs, known, complete, reliable);
    if out != Committed { return; }
    ok, t', updates' := DropContainers(cur, updates, known, ids, reliable);
    if !ok { return Lost, complete, t', updates'; }
    assert rs[..|rs|] == rs;
    if complete { ClaimsDecide(t, cur, t', server, byName, known, rs); }
    if BlankContainers(rs) { DropsOwnContainers(t, cur, t', server, known); }
    if complete && BlankContainers(rs) {
      ContainersAreMerged(t, cur, t', server, byName, rs, ids, known);
    }
  }
}
