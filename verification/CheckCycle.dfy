/** One update-check cycle over all containers (CheckAll, applyContainer and repoKey,
    internal/updater/updater.go). */
module CheckCycle {
  import opened Wrappers
  import Semver
  import Strings
  import Tags
  import Updater

  datatype SourceType = GitHub | GitLab | Gitea | Registry | Other

  datatype Source = Source(kind: SourceType, repo: string, baseUrl: string, registry: string, repository: string)

  function RepoKey(src: Source): string
  {
    match src.kind
    case GitHub => "gh:" + src.repo
    case GitLab => "gl:" + src.repo
    case Gitea => "gt:" + src.repo
    case Registry => "reg:" + src.registry + "/" + src.repository
    case Other => "none"
  }

  /** A container row together with whether an update row came with it. */
  datatype Entry = Entry(id: nat, pinned: bool, container: Updater.Container, hasUpdate: bool)

  /** What the cycle asks of the outside: ignore patterns, source resolution (None when the reference
      does not parse or has no source), upstream releases (None on a fetch error) and the registry. */
  datatype Env = Env(ignored: Entry -> bool, resolve: Entry -> Option<Source>,
                     fetch: Source -> Option<seq<Updater.Release>>, upToDate: Entry -> Option<bool>,
                     parse: Tags.Parser, includePre: bool)
  {
    predicate Skipped(e: Entry) { e.pinned || ignored(e) }

    predicate Considered(e: Entry) { !Skipped(e) && resolve(e).Some? }

    function KeyOf(e: Entry): string { if resolve(e).Some? then RepoKey(resolve(e).value) else "" }

    predicate Vcs(e: Entry) { resolve(e).Some? && resolve(e).value.kind != Registry }

    /** The source the releases of a key are fetched from: that of the first container with the key. */
    function SourceFor(entries: seq<Entry>, key: string): Option<Source>
    {
      if entries == [] then None
      else if Considered(entries[0]) && KeyOf(entries[0]) == key then resolve(entries[0])
      else SourceFor(entries[1..], key)
    }

    /** What upstream lists for a source; nothing when it could not be asked. */
    function ReleasesOf(src: Option<Source>): seq<Updater.Release>
    {
      if src.None? || fetch(src.value).None? then [] else fetch(src.value).value
    }

    function ReleasesFor(entries: seq<Entry>, key: string): seq<Updater.Release> { ReleasesOf(SourceFor(entries, key)) }

    /** The update row computed for one container from a list of releases. */
    ghost predicate Recomputed(e: Entry, rels: seq<Updater.Release>, u: Option<Updater.Update>)
    {
      var vcs := resolve(e).Some? && resolve(e).value.kind != Registry;
      Updater.Decides(Updater.TagReader(parse), e.container, vcs, Updater.Offered(rels, includePre), upToDate(e), u)
    }
  }

  /** The updates table, the log of upstream fetches, and the caller's context. faults(k) loses the k-th
      statement, changing nothing; from the cancelAt-th look on the context is found to have ended. */
  class Store {
    const faults: nat -> bool
    const cancelAt: nat
    var statements: nat
    var looks: nat
    var updates: map<nat, Updater.Update>
    var fetched: seq<string>

    constructor (faults: nat -> bool, cancelAt: nat, updates: map<nat, Updater.Update>)
      ensures this.faults == faults && this.cancelAt == cancelAt && this.updates == updates
      ensures statements == 0 && looks == 0 && fetched == []
    {
      this.faults, this.cancelAt, this.updates, statements, looks, fetched := faults, cancelAt, updates, 0, 0, [];
    }

    /** ctx.Err. */
    method Ended() returns (yes: bool)
      modifies this`looks
      ensures looks == old(looks) + 1 && yes == (old(looks) >= cancelAt)
    {
      yes := looks >= cancelAt;
      looks := looks + 1;
    }

    method DeleteUpdate(id: nat) returns (ok: bool)
      modifies this`statements, this`updates
      ensures statements == old(statements) + 1 && ok == !faults(old(statements))
      ensures updates == if ok then old(updates) - {id} else old(updates)
    {
      ok := !faults(statements);
      statements := statements + 1;
      if ok { updates := updates - {id}; }
    }

    method UpsertUpdate(id: nat, u: Updater.Update) returns (ok: bool)
      modifies this`statements, this`updates
      ensures statements == old(statements) + 1 && ok == !faults(old(statements))
      ensures updates == if ok then old(updates)[id := u] else old(updates)
    {
      ok := !faults(statements);
      statements := statements + 1;
      if ok { updates := updates[id := u]; }
    }
  }

  function RowOf(updates: map<nat, Updater.Update>, id: nat): Option<Updater.Update>
  {
    if id in updates then Some(updates[id]) else None
  }

  ghost predicate DistinctIds(entries: seq<Entry>)
  {
    forall i, j :: 0 <= i < j < |entries| ==> entries[i].id != entries[j].id
  }

  ghost predicate Listed(entries: seq<Entry>, updates: map<nat, Updater.Update>)
  {
    DistinctIds(entries) && forall e :: e in entries ==> (e.hasUpdate <==> e.id in updates)
  }

  /** Rows of containers outside the listing are not touched. */
  ghost predicate OthersKept(entries: seq<Entry>, before: map<nat, Updater.Update>, after: map<nat, Updater.Update>)
  {
    forall id :: (forall e :: e in entries ==> e.id != id) ==> RowOf(after, id) == RowOf(before, id)
  }

  /** How many rows the first pass tries to delete. */
  function Deletes(env: Env, entries: seq<Entry>): nat
  {
    if entries == [] then 0
    else
      var e := entries[|entries| - 1];
      Deletes(env, entries[..|entries| - 1]) + if Deleted(env, e) then 1 else 0
  }

  predicate Deleted(env: Env, e: Entry) { env.Skipped(e) && e.hasUpdate }

  /** Outcome of the first pass for the i-th entry, whose statements begin with number start: a pinned or
      ignored container loses its row exactly when its own delete gets through; a failed one is swallowed
      and leaves the row. Every other row stays. */
  ghost predicate Cleared(env: Env, entries: seq<Entry>, i: nat, before: map<nat, Updater.Update>,
                          after: map<nat, Updater.Update>, faults: nat -> bool, start: nat)
    requires i < |entries|
  {
    var e := entries[i];
    var deleted := Deleted(env, e) && !faults(start + Deletes(env, entries[..i]));
    RowOf(after, e.id) == if deleted then None else RowOf(before, e.id)
  }

  datatype Item = Item(e: Entry, key: string)

  function Items(env: Env, entries: seq<Entry>): seq<Item>
  {
    if entries == [] then []
    else
      var e := entries[|entries| - 1];
      Items(env, entries[..|entries| - 1]) + if env.Considered(e) then [Item(e, env.KeyOf(e))] else []
  }

  ghost predicate DistinctItems(items: seq<Item>)
  {
    forall i, j :: 0 <= i < j < |items| ==> items[i].e.id != items[j].e.id
  }

  lemma {:induction false} ItemsAre(env: Env, entries: seq<Entry>)
    requires DistinctIds(entries)
    ensures forall it :: it in Items(env, entries) <==>
      it.e in entries && env.Considered(it.e) && it.key == env.KeyOf(it.e)
    ensures DistinctItems(Items(env, entries))
  {
    if entries != [] {
      var n := |entries| - 1;
      var front, e := entries[..n], entries[n];
      ItemsAre(env, front);
      assert forall x :: x in entries <==> x in front || x == e;
      assert forall x :: x in front ==> x.id != e.id;
      var init := Items(env, front);
      var items := Items(env, entries);
      forall i, j | 0 <= i < j < |items| ensures items[i].e.id != items[j].e.id {
        assert items[i] == init[i] && init[i] in init;
        if j == |init| {
          assert items[j].e == e && init[i].e in front;
        } else {
          assert items[j] == init[j];
          assert init[i].e.id != init[j].e.id;
        }
      }
    }
  }

  /** The outcome for the first n entries. */
  ghost predicate AllCleared(env: Env, entries: seq<Entry>, n: nat, before: map<nat, Updater.Update>,
                             after: map<nat, Updater.Update>, faults: nat -> bool, start: nat)
    requires n <= |entries|
  {
    forall i :: 0 <= i < n ==> Cleared(env, entries, i, before, after, faults, start)
  }

  ghost predicate NoFaults(faults: nat -> bool, from: nat, to: nat)
  {
    forall k :: from <= k < to ==> !faults(k)
  }

  /** First pass: drop the rows of pinned and ignored containers, resolve the others. */
  method FirstPass(env: Env, store: Store, entries: seq<Entry>) returns (items: seq<Item>, seen: map<string, Source>)
    requires Listed(entries, store.updates)
    modifies store`statements, store`updates
    ensures store.statements == old(store.statements) + Deletes(env, entries)
    ensures OthersKept(entries, old(store.updates), store.updates)
    ensures AllCleared(env, entries, |entries|, old(store.updates), store.updates, store.faults, old(store.statements))
    ensures items == Items(env, entries) && SeenFirst(env, entries, seen)
  {
    items, seen := [], map[];
    var i := 0;
    while i < |entries|
      invariant 0 <= i <= |entries| && store.statements == old(store.statements) + Deletes(env, entries[..i])
      invariant OthersKept(entries[..i], old(store.updates), store.updates)
      invariant AllCleared(env, entries, i, old(store.updates), store.updates, store.faults, old(store.statements))
      invariant items == Items(env, entries[..i]) && SeenFirst(env, entries[..i], seen)
    {
      var e := entries[i];
      ghost var before := store.updates;
      assert entries[..i + 1][..i] == entries[..i] && entries[..i + 1] == entries[..i] + [e];
      SeenStep(env, entries[..i], e, seen);
      if env.Skipped(e) {
        if e.hasUpdate {
          var _ := store.DeleteUpdate(e.id);
        }
      } else {
        var src := env.resolve(e);
        if src.Some? {
          var key := RepoKey(src.value);
          items := items + [Item(e, key)];
          if key !in seen { seen := seen[key := src.value]; }
        }
      }
      ClearStep(env, entries, i, old(store.updates), before, store.updates, store.faults, old(store.statements));
      i := i + 1;
    }
    assert entries[..i] == entries;
  }

  lemma ClearStep(env: Env, entries: seq<Entry>, i: nat, first: map<nat, Updater.Update>,
                  before: map<nat, Updater.Update>, after: map<nat, Updater.Update>, faults: nat -> bool, start: nat)
    requires i < |entries| && Listed(entries, first)
    requires OthersKept(entries[..i], first, before) && AllCleared(env, entries, i, first, before, faults, start)
    requires var e := entries[i];
             var deleted := Deleted(env, e) && !faults(start + Deletes(env, entries[..i]));
             after == if deleted then before - {e.id} else before
    ensures OthersKept(entries[..i + 1], first, after) && AllCleared(env, entries, i + 1, first, after, faults, start)
  {
    var e := entries[i];
    assert forall x :: x in entries[..i] ==> x.id != e.id && x in entries[..i + 1];
    assert e in entries && e in entries[..i + 1];
    assert RowOf(before, e.id) == RowOf(first, e.id);
    assert Cleared(env, entries, i, first, after, faults, start);
    StillCleared(env, entries, i, first, before, after, faults, start);
    forall id | forall x :: x in entries[..i + 1] ==> x.id != id ensures RowOf(after, id) == RowOf(first, id) {
      assert RowOf(before, id) == RowOf(first, id);
    }
  }

  lemma StillCleared(env: Env, entries: seq<Entry>, i: nat, first: map<nat, Updater.Update>,
                     before: map<nat, Updater.Update>, after: map<nat, Updater.Update>, faults: nat -> bool,
                     start: nat)
    requires i < |entries| && DistinctIds(entries) && AllCleared(env, entries, i, first, before, faults, start)
    requires forall id :: id != entries[i].id ==> RowOf(after, id) == RowOf(before, id)
    ensures AllCleared(env, entries, i, first, after, faults, start)
  {
    forall k | 0 <= k < i ensures Cleared(env, entries, k, first, after, faults, start) {
      assert Cleared(env, entries, k, first, before, faults, start);
      assert RowOf(after, entries[k].id) == RowOf(before, entries[k].id);
    }
  }

  /** The source kept for each key is that of the first container with it. */
  ghost predicate SeenFirst(env: Env, entries: seq<Entry>, seen: map<string, Source>)
  {
    forall key ::
      if key in seen then env.SourceFor(entries, key) == Some(seen[key])
      else env.SourceFor(entries, key) == None
  }

  lemma SeenStep(env: Env, done: seq<Entry>, e: Entry, seen: map<string, Source>)
    requires SeenFirst(env, done, seen)
    ensures SeenFirst(env, done + [e],
              if env.Considered(e) && env.KeyOf(e) !in seen then seen[env.KeyOf(e) := env.resolve(e).value] else seen)
  {
    forall key ensures env.SourceFor(done + [e], key) ==
        if env.SourceFor(done, key).Some? then env.SourceFor(done, key)
        else if env.Considered(e) && env.KeyOf(e) == key then env.resolve(e) else None
    {
      SourceForJoin(env, done, e, key);
      assert env.SourceFor([e][1..], key) == None;
    }
  }

  lemma {:induction false} SourceForJoin(env: Env, a: seq<Entry>, e: Entry, key: string)
    ensures env.SourceFor(a + [e], key) ==
              if env.SourceFor(a, key).Some? then env.SourceFor(a, key) else env.SourceFor([e], key)
  {
    if a == [] {
      assert a + [e] == [e];
    } else {
      assert (a + [e])[1..] == a[1..] + [e];
      SourceForJoin(env, a[1..], e, key);
    }
  }

  /** The keys whose upstream gives no answer. */
  function Silent(env: Env, seen: map<string, Source>): set<string>
  {
    set key | key in seen && env.fetch(seen[key]).None?
  }

  /** Each key not in rest has been asked once, and the cache holds what its first source gives. */
  ghost predicate Fetched(env: Env, entries: seq<Entry>, seen: map<string, Source>, rest: set<string>,
                          made: seq<string>, cache: map<string, seq<Updater.Release>>)
  {
    && rest <= seen.Keys
    && (forall i, j :: 0 <= i < j < |made| ==> made[i] != made[j])
    && (forall key :: key in made <==> key in seen && key !in rest)
    && cache.Keys == seen.Keys - rest
    && forall key :: key in cache ==> cache[key] == env.ReleasesFor(entries, key)
  }

  lemma FetchedStep(env: Env, entries: seq<Entry>, seen: map<string, Source>, rest: set<string>, made: seq<string>,
                    cache: map<string, seq<Updater.Release>>, key: string)
    requires SeenFirst(env, entries, seen) && Fetched(env, entries, seen, rest, made, cache) && key in rest
    ensures Fetched(env, entries, seen, rest - {key}, made + [key], cache[key := env.ReleasesOf(Some(seen[key]))])
  {
    assert forall k :: k in made + [key] <==> k in made || k == key;
    assert cache[key := env.ReleasesOf(Some(seen[key]))].Keys == seen.Keys - (rest - {key});
  }

  /** One upstream request, and the look at the context when it fails. */
  method Ask(env: Env, store: Store, key: string, src: Source) returns (rels: seq<Updater.Release>, ended: bool)
    modifies store`fetched, store`looks
    ensures store.fetched == old(store.fetched) + [key] && rels == env.ReleasesOf(Some(src))
    ensures store.looks == old(store.looks) + if env.fetch(src).None? then 1 else 0
    ensures ended <==> env.fetch(src).None? && old(store.looks) >= store.cancelAt
  {
    var answer := env.fetch(src);
    store.fetched := store.fetched + [key];
    rels, ended := if answer.Some? then answer.value else [], false;
    if answer.None? { ended := store.Ended(); }
  }

  /** Prefetch: one upstream request per distinct key, in no particular order. After a failed request the
      context is looked at, so it gets through exactly when it had not ended by the last such look. */
  method FetchAll(env: Env, store: Store, ghost entries: seq<Entry>, seen: map<string, Source>)
    returns (ok: bool, cache: map<string, seq<Updater.Release>>, ghost made: seq<string>, ghost unasked: set<string>)
    requires SeenFirst(env, entries, seen) && store.looks <= store.cancelAt
    modifies store`fetched, store`looks
    ensures store.fetched == old(store.fetched) + made && Fetched(env, entries, seen, unasked, made, cache)
    ensures ok ==> unasked == {}
    ensures ok <==> old(store.looks) + |Silent(env, seen)| <= store.cancelAt
    ensures ok ==> store.looks == old(store.looks) + |Silent(env, seen)|
  {
    cache, made := map[], [];
    ghost var first := store.fetched;
    var rest := seen.Keys;
    AllSilent(env, seen);
    while rest != {}
      invariant store.fetched == first + made && Fetched(env, entries, seen, rest, made, cache)
      invariant store.looks == old(store.looks) + SilentAsked(env, seen, rest) <= store.cancelAt
      decreases rest
    {
      ok, rest, cache, made := FetchNext(env, store, entries, seen, rest, cache, first, made);
      unasked := rest;
      if !ok {
        return;
      }
    }
    ok, unasked := true, rest;
  }

  /** One key of the rest, whichever comes up. */
  method FetchNext(env: Env, store: Store, ghost entries: seq<Entry>, seen: map<string, Source>, rest: set<string>,
                   cache: map<string, seq<Updater.Release>>, ghost first: seq<string>, ghost made: seq<string>)
    returns (ok: bool, left: set<string>, more: map<string, seq<Updater.Release>>, ghost asked: seq<string>)
    requires SeenFirst(env, entries, seen) && Fetched(env, entries, seen, rest, made, cache) && rest != {}
    requires store.looks <= store.cancelAt && store.fetched == first + made
    modifies store`fetched, store`looks
    ensures left < rest && store.fetched == first + asked && Fetched(env, entries, seen, left, asked, more)
    ensures store.looks == old(store.looks) + SilentAsked(env, seen, left) - SilentAsked(env, seen, rest)
    ensures ok <==> store.looks <= store.cancelAt
    ensures SilentAsked(env, seen, left) <= |Silent(env, seen)|
  {
    var key :| key in rest;
    FetchedStep(env, entries, seen, rest, made, cache, key);
    AskedStep(env, seen, rest, key);
    AppendMore(first, made, key);
    var rels, ended := Ask(env, store, key, seen[key]);
    ok, left, more, asked := !ended, rest - {key}, cache[key := rels], made + [key];
  }

  lemma AppendMore(a: seq<string>, b: seq<string>, x: string)
    ensures a + b + [x] == a + (b + [x])
  {
  }

  /** How many of the keys asked so far gave no answer. */
  ghost function SilentAsked(env: Env, seen: map<string, Source>, rest: set<string>): nat
  {
    |Silent(env, seen) - rest|
  }

  lemma AllSilent(env: Env, seen: map<string, Source>)
    ensures SilentAsked(env, seen, seen.Keys) == 0 && SilentAsked(env, seen, {}) == |Silent(env, seen)|
  {
    assert Silent(env, seen) - {} == Silent(env, seen);
    assert Silent(env, seen) - seen.Keys == {};
  }

  lemma AskedStep(env: Env, seen: map<string, Source>, rest: set<string>, key: string)
    requires key in rest && key in seen
    ensures SilentAsked(env, seen, rest - {key}) ==
              SilentAsked(env, seen, rest) + (if env.fetch(seen[key]).None? then 1 else 0)
    ensures SilentAsked(env, seen, rest - {key}) <= |Silent(env, seen)|
  {
    var silent := Silent(env, seen);
    assert silent - (rest - {key}) == silent - rest + if key in silent then {key} else {};
    SubsetIsSmaller(silent - (rest - {key}), silent);
  }

  lemma SubsetIsSmaller(a: set<string>, b: set<string>)
    requires a <= b
    ensures |a| <= |b|
  {
    assert b == a + (b - a);
  }

  /** applyContainer: the row becomes what computeUpdate says, or goes. */
  method Apply(env: Env, store: Store, e: Entry, rels: seq<Updater.Release>) returns (ok: bool)
    requires env.Considered(e) && Tags.ParseVer(env.parse, "").None?
    modifies store`statements, store`updates
    ensures forall id :: id != e.id ==> RowOf(store.updates, id) == RowOf(old(store.updates), id)
    ensures ok ==> env.Recomputed(e, rels, RowOf(store.updates, e.id))
    ensures !ok ==> store.updates == old(store.updates)
    ensures store.statements == old(store.statements) + 1 && ok == !store.faults(old(store.statements))
  {
    var u := Updater.ComputeUpdate(env.parse, e.container, env.Vcs(e), env.includePre, rels, env.upToDate(e));
    if u.None? {
      ok := store.DeleteUpdate(e.id);
    } else {
      ok := store.UpsertUpdate(e.id, u.value);
    }
  }

  /** The first n items have the row computed for them and rows of other containers are as before. */
  ghost predicate Persisted(env: Env, items: seq<Item>, cache: map<string, seq<Updater.Release>>, n: nat,
                            before: map<nat, Updater.Update>, after: map<nat, Updater.Update>)
    requires n <= |items| && forall it :: it in items ==> it.key in cache
  {
    && (forall id :: (forall it :: it in items ==> it.e.id != id) ==> RowOf(after, id) == RowOf(before, id))
    && forall k :: 0 <= k < n ==> env.Recomputed(items[k].e, cache[items[k].key], RowOf(after, items[k].e.id))
  }

  lemma PersistStep(env: Env, items: seq<Item>, cache: map<string, seq<Updater.Release>>, n: nat,
                    before: map<nat, Updater.Update>, now: map<nat, Updater.Update>, after: map<nat, Updater.Update>,
                    ok: bool)
    requires n < |items| && DistinctItems(items) && forall it :: it in items ==> it.key in cache
    requires Persisted(env, items, cache, n, before, now)
    requires forall id :: id != items[n].e.id ==> RowOf(after, id) == RowOf(now, id)
    requires ok ==> env.Recomputed(items[n].e, cache[items[n].key], RowOf(after, items[n].e.id))
    ensures Persisted(env, items, cache, if ok then n + 1 else n, before, after)
  {
    RowsBelow(items, n, now, after);
    forall id | forall it :: it in items ==> it.e.id != id ensures RowOf(after, id) == RowOf(before, id) {
      assert items[n] in items && RowOf(now, id) == RowOf(before, id);
    }
  }

  lemma RowsBelow(items: seq<Item>, n: nat, now: map<nat, Updater.Update>, after: map<nat, Updater.Update>)
    requires n < |items| && DistinctItems(items)
    requires forall id :: id != items[n].e.id ==> RowOf(after, id) == RowOf(now, id)
    ensures forall k :: 0 <= k < n ==> RowOf(after, items[k].e.id) == RowOf(now, items[k].e.id)
  {
  }

  /** Second pass: recompute and persist each resolved container. It gets through exactly when the context
      lasts and no statement is lost. */
  method SecondPass(env: Env, store: Store, items: seq<Item>, cache: map<string, seq<Updater.Release>>)
    returns (ok: bool)
    requires Tags.ParseVer(env.parse, "").None? && store.looks <= store.cancelAt
    requires forall it :: it in items ==> env.Considered(it.e) && it.key in cache
    requires DistinctItems(items)
    modifies store`statements, store`updates, store`looks
    ensures Persisted(env, items, cache, if ok then |items| else 0, old(store.updates), store.updates)
    ensures ok <==> old(store.looks) + |items| <= store.cancelAt &&
                    NoFaults(store.faults, old(store.statements), old(store.statements) + |items|)
  {
    var i := 0;
    while i < |items|
      invariant 0 <= i <= |items| && store.statements == old(store.statements) + i
      invariant store.looks == old(store.looks) + i <= store.cancelAt
      invariant NoFaults(store.faults, old(store.statements), store.statements)
      invariant Persisted(env, items, cache, i, old(store.updates), store.updates)
    {
      var applied := PersistNext(env, store, items, cache, i, old(store.updates));
      if !applied {
        return false;
      }
      i := i + 1;
    }
    ok := true;
  }

  method PersistNext(env: Env, store: Store, items: seq<Item>, cache: map<string, seq<Updater.Release>>, i: nat,
                     ghost first: map<nat, Updater.Update>)
    returns (ok: bool)
    requires i < |items| && Tags.ParseVer(env.parse, "").None?
    requires forall it :: it in items ==> env.Considered(it.e) && it.key in cache
    requires DistinctItems(items) && Persisted(env, items, cache, i, first, store.updates)
    modifies store`statements, store`updates, store`looks
    ensures Persisted(env, items, cache, if ok then i + 1 else i, first, store.updates)
    ensures ok <==> old(store.looks) < store.cancelAt && !store.faults(old(store.statements))
    ensures ok ==> store.looks == old(store.looks) + 1 && store.statements == old(store.statements) + 1
  {
    assert items[i] in items;
    var ended := store.Ended();
    if ended {
      return false;
    }
    ghost var now := store.updates;
    ok := Apply(env, store, items[i].e, cache[items[i].key]);
    PersistStep(env, items, cache, i, first, now, store.updates, ok);
  }

  /** What a cycle leaves for the i-th listed container: once it succeeded, the row computed from the
      releases of the first source with the container's key, if it is considered at all; and whether or not
      it succeeded, what the first pass left otherwise. */
  ghost predicate Settled(env: Env, entries: seq<Entry>, i: nat, before: map<nat, Updater.Update>,
                          after: map<nat, Updater.Update>, ok: bool, faults: nat -> bool, start: nat)
    requires i < |entries|
  {
    var e := entries[i];
    if !e.pinned && !env.ignored(e) && env.resolve(e).Some? then
      ok ==> env.Recomputed(e, env.ReleasesFor(entries, env.KeyOf(e)), RowOf(after, e.id))
    else Cleared(env, entries, i, before, after, faults, start)
  }

  /** The keys of the containers considered. */
  function Keys(env: Env, entries: seq<Entry>): set<string>
  {
    set e | e in entries && env.Considered(e) :: env.KeyOf(e)
  }

  function SilentKeys(env: Env, entries: seq<Entry>): set<string>
  {
    set key | key in Keys(env, entries) && env.SourceFor(entries, key).Some? &&
              env.fetch(env.SourceFor(entries, key).value).None?
  }

  /** The cycle gets through: the context outlasts the look before it, one after each unanswered request and
      one for each container considered, and none of the statements that write their rows is lost. */
  ghost predicate GetsThrough(env: Env, entries: seq<Entry>, faults: nat -> bool, cancelAt: nat, looks: nat, start: nat)
  {
    var n := |Items(env, entries)|;
    && looks + 1 + |SilentKeys(env, entries)| + n <= cancelAt
    && NoFaults(faults, start + Deletes(env, entries), start + Deletes(env, entries) + n)
  }

  /** CheckAll, on the listing it got. */
  method CheckAll(env: Env, store: Store, entries: seq<Entry>) returns (ok: bool)
    requires Listed(entries, store.updates) && Tags.ParseVer(env.parse, "").None?
    modifies store
    ensures ok <==> GetsThrough(env, entries, store.faults, store.cancelAt, old(store.looks), old(store.statements))
    ensures OthersKept(entries, old(store.updates), store.updates)
    // Nothing is done for a context that has ended to begin with. Else pinned and ignored containers lose
    // their rows exactly as their own deletes get through, unresolvable ones keep theirs, and after success
    // every other one has the row computed from the releases of the first source with its key.
    ensures old(store.looks) >= store.cancelAt ==> store.updates == old(store.updates)
    ensures old(store.looks) < store.cancelAt ==> forall i :: 0 <= i < |entries| ==>
      Settled(env, entries, i, old(store.updates), store.updates, ok, store.faults, old(store.statements))
    // That is the row it would get on its own if that source is its own.
    ensures ok ==>
      forall e :: e in entries && env.Considered(e) && env.SourceFor(entries, env.KeyOf(e)) == env.resolve(e) ==>
      env.Recomputed(e, env.ReleasesOf(env.resolve(e)), RowOf(store.updates, e.id))
    // Upstream is asked once for each distinct key.
    ensures old(store.fetched) <= store.fetched
    ensures var made := store.fetched[|old(store.fetched)|..];
            && (forall i, j :: 0 <= i < j < |made| ==> made[i] != made[j])
            && (ok ==> forall e :: e in entries && env.Considered(e) ==> env.KeyOf(e) in made)
  {
    var ended := store.Ended();
    if ended {
      return false;
    }
    var items, seen := FirstPass(env, store, entries);
    ghost var cleared := store.updates;
    ItemsAre(env, entries);
    SeenAreKeys(env, entries, seen);
    var cache;
    ghost var made, unasked;
    ok, cache, made, unasked := FetchAll(env, store, entries, seen);
    if ok {
      forall it | it in items ensures it.key in seen { HasSource(env, entries, it.e); }
      ok := SecondPass(env, store, items, cache);
    }
    SettleAll(env, entries, items, old(store.updates), cleared, store.updates, ok, store.faults, old(store.statements));
    if ok {
      forall e | e in entries && env.Considered(e) ensures env.KeyOf(e) in made { HasSource(env, entries, e); }
      forall e | e in entries && env.Considered(e) && env.SourceFor(entries, env.KeyOf(e)) == env.resolve(e)
        ensures env.Recomputed(e, env.ReleasesOf(env.resolve(e)), RowOf(store.updates, e.id))
      {
        assert Item(e, env.KeyOf(e)) in items;
      }
    }
  }

  /** The second pass leaves alone what the first one left for the containers not considered. */
  lemma SettleAll(env: Env, entries: seq<Entry>, items: seq<Item>, before: map<nat, Updater.Update>,
                  cleared: map<nat, Updater.Update>, after: map<nat, Updater.Update>, ok: bool, faults: nat -> bool,
                  start: nat)
    requires DistinctIds(entries) && AllCleared(env, entries, |entries|, before, cleared, faults, start)
    requires forall it :: it in items <==> it.e in entries && env.Considered(it.e) && it.key == env.KeyOf(it.e)
    requires forall id :: (forall it :: it in items ==> it.e.id != id) ==> RowOf(after, id) == RowOf(cleared, id)
    requires ok ==> forall it :: it in items ==>
      env.Recomputed(it.e, env.ReleasesFor(entries, it.key), RowOf(after, it.e.id))
    ensures forall i :: 0 <= i < |entries| ==> Settled(env, entries, i, before, after, ok, faults, start)
  {
    forall i | 0 <= i < |entries| ensures Settled(env, entries, i, before, after, ok, faults, start) {
      var e := entries[i];
      if env.Considered(e) {
        assert Item(e, env.KeyOf(e)) in items;
      } else {
        forall it | it in items ensures it.e.id != e.id { assert it.e != e; }
        assert Cleared(env, entries, i, before, cleared, faults, start);
      }
    }
  }

  /** No pinned or ignored container is left a row exactly when no delete of the first pass is lost. */
  lemma NoneOfferedIff(env: Env, entries: seq<Entry>, before: map<nat, Updater.Update>,
                       after: map<nat, Updater.Update>, ok: bool, faults: nat -> bool, start: nat)
    requires Listed(entries, before)
    requires forall i :: 0 <= i < |entries| ==> Settled(env, entries, i, before, after, ok, faults, start)
    ensures (forall i :: 0 <= i < |entries| ==> NotOffered(env, entries[i], after))
            <==> NoFaults(faults, start, start + Deletes(env, entries))
  {
    forall i | 0 <= i < |entries|
      ensures NotOffered(env, entries[i], after) <==> DeleteGetsThrough(env, entries, i, faults, start)
    {
      assert entries[i] in entries && Settled(env, entries, i, before, after, ok, faults, start);
    }
    AllDeletesIff(env, entries, faults, start);
  }

  /** The i-th container's own delete, if the first pass makes one. */
  predicate DeleteGetsThrough(env: Env, entries: seq<Entry>, i: nat, faults: nat -> bool, start: nat)
    requires i < |entries|
  {
    Deleted(env, entries[i]) ==> !faults(start + Deletes(env, entries[..i]))
  }

  lemma AllDeletesIff(env: Env, entries: seq<Entry>, faults: nat -> bool, start: nat)
    ensures (forall i :: 0 <= i < |entries| ==> DeleteGetsThrough(env, entries, i, faults, start))
            <==> NoFaults(faults, start, start + Deletes(env, entries))
  {
    if forall i :: 0 <= i < |entries| ==> DeleteGetsThrough(env, entries, i, faults, start) {
      forall k | start <= k < start + Deletes(env, entries) ensures !faults(k) {
        var i := DeleteAt(env, entries, k - start);
        assert DeleteGetsThrough(env, entries, i, faults, start);
      }
    }
    forall i | 0 <= i < |entries| && Deleted(env, entries[i])
      ensures Deletes(env, entries[..i]) < Deletes(env, entries)
    {
      DeletesGrow(env, entries, i);
    }
  }

  /** A pinned or ignored container has no row. */
  ghost predicate NotOffered(env: Env, e: Entry, after: map<nat, Updater.Update>)
  {
    e.pinned || env.ignored(e) ==> RowOf(after, e.id) == None
  }

  /** The entry whose delete is the k-th. */
  lemma {:induction false} DeleteAt(env: Env, entries: seq<Entry>, k: nat) returns (i: nat)
    requires k < Deletes(env, entries)
    ensures i < |entries| && Deleted(env, entries[i]) && Deletes(env, entries[..i]) == k
  {
    i := |entries| - 1;
    if k < Deletes(env, entries[..i]) {
      var init := entries[..i];
      i := DeleteAt(env, init, k);
      assert init[..i] == entries[..i];
    }
  }

  lemma {:induction false} DeletesGrow(env: Env, entries: seq<Entry>, i: nat)
    requires i < |entries| && Deleted(env, entries[i])
    ensures Deletes(env, entries[..i]) < Deletes(env, entries)
  {
    var init := entries[..|entries| - 1];
    if i < |entries| - 1 {
      DeletesGrow(env, init, i);
      assert init[..i] == entries[..i];
    }
  }

  lemma SeenAreKeys(env: Env, entries: seq<Entry>, seen: map<string, Source>)
    requires SeenFirst(env, entries, seen)
    ensures seen.Keys == Keys(env, entries) && Silent(env, seen) == SilentKeys(env, entries)
  {
    forall key ensures key in seen <==> key in Keys(env, entries) {
      if key in Keys(env, entries) {
        var e :| e in entries && env.Considered(e) && env.KeyOf(e) == key;
        HasSource(env, entries, e);
      }
      if key in seen { SourceIsThere(env, entries, key); }
    }
  }

  lemma {:induction false} SourceIsThere(env: Env, entries: seq<Entry>, key: string)
    requires env.SourceFor(entries, key).Some?
    ensures exists e :: e in entries && env.Considered(e) && env.KeyOf(e) == key
  {
    if !(env.Considered(entries[0]) && env.KeyOf(entries[0]) == key) { SourceIsThere(env, entries[1..], key); }
  }

  lemma {:induction false} HasSource(env: Env, entries: seq<Entry>, e: Entry)
    requires e in entries && env.Considered(e)
    ensures env.SourceFor(entries, env.KeyOf(e)).Some?
  {
    if !(env.Considered(entries[0]) && env.KeyOf(entries[0]) == env.KeyOf(e)) { HasSource(env, entries[1..], e); }
  }

  // ---------------------------------------------------------------- sharing keys

  /** The parts of a source that its key is made of; base URLs are not among them. */
  predicate SameKeyed(a: Source, b: Source)
  {
    a.kind == b.kind &&
    match a.kind
    case Registry => a.registry + "/" + a.repository == b.registry + "/" + b.repository
    case Other => true
    case _ => a.repo == b.repo
  }

  function Prefix(kind: SourceType): string
  {
    match kind
    case GitHub => "gh:"
    case GitLab => "gl:"
    case Gitea => "gt:"
    case Registry => "reg:"
    case Other => "none"
  }

  function Rest(a: Source): string
  {
    match a.kind
    case Registry => a.registry + "/" + a.repository
    case Other => ""
    case _ => a.repo
  }

  lemma KeyParts(a: Source)
    ensures RepoKey(a) == Prefix(a.kind) + Rest(a)
    ensures RepoKey(a)[0] == Prefix(a.kind)[0] && RepoKey(a)[1] == Prefix(a.kind)[1]
  {
  }

  /** Which sources share a key: two self-hosted projects of one name do, whatever their hosts. */
  lemma KeysAgreeIff(a: Source, b: Source)
    ensures RepoKey(a) == RepoKey(b) <==> SameKeyed(a, b)
  {
    KeyParts(a);
    KeyParts(b);
    if RepoKey(a) == RepoKey(b) {
      assert Prefix(a.kind)[0] == Prefix(b.kind)[0] && Prefix(a.kind)[1] == Prefix(b.kind)[1];
      var n := |Prefix(a.kind)|;
      assert (Prefix(a.kind) + Rest(a))[n..] == Rest(a) && (Prefix(a.kind) + Rest(b))[n..] == Rest(b);
    }
  }

  /** A container is judged by its own upstream, whatever upstream answers, exactly when the first
      container listed with its key has the very same source. */
  lemma OwnReleasesIff(env: Env, entries: seq<Entry>, e: Entry)
    requires e in entries && env.Considered(e)
    ensures (forall f: Source -> Option<seq<Updater.Release>> ::
               env.(fetch := f).ReleasesFor(entries, env.KeyOf(e)) == env.(fetch := f).ReleasesOf(env.resolve(e)))
            <==> env.SourceFor(entries, env.KeyOf(e)) == env.resolve(e)
  {
    var key := env.KeyOf(e);
    HasSource(env, entries, e);
    forall f: Source -> Option<seq<Updater.Release>>
      ensures env.(fetch := f).SourceFor(entries, key) == env.SourceFor(entries, key)
    {
      SourceIgnoresAnswers(env, f, entries, key);
    }
    if env.SourceFor(entries, key) != env.resolve(e) {
      var own := env.resolve(e).value;
      var f := (s: Source) => Some(if s == own then [] else [Updater.Release("1.0.0", false)]);
      assert env.(fetch := f).ReleasesFor(entries, key) != env.(fetch := f).ReleasesOf(env.resolve(e));
    }
  }

  lemma {:induction false} SourceIgnoresAnswers(env: Env, f: Source -> Option<seq<Updater.Release>>,
                                                entries: seq<Entry>, key: string)
    ensures env.(fetch := f).SourceFor(entries, key) == env.SourceFor(entries, key)
  {
    if entries != [] { SourceIgnoresAnswers(env, f, entries[1..], key); }
  }

  // ---------------------------------------------------------------- two hosts

  function Project(host: string): Source { Source(Gitea, "team/app", host, "", "") }

  /** Two containers on version 1.0.0 of projects of one name; only the first one's host has a 2.0.0. */
  function TwoHosts(): (Env, seq<Entry>)
  {
    var running := Updater.Container("1.0.0", "", "", "");
    var one, two := Entry(1, false, running, false), Entry(2, false, running, false);
    var parse := (s: string) =>
      if s == "1.0.0" then Some(Semver.Ver(1, 0, 0, "")) else if s == "2.0.0" then Some(Semver.Ver(2, 0, 0, ""))
      else None;
    var fetch := (s: Source) =>
      Some([Updater.Release(if s.baseUrl == "https://git.example" then "2.0.0" else "1.0.0", false)]);
    (Env(e => false, (e: Entry) => Some(Project(if e.id == 1 then "https://git.example" else "https://codeberg.org")),
         fetch, e => None, parse, false),
     [one, two])
  }

  lemma PlainVersionTag(parse: Tags.Parser, tag: string, v: Semver.Ver)
    requires tag != "" && !Strings.IsSpace(tag[0]) && !Strings.IsSpace(tag[|tag| - 1]) && parse(tag) == Some(v)
    ensures Tags.ParseVer(parse, tag) == Some(v)
  {
    assert Strings.TrimSpace(tag) == tag;
  }

  /** One release of a newer major version is offered whatever the precision of the pin; a list that only
      has the version being run offers nothing. */
  lemma OneRelease(read: Updater.Reader, c: Updater.Container, vcs: bool, tag: string, u: Option<Updater.Update>)
    requires read.ver(c.tag) == Some(Semver.Ver(1, 0, 0, ""))
    requires Updater.Decides(read, c, vcs, [Updater.Release(tag, false)], None, u)
    ensures read.ver(tag) == Some(Semver.Ver(2, 0, 0, "")) ==> u == Some(Updater.Update(c.tag, tag, 1))
    ensures tag == c.tag ==> u == None
  {
    var rels, cur, precision := [Updater.Release(tag, false)], Semver.Ver(1, 0, 0, ""), read.precision(c.tag);
    assert rels[1..] == [];
    assert Updater.CountCandidates(read, cur, precision, rels) == if Updater.Candidate(read, cur, precision, tag)
        then 1 else 0;
    Semver.Antisymmetric(cur, cur);
  }

  /** In such a cycle the second container is told to move to a release its own upstream does not have. */
  lemma WrongRow(before: map<nat, Updater.Update>, after: map<nat, Updater.Update>, faults: nat -> bool, start: nat)
    requires Settled(TwoHosts().0, TwoHosts().1, 1, before, after, true, faults, start)
    ensures var (env, entries) := TwoHosts();
            && RowOf(after, 2) == Some(Updater.Update("1.0.0", "2.0.0", 1))
            && !env.Recomputed(entries[1], env.ReleasesOf(env.resolve(entries[1])), RowOf(after, 2))
  {
    var (env, entries) := TwoHosts();
    var e, read := entries[1], Updater.TagReader(env.parse);
    TwoHostSources();
    TwoHostReader();
    assert Updater.Decides(read, e.container, true, [Updater.Release("2.0.0", false)], None, RowOf(after, 2));
    TwoDecisions(read, e.container, RowOf(after, 2));
  }

  lemma TwoHostReader()
    ensures var read := Updater.TagReader(TwoHosts().0.parse);
            read.ver("1.0.0") == Some(Semver.Ver(1, 0, 0, "")) && read.ver("2.0.0") == Some(Semver.Ver(2, 0, 0, ""))
    ensures TwoHosts().1[1].container.tag == "1.0.0"
  {
    var parse := TwoHosts().0.parse;
    PlainVersionTag(parse, "1.0.0", Semver.Ver(1, 0, 0, ""));
    PlainVersionTag(parse, "2.0.0", Semver.Ver(2, 0, 0, ""));
  }

  /** The first container's source serves the second one. */
  lemma TwoHostSources()
    ensures var (env, entries) := TwoHosts();
            var e := entries[1];
            && env.Considered(e) && env.Vcs(e) && env.upToDate(e) == None && e.id == 2
            && Updater.Offered(env.ReleasesFor(entries, env.KeyOf(e)), env.includePre) ==
              [Updater.Release("2.0.0", false)]
            && Updater.Offered(env.ReleasesOf(env.resolve(e)), env.includePre) == [Updater.Release("1.0.0", false)]
  {
    var (env, entries) := TwoHosts();
    var e := entries[1];
    assert env.KeyOf(entries[0]) == "gt:team/app" == env.KeyOf(e);
    assert env.SourceFor(entries, env.KeyOf(e)) == env.resolve(entries[0]);
    OnlyOne([Updater.Release("2.0.0", false)]);
    OnlyOne([Updater.Release("1.0.0", false)]);
  }

  lemma TwoDecisions(read: Updater.Reader, c: Updater.Container, u: Option<Updater.Update>)
    requires c.tag == "1.0.0" && read.ver("1.0.0") == Some(Semver.Ver(1, 0, 0, ""))
    requires read.ver("2.0.0") == Some(Semver.Ver(2, 0, 0, ""))
    requires Updater.Decides(read, c, true, [Updater.Release("2.0.0", false)], None, u)
    ensures u == Some(Updater.Update("1.0.0", "2.0.0", 1))
    ensures !Updater.Decides(read, c, true, [Updater.Release("1.0.0", false)], None, u)
  {
    OneRelease(read, c, true, "2.0.0", u);
    if Updater.Decides(read, c, true, [Updater.Release("1.0.0", false)], None, u) {
      OneRelease(read, c, true, "1.0.0", u);
    }
  }

  lemma OnlyOne(rels: seq<Updater.Release>)
    requires |rels| == 1 && !rels[0].prerelease
    ensures Updater.Offered(rels, false) == rels
  {
    assert rels[1..] == [];
  }

  /** It happens: a cycle over these two containers succeeds and leaves the wrong row. */
  method TwoHostCycle() returns (store: Store, ok: bool)
    ensures fresh(store) && ok && RowOf(store.updates, 2) == Some(Updater.Update("1.0.0", "2.0.0", 1))
    ensures var (env, entries) := TwoHosts();
            !env.Recomputed(entries[1], env.ReleasesOf(env.resolve(entries[1])), RowOf(store.updates, 2))
  {
    var (env, entries) := TwoHosts();
    store := new Store(k => false, 3, map[]);
    NoVersionInNothing(env.parse);
    TwoHostsGetThrough(store.faults);
    ok := CheckAll(env, store, entries);
    WrongRow(map[], store.updates, store.faults, 0);
  }

  lemma TwoHostsGetThrough(faults: nat -> bool)
    requires forall k :: !faults(k)
    ensures var (env, entries) := TwoHosts(); GetsThrough(env, entries, faults, 3, 0, 0)
  {
    var (env, entries) := TwoHosts();
    assert entries[..1][..0] == [] && entries == entries[..1] + [entries[1]];
    assert Items(env, entries[..1]) == Items(env, entries[..0]) + [Item(entries[0], env.KeyOf(entries[0]))];
    assert |Items(env, entries)| == 2;
    assert SilentKeys(env, entries) == {};
  }

  /** It happens too: with a row in place, a delete that is lost and nothing else to do, the cycle succeeds
      and the pinned container keeps its row. */
  method PinnedKeepsItsRow(env: Env, container: Updater.Container, u: Updater.Update) returns (store: Store, ok: bool)
    requires Tags.ParseVer(env.parse, "").None?
    ensures fresh(store) && ok && RowOf(store.updates, 1) == Some(u)
  {
    var entries := [Entry(1, true, container, true)];
    store := new Store(k => k == 0, 1, map[1 := u]);
    assert entries[..0] == [] && env.Skipped(entries[0]);
    assert Keys(env, entries) == {} && Items(env, entries) == [];
    assert |SilentKeys(env, entries)| == 0;
    assert GetsThrough(env, entries, store.faults, 1, 0, 0);
    ok := CheckAll(env, store, entries);
    assert Settled(env, entries, 0, map[1 := u], store.updates, ok, store.faults, 0);
  }

  lemma NoVersionInNothing(parse: Tags.Parser)
    requires parse("") == None
    ensures Tags.ParseVer(parse, "") == None
  {
    assert Tags.Unprefixed("") == "";
  }
}
