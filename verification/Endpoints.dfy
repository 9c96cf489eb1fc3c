/** The pool of Docker clients for directly polled hosts (endpointPool and endpointFingerprint,
    internal/server/endpoints.go). */
module Endpoints {
  import opened Wrappers
  import opened Strings

  datatype Settings = Settings(host: string, ca: string, cert: string, key: string)

  const NUL := '\0'

  function Fingerprint(s: Settings): string
  {
    s.host + [NUL] + (s.ca + [NUL] + (s.cert + [NUL] + s.key))
  }

  predicate NulFree(s: Settings)
  {
    NUL !in s.host && NUL !in s.ca && NUL !in s.cert && NUL !in s.key
  }

  function Nuls(s: string): nat
  {
    if s == "" then 0 else (if s[0] == NUL then 1 else 0) + Nuls(s[1..])
  }

  lemma {:induction false} NulsJoin(a: string, b: string)
    ensures Nuls(a + b) == Nuls(a) + Nuls(b)
  {
    if a == "" {
      assert a + b == b;
    } else {
      assert (a + b)[1..] == a[1..] + b;
      NulsJoin(a[1..], b);
    }
  }

  lemma {:induction false} NoNuls(s: string)
    ensures Nuls(s) == 0 <==> NUL !in s
  {
    if s != "" {
      assert s == [s[0]] + s[1..];
      NoNuls(s[1..]);
    }
  }

  lemma NulsOfFingerprint(s: Settings)
    ensures Nuls(Fingerprint(s)) == Nuls(s.host) + Nuls(s.ca) + Nuls(s.cert) + Nuls(s.key) + 3
  {
    NulsOfJoined(s.cert, s.key);
    NulsOfJoined(s.ca, s.cert + [NUL] + s.key);
    NulsOfJoined(s.host, s.ca + [NUL] + (s.cert + [NUL] + s.key));
  }

  lemma NulsOfJoined(a: string, b: string)
    ensures Nuls(a + [NUL] + b) == Nuls(a) + 1 + Nuls(b)
  {
    NulsJoin(a + [NUL], b);
    NulsJoin(a, [NUL]);
    assert [NUL][1..] == "";
  }

  lemma NulFreeIffThreeNuls(s: Settings)
    ensures NulFree(s) <==> Nuls(Fingerprint(s)) == 3
  {
    NulsOfFingerprint(s);
    NoNuls(s.host);
    NoNuls(s.ca);
    NoNuls(s.cert);
    NoNuls(s.key);
  }

  lemma PeelEqual(a: string, b: string, x: string, y: string)
    requires NUL !in a && NUL !in b && a + [NUL] + x == b + [NUL] + y
    ensures a == b && x == y
  {
    SplitAt(a, x, NUL);
    SplitAt(b, y, NUL);
    assert [a] + Split(x, NUL) == [b] + Split(y, NUL);
    assert ([a] + Split(x, NUL))[0] == ([b] + Split(y, NUL))[0];
    assert (a + [NUL] + x)[|a| + 1..] == x && (b + [NUL] + y)[|b| + 1..] == y;
  }

  lemma SameFingerprint(a: Settings, b: Settings)
    requires NulFree(a) && Fingerprint(a) == Fingerprint(b)
    ensures a == b
  {
    NulFreeIffThreeNuls(a);
    NulFreeIffThreeNuls(b);
    PeelEqual(a.host, b.host, a.ca + [NUL] + (a.cert + [NUL] + a.key), b.ca + [NUL] + (b.cert + [NUL] + b.key));
    PeelEqual(a.ca, b.ca, a.cert + [NUL] + a.key, b.cert + [NUL] + b.key);
    PeelEqual(a.cert, b.cert, a.key, b.key);
  }

  /** Settings with a NUL somewhere share their fingerprint with other settings: the NUL can serve as a
      separator instead. */
  function Shifted(s: Settings): Settings
    requires !NulFree(s)
  {
    if NUL in s.host then Settings(Before(s.host, NUL), After(s.host, NUL) + [NUL] + s.ca, s.cert, s.key)
    else if NUL in s.ca then Settings(s.host + [NUL] + Before(s.ca, NUL), After(s.ca, NUL), s.cert, s.key)
    else if NUL in s.cert then Settings(s.host, s.ca + [NUL] + Before(s.cert, NUL), After(s.cert, NUL), s.key)
    else Settings(s.host, s.ca, s.cert + [NUL] + Before(s.key, NUL), After(s.key, NUL))
  }

  lemma ShiftedCollides(s: Settings)
    requires !NulFree(s)
    ensures Fingerprint(Shifted(s)) == Fingerprint(s) && Shifted(s) != s
  {
    var t := Shifted(s);
    if NUL in s.host {
      BeforeFacts(s.host, NUL);
      Regroup(t.host, After(s.host, NUL), s.ca + [NUL] + (s.cert + [NUL] + s.key));
      Regroup(After(s.host, NUL), s.ca, s.cert + [NUL] + s.key);
      assert |t.host| < |s.host|;
    } else if NUL in s.ca {
      BeforeFacts(s.ca, NUL);
      Regroup(s.host, Before(s.ca, NUL), t.ca + [NUL] + (s.cert + [NUL] + s.key));
      Regroup(Before(s.ca, NUL), t.ca, s.cert + [NUL] + s.key);
      assert |t.host| > |s.host|;
    } else if NUL in s.cert {
      BeforeFacts(s.cert, NUL);
      Regroup(s.ca, Before(s.cert, NUL), t.cert + [NUL] + s.key);
      Regroup(Before(s.cert, NUL), t.cert, s.key);
      assert |t.ca| > |s.ca|;
    } else {
      BeforeFacts(s.key, NUL);
      Regroup(s.cert, Before(s.key, NUL), t.key);
      assert |t.cert| > |s.cert|;
    }
  }

  lemma Regroup(a: string, b: string, c: string)
    ensures (a + [NUL] + b) + [NUL] + c == a + [NUL] + (b + [NUL] + c)
  {
  }

  /** A fingerprint identifies its settings exactly when none of the four contains a NUL. */
  lemma FingerprintIdentifiesIff(a: Settings)
    ensures (forall b :: Fingerprint(b) == Fingerprint(a) ==> b == a) <==> NulFree(a)
  {
    if NulFree(a) {
      forall b | Fingerprint(b) == Fingerprint(a) ensures b == a { SameFingerprint(a, b); }
    } else {
      ShiftedCollides(a);
    }
  }

  // ---------------------------------------------------------------- the pool

  type ClientId = nat

  /** client is None when building it failed; that failure is remembered too. */
  datatype Entry = Entry(fingerprint: string, client: Option<ClientId>)

  ghost predicate Live(entries: map<string, Entry>, c: ClientId)
  {
    exists id :: id in entries && entries[id].client == Some(c)
  }

  /** Every client ever opened is held by exactly one entry or was closed exactly once, and each entry's
      client was built from settings with the entry's fingerprint. */
  ghost predicate Conserved(entries: map<string, Entry>, built: map<ClientId, Settings>, closed: seq<ClientId>)
  {
    && (forall i, j :: 0 <= i < j < |closed| ==> closed[i] != closed[j])
    && (forall c :: c in closed ==> c in built && !Live(entries, c))
    && (forall c :: c in built ==> c in closed || Live(entries, c))
    && (forall id :: id in entries && entries[id].client.Some? ==>
          entries[id].client.value in built && Fingerprint(built[entries[id].client.value]) == entries[id].fingerprint)
    && (forall id, id' :: id in entries && id' in entries && id != id' && entries[id].client.Some? ==>
          entries[id].client != entries[id'].client)
  }

  /** With no entries left, every client that was ever opened has been closed, once. */
  lemma NothingLeaks(entries: map<string, Entry>, built: map<ClientId, Settings>, closed: seq<ClientId>)
    requires Conserved(entries, built, closed) && entries == map[]
    ensures forall c :: c in built <==> c in closed
    ensures |closed| == |built|
  {
    DistinctCount(closed);
    assert built.Keys == Elements(closed);
  }

  function Elements(s: seq<ClientId>): set<ClientId> { set c | c in s }

  lemma {:induction false} DistinctCount(s: seq<ClientId>)
    requires forall i, j :: 0 <= i < j < |s| ==> s[i] != s[j]
    ensures |Elements(s)| == |s|
  {
    if s == [] {
      assert Elements(s) == {};
    } else {
      var n := |s| - 1;
      DistinctCount(s[..n]);
      assert s[n] !in s[..n];
      assert forall c :: c in s <==> c in s[..n] || c == s[n];
      assert Elements(s) == Elements(s[..n]) + {s[n]};
    }
  }

  /** The client to close when an entry goes. */
  function Holding(entries: map<string, Entry>, id: string): seq<ClientId>
  {
    if id in entries && entries[id].client.Some? then [entries[id].client.value] else []
  }

  lemma CloseOne(entries: map<string, Entry>, built: map<ClientId, Settings>, closed: seq<ClientId>, id: string)
    requires Conserved(entries, built, closed) && id in entries
    ensures Conserved(entries - {id}, built,
      if entries[id].client.Some? then closed + [entries[id].client.value]
      else closed)
  {
    var rest := entries - {id};
    forall c: ClientId | Live(entries, c) && entries[id].client != Some(c) ensures Live(rest, c) {
      var k :| k in entries && entries[k].client == Some(c);
      assert k in rest;
    }
    forall c: ClientId | Live(rest, c) ensures Live(entries, c) && entries[id].client != Some(c) {
      var k :| k in rest && rest[k].client == Some(c);
      assert entries[k].client == Some(c) && k != id;
    }
    if entries[id].client.Some? { assert Live(entries, entries[id].client.value); }
  }

  lemma OpenOne(entries: map<string, Entry>, built: map<ClientId, Settings>, closed: seq<ClientId>, id: string,
                s: Settings, client: Option<ClientId>)
    requires Conserved(entries, built, closed) && id !in entries && (client.Some? ==> client.value !in built)
    ensures Conserved(entries[id := Entry(Fingerprint(s), client)],
                      if client.Some? then built[client.value := s] else built, closed)
  {
    var entries' := entries[id := Entry(Fingerprint(s), client)];
    assert entries'[id].client == client;
    forall c: ClientId ensures Live(entries', c) <==> Live(entries, c) || client == Some(c) {
      if Live(entries, c) {
        var k :| k in entries && entries[k].client == Some(c);
        assert entries'[k].client == Some(c);
      }
    }
  }

  class Pool {
    var entries: map<string, Entry>
    ghost var built: map<ClientId, Settings>
    ghost var closed: seq<ClientId>
    var nextClient: ClientId

    ghost predicate Valid()
      reads this
    {
      Conserved(entries, built, closed) && forall c :: c in built ==> c < nextClient
    }

    constructor ()
      ensures Valid() && entries == map[] && built == map[] && closed == []
    {
      entries, built, closed, nextClient := map[], map[], [], 0;
    }

    /** dockerx.New: a fresh client built from these settings, or an error. */
    method Open(s: Settings) returns (client: Option<ClientId>)
      requires forall c :: c in built ==> c < nextClient
      modifies this`built, this`nextClient
      ensures client.Some? ==> client.value !in old(built) && built == old(built)[client.value := s]
      ensures client.None? ==> built == old(built)
      ensures forall c :: c in built ==> c < nextClient
    {
      var works: bool := *;
      client := None;
      if works {
        client := Some(nextClient);
        built, nextClient := built[nextClient := s], nextClient + 1;
      }
    }

    method Close(c: ClientId)
      modifies this`closed
      ensures closed == old(closed) + [c]
    {
      closed := closed + [c];
    }

    /** get. */
    method Get(id: string, s: Settings) returns (client: Option<ClientId>)
      requires Valid()
      modifies this
      ensures Valid()
      // The client handed out is open, and was built from settings with this fingerprint: these very
      // settings, when they are free of NULs.
      ensures client.Some? ==>
        client.value in built && client.value !in closed && Fingerprint(built[client.value]) == Fingerprint(s)
      ensures client.Some? && NulFree(s) ==> built[client.value] == s
      // Unchanged settings get the same answer, error or client, without touching anything.
      ensures id in old(entries) && old(entries)[id].fingerprint == Fingerprint(s) ==>
        client == old(entries)[id].client && entries == old(entries) && built == old(built) && closed == old(closed)
      // Changed ones replace this server's entry only, closing its old client.
      ensures !(id in old(entries) && old(entries)[id].fingerprint == Fingerprint(s)) ==>
        && entries == old(entries)[id := Entry(Fingerprint(s), client)]
        && closed == old(closed) + Holding(old(entries), id)
        && (client.Some? ==> client.value !in old(built) && built == old(built)[client.value := s])
        && (client.None? ==> built == old(built))
    {
      var fp := Fingerprint(s);
      if id in entries && entries[id].fingerprint == fp {
        client := entries[id].client;
        if client.Some? {
          assert Live(entries, client.value);
          if NulFree(s) { SameFingerprint(s, built[client.value]); }
        }
        return;
      }
      client := Rebuild(id, s);
    }

    /** The part of get that replaces an entry. */
    method Rebuild(id: string, s: Settings) returns (client: Option<ClientId>)
      requires Valid()
      modifies this
      ensures Valid() && entries == old(entries)[id := Entry(Fingerprint(s), client)]
      ensures closed == old(closed) + Holding(old(entries), id)
      ensures client.Some? ==>
        client.value !in old(built) && client.value !in closed && built == old(built)[client.value := s]
      ensures client.None? ==> built == old(built)
    {
      CloseStale(id);
      ghost var rest, before := entries - {id}, built;
      client := Open(s);
      OpenOne(rest, before, closed, id, s, client);
      assert entries[id := Entry(Fingerprint(s), client)] == rest[id := Entry(Fingerprint(s), client)];
      entries := entries[id := Entry(Fingerprint(s), client)];
    }

    /** Closes the client an entry holds; the entry itself is about to go. */
    method CloseStale(id: string)
      requires Valid()
      modifies this`closed
      ensures Conserved(entries - {id}, built, closed) && closed == old(closed) + Holding(entries, id)
    {
      if id in entries {
        CloseOne(entries, built, closed, id);
        if entries[id].client.Some? { Close(entries[id].client.value); }
      } else {
        assert entries - {id} == entries;
      }
    }

    /** forget. */
    method Forget(id: string)
      requires Valid()
      modifies this
      ensures Valid() && entries == old(entries) - {id} && built == old(built)
      ensures closed == old(closed) + Holding(old(entries), id)
    {
      if id in entries {
        CloseOne(entries, built, closed, id);
        if entries[id].client.Some? { Close(entries[id].client.value); }
        entries := entries - {id};
      }
    }

    /** closeAll. */
    method CloseAll()
      requires Valid()
      modifies this
      ensures Valid() && entries == map[] && built == old(built)
      ensures forall c :: c in built <==> c in closed
    {
      while entries != map[]
        invariant Valid() && built == old(built)
        decreases entries.Keys
      {
        var id :| id in entries;
        CloseOne(entries, built, closed, id);
        if entries[id].client.Some? { Close(entries[id].client.value); }
        entries := entries - {id};
      }
      NothingLeaks(entries, built, closed);
    }
  }
}
