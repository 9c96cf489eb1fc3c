/** Deciding whether a container's image has an update (computeUpdate and its helpers,
    internal/updater/updater.go). */
module Updater {
  import opened Wrappers
  import opened Semver
  import Tags

  /** How tags are read: the version in a tag, if any, and how many of its components are spelled out.
      The results below hold for every way of reading tags. */
  datatype Reader = Reader(ver: string -> Option<Ver>, precision: string -> nat)

  function TagReader(parse: Tags.Parser): Reader
  {
    Reader(tag => Tags.ParseVer(parse, tag), tag => Tags.Precision(tag))
  }

  datatype Release = Release(tag: string, prerelease: bool)

  datatype Container = Container(tag: string, digest: string, registry: string, repository: string)

  datatype Update = Update(current: string, latest: string, behind: nat)

  /** A full pin moves for any newer version, a partial pin only for a newer version line. */
  predicate IsTarget(cur: Ver, precision: nat, v: Ver)
  {
    if precision == 1 then v.major > cur.major
    else if precision == 2 then v.major > cur.major || (v.major == cur.major && v.minor > cur.minor)
    else GreaterThan(v, cur)
  }

  // ---------------------------------------------------------------- candidates

  /** A release is a candidate for a pin when it keeps the variant suffix and is worth moving to. */
  predicate Candidate(read: Reader, cur: Ver, precision: nat, tag: string)
  {
    var v := read.ver(tag);
    v.Some? && v.value.pre == cur.pre && IsTarget(cur, precision, v.value)
  }

  function CountCandidates(read: Reader, cur: Ver, precision: nat, rels: seq<Release>): nat
  {
    if rels == [] then 0
    else (if Candidate(read, cur, precision, rels[0].tag) then 1
    else 0) + CountCandidates(read, cur, precision, rels[1..])
  }

  /** tag is a candidate no other candidate is newer than. */
  ghost predicate Best(read: Reader, cur: Ver, precision: nat, rels: seq<Release>, tag: string)
  {
    && (exists r :: r in rels && r.tag == tag)
    && Candidate(read, cur, precision, tag)
    && forall r :: r in rels && Candidate(read, cur, precision, r.tag) ==>
         Compare(read.ver(r.tag).value, read.ver(tag).value) <= 0
  }

  function Offered(rels: seq<Release>, includePre: bool): seq<Release>
  {
    if rels == [] then []
    else (if rels[0].prerelease && !includePre then [] else [rels[0]]) + Offered(rels[1..], includePre)
  }

  /** The registry's word on a tag that may have moved in place. manifest is None when the registry
      could not be asked. */
  function Fallback(c: Container, upToDate: Option<bool>): (u: Option<Update>)
    ensures u.Some? <==> c.digest != "" && c.registry != "" && c.repository != "" && upToDate == Some(false)
    ensures u.Some? ==> u.value == Update(c.tag, c.tag, 1)
  {
    if c.digest == "" || c.registry == "" || c.repository == "" || upToDate != Some(false) then None
    else Some(Update(c.tag, c.tag, 1))
  }

  function FirstIndex(rels: seq<Release>, tag: string): (i: int)
    ensures -1 <= i < |rels|
    ensures i >= 0 ==> rels[i].tag == tag
    ensures forall k :: 0 <= k < (if i < 0 then |rels| else i) ==> rels[k].tag != tag
  {
    if rels == [] then -1
    else if rels[0].tag == tag then 0
    else
      var i := FirstIndex(rels[1..], tag);
      assert forall k :: 1 <= k < |rels| ==> rels[k] == rels[1..][k - 1];
      if i < 0 then -1 else i + 1
  }

  /** The newest version among the parseable releases. */
  ghost predicate Newest(read: Reader, rels: seq<Release>, tag: string)
  {
    && (exists r :: r in rels && r.tag == tag) && read.ver(tag).Some?
    && forall r :: r in rels && read.ver(r.tag).Some? ==>
         Compare(read.ver(r.tag).value, read.ver(tag).value) <= 0
  }

  /** A moved floating tag is labelled with the newest version there is, or else with itself. */
  ghost predicate NamesNewest(read: Reader, rels: seq<Release>, tag: string, latest: string)
  {
    if exists r :: r in rels && read.ver(r.tag).Some? then Newest(read, rels, latest) else latest == tag
  }

  /** What computeUpdate promises. vcs says the releases come from a version-control source rather than
      a registry listing. */
  ghost predicate Decides(read: Reader, c: Container, vcs: bool, rels: seq<Release>, upToDate: Option<bool>,
                          u: Option<Update>)
  {
    var cur := read.ver(c.tag);
    if rels == [] then u == Fallback(c, upToDate)
    else if cur.Some? then
      var n := CountCandidates(read, cur.value, read.precision(c.tag), rels);
      if n == 0 then u == Fallback(c, upToDate)
      else
        && u.Some? && u.value == Update(c.tag, u.value.latest, n)
        && Best(read, cur.value, read.precision(c.tag), rels, u.value.latest)
    else if vcs && FirstIndex(rels, c.tag) >= 0 then
      u == if FirstIndex(rels, c.tag) == 0 then None else Some(Update(c.tag, rels[0].tag, FirstIndex(rels, c.tag)))
    else
      && (u.Some? <==> Fallback(c, upToDate).Some?)
      && (u.Some? ==> u.value == Update(c.tag, u.value.latest, 1) && NamesNewest(read, rels, c.tag, u.value.latest))
  }

  // ---------------------------------------------------------------- sorting

  datatype Versioned = Versioned(rel: Release, ver: Ver)

  ghost predicate NewestFirst(s: seq<Versioned>)
  {
    forall i, j :: 0 <= i < j < |s| ==> Compare(s[i].ver, s[j].ver) >= 0
  }

  /** sort.Slice: some newest-first arrangement; the order among equal versions is not promised. */
  method SortNewestFirst(given: seq<Versioned>) returns (s: seq<Versioned>)
    ensures multiset(s) == multiset(given) && NewestFirst(s)
  {
    s := [];
    var i := 0;
    while i < |given|
      invariant 0 <= i <= |given| && multiset(s) == multiset(given[..i]) && NewestFirst(s)
    {
      var k := 0;
      while k < |s| && !GreaterThan(given[i].ver, s[k].ver)
        invariant 0 <= k <= |s| && forall j :: 0 <= j < k ==> Compare(given[i].ver, s[j].ver) <= 0
      {
        k := k + 1;
      }
      InsertKeepsOrder(s, k, given[i]);
      InsertIsPermutation(s, k, given[i]);
      assert given[..i + 1] == given[..i] + [given[i]];
      s := s[..k] + [given[i]] + s[k..];
      i := i + 1;
    }
    assert given[..i] == given;
  }

  lemma InsertKeepsOrder(s: seq<Versioned>, k: nat, x: Versioned)
    requires k <= |s| && NewestFirst(s)
    requires forall j :: 0 <= j < k ==> Compare(x.ver, s[j].ver) <= 0
    requires k < |s| ==> Compare(x.ver, s[k].ver) > 0
    ensures NewestFirst(s[..k] + [x] + s[k..])
  {
    forall j | 0 <= j < k ensures Compare(s[j].ver, x.ver) >= 0 { Antisymmetric(s[j].ver, x.ver); }
    forall j | k <= j < |s| ensures Compare(x.ver, s[j].ver) >= 0 {
      if j > k { Outranks(x.ver, s[k].ver, s[j].ver); }
    }
    InsertAnywhere(s, k, x);
  }

  lemma Outranks(a: Ver, b: Ver, c: Ver)
    requires Compare(a, b) >= 0 && Compare(b, c) >= 0
    ensures Compare(a, c) >= 0
  {
    Antisymmetric(a, b);
    Antisymmetric(b, c);
    Antisymmetric(a, c);
    Transitive(c, b, a);
  }

  lemma InsertAnywhere(s: seq<Versioned>, k: nat, x: Versioned)
    requires k <= |s| && NewestFirst(s)
    requires forall j :: 0 <= j < k ==> Compare(s[j].ver, x.ver) >= 0
    requires forall j :: k <= j < |s| ==> Compare(x.ver, s[j].ver) >= 0
    ensures NewestFirst(s[..k] + [x] + s[k..])
  {
    var t := s[..k] + [x] + s[k..];
    forall i, j | 0 <= i < j < |t| ensures Compare(t[i].ver, t[j].ver) >= 0 {
      assert t[i] == if i < k then s[i] else if i == k then x else s[i - 1];
      assert t[j] == if j < k then s[j] else if j == k then x else s[j - 1];
    }
  }

  lemma InsertIsPermutation(s: seq<Versioned>, k: nat, x: Versioned)
    requires k <= |s|
    ensures multiset(s[..k] + [x] + s[k..]) == multiset(s) + multiset{x}
  {
    assert s == s[..k] + s[k..];
  }

  function PairOf(read: Reader, r: Release): seq<Versioned>
  {
    var v := read.ver(r.tag);
    if v.Some? then [Versioned(r, v.value)] else []
  }

  /** Each release with a version, paired with it. */
  function Pairs(read: Reader, rels: seq<Release>): seq<Versioned>
  {
    if rels == [] then [] else PairOf(read, rels[0]) + Pairs(read, rels[1..])
  }

  lemma {:induction false} PairsAre(read: Reader, rels: seq<Release>)
    ensures forall p :: p in Pairs(read, rels) <==> p.rel in rels && read.ver(p.rel.tag) == Some(p.ver)
  {
    if rels != [] {
      PairsAre(read, rels[1..]);
      var head := PairOf(read, rels[0]);
      forall p ensures p in Pairs(read, rels) <==> p.rel in rels && read.ver(p.rel.tag) == Some(p.ver) {
        assert p in Pairs(read, rels) <==> p in head || p in Pairs(read, rels[1..]);
        assert p.rel in rels <==> p.rel == rels[0] || p.rel in rels[1..];
      }
    }
  }

  lemma PairsStep(read: Reader, done: seq<Versioned>, rels: seq<Release>, i: nat)
    requires i < |rels| && done + Pairs(read, rels[i..]) == Pairs(read, rels)
    ensures (done + PairOf(read, rels[i])) + Pairs(read, rels[i + 1..]) == Pairs(read, rels)
  {
    assert rels[i..][1..] == rels[i + 1..];
    assert (done + PairOf(read, rels[i])) + Pairs(read, rels[i + 1..]) ==
      done + (PairOf(read, rels[i]) + Pairs(read, rels[i + 1..]));
  }

  /** versionedReleases. */
  method VersionedReleases(read: Reader, rels: seq<Release>) returns (out: seq<Versioned>)
    ensures multiset(out) == multiset(Pairs(read, rels)) && NewestFirst(out)
    ensures forall p :: p in out <==> p.rel in rels && read.ver(p.rel.tag) == Some(p.ver)
  {
    PairsAre(read, rels);
    out := [];
    var i := 0;
    assert rels[0..] == rels;
    while i < |rels|
      invariant 0 <= i <= |rels| && out + Pairs(read, rels[i..]) == Pairs(read, rels)
    {
      PairsStep(read, out, rels, i);
      out := out + PairOf(read, rels[i]);
      i := i + 1;
    }
    out := SortNewestFirst(out);
    assert forall p :: p in out <==> p in multiset(Pairs(read, rels));
  }

  /** orderBySemver: newest first if every release has a version, else the upstream order. */
  method OrderBySemver(read: Reader, rels: seq<Release>) returns (out: seq<Release>)
    ensures multiset(out) == multiset(rels)
    ensures (exists r :: r in rels && read.ver(r.tag).None?) ==> out == rels
    ensures (forall r :: r in rels ==> read.ver(r.tag).Some?) ==>
      forall i, j :: 0 <= i < j < |out| && read.ver(out[i].tag).Some? && read.ver(out[j].tag).Some? ==>
      Compare(read.ver(out[i].tag).value, read.ver(out[j].tag).value) >= 0
  {
    var parsed: seq<Versioned> := [];
    var i := 0;
    while i < |rels|
      invariant 0 <= i <= |rels| && |parsed| == i
      invariant forall k :: 0 <= k < i ==> parsed[k].rel == rels[k] && read.ver(rels[k].tag) == Some(parsed[k].ver)
    {
      var v := read.ver(rels[i].tag);
      if v.None? {
        return rels;
      }
      parsed := parsed + [Versioned(rels[i], v.value)];
      i := i + 1;
    }
    assert Rels(parsed) == rels;
    var sorted := SortNewestFirst(parsed);
    RelsOfPermutation(sorted, parsed);
    out := Rels(sorted);
    forall i | 0 <= i < |out| ensures read.ver(out[i].tag) == Some(sorted[i].ver) {
      assert sorted[i] in multiset(parsed) && sorted[i] in parsed;
    }
  }

  /** In two arrangements of the same elements, the head of one is somewhere in the other. */
  lemma FindHead<T>(a: seq<T>, b: seq<T>) returns (i: nat)
    requires multiset(a) == multiset(b) && a != []
    ensures i < |b| && b[i] == a[0] && b == b[..i] + ([b[i]] + b[i + 1..])
    ensures multiset(a[1..]) == multiset(b[..i] + b[i + 1..])
  {
    assert a[0] in multiset(a);
    i :| 0 <= i < |b| && b[i] == a[0];
    WithoutAt(a, 0);
    WithoutAt(b, i);
    assert a[..0] + a[1..] == a[1..];
  }

  lemma WithoutAt<T>(s: seq<T>, i: nat)
    requires i < |s|
    ensures s == s[..i] + ([s[i]] + s[i + 1..])
    ensures multiset(s[..i] + s[i + 1..]) == multiset(s) - multiset{s[i]}
  {
    var front, back := s[..i], s[i + 1..];
    assert s == front + ([s[i]] + back);
    assert multiset(front + ([s[i]] + back)) == multiset(front) + (multiset{s[i]} + multiset(back));
  }

  function Rels(s: seq<Versioned>): seq<Release> { seq(|s|, i requires 0 <= i < |s| => s[i].rel) }

  lemma {:induction false} RelsOfPermutation(a: seq<Versioned>, b: seq<Versioned>)
    requires multiset(a) == multiset(b)
    ensures multiset(Rels(a)) == multiset(Rels(b))
  {
    if a == [] {
      assert |multiset(b)| == 0;
    } else {
      var i := FindHead(a, b);
      var rest := b[..i] + b[i + 1..];
      RelsOfPermutation(a[1..], rest);
      assert Rels(a) == [a[0].rel] + Rels(a[1..]);
      assert Rels(b) == Rels(b)[..i] + [b[i].rel] + Rels(b)[i + 1..];
      assert Rels(rest) == Rels(b)[..i] + Rels(b)[i + 1..];
    }
  }

  // ---------------------------------------------------------------- the decision

  predicate Fits(cur: Ver, precision: nat, v: Ver) { v.pre == cur.pre && IsTarget(cur, precision, v) }

  function CountFitting(cur: Ver, precision: nat, ps: seq<Versioned>): nat
  {
    if ps == [] then 0
    else (if Fits(cur, precision, ps[0].ver) then 1 else 0) + CountFitting(cur, precision, ps[1..])
  }

  lemma {:induction false} CountJoin(cur: Ver, precision: nat, a: seq<Versioned>, b: seq<Versioned>)
    ensures CountFitting(cur, precision, a + b) == CountFitting(cur, precision, a) + CountFitting(cur, precision, b)
  {
    if a == [] {
      assert a + b == b;
    } else {
      assert (a + b)[1..] == a[1..] + b;
      CountJoin(cur, precision, a[1..], b);
    }
  }

  lemma {:induction false} CountPermutation(cur: Ver, precision: nat, a: seq<Versioned>, b: seq<Versioned>)
    requires multiset(a) == multiset(b)
    ensures CountFitting(cur, precision, a) == CountFitting(cur, precision, b)
  {
    if a == [] {
      assert |multiset(b)| == 0;
    } else {
      var i := FindHead(a, b);
      CountPermutation(cur, precision, a[1..], b[..i] + b[i + 1..]);
      CountJoin(cur, precision, b[..i], [b[i]] + b[i + 1..]);
      CountJoin(cur, precision, b[..i], b[i + 1..]);
      assert ([b[i]] + b[i + 1..])[1..] == b[i + 1..];
    }
  }

  lemma {:induction false} CountPairs(read: Reader, cur: Ver, precision: nat, rels: seq<Release>)
    ensures CountFitting(cur, precision, Pairs(read, rels)) == CountCandidates(read, cur, precision, rels)
  {
    if rels != [] {
      CountJoin(cur, precision, PairOf(read, rels[0]), Pairs(read, rels[1..]));
      CountPairs(read, cur, precision, rels[1..]);
    }
  }

  /** The loop of computeUpdate over the newest-first list. */
  method CountSorted(cur: Ver, precision: nat, vs: seq<Versioned>)
    returns (behind: nat, latest: string, ghost first: nat)
    requires forall v :: v in vs ==> v.rel.tag != ""
    ensures behind == CountFitting(cur, precision, vs)
    ensures behind > 0 ==> first < |vs| && Fits(cur, precision, vs[first].ver) && latest == vs[first].rel.tag
    ensures behind > 0 ==> forall k :: 0 <= k < first ==> !Fits(cur, precision, vs[k].ver)
  {
    behind, latest, first := 0, "", 0;
    var i := 0;
    while i < |vs|
      invariant 0 <= i <= |vs| && behind == CountFitting(cur, precision, vs[..i])
      invariant behind == 0 ==> latest == "" && forall k :: 0 <= k < i ==> !Fits(cur, precision, vs[k].ver)
      invariant behind > 0 ==>
        latest != "" && first < i && Fits(cur, precision, vs[first].ver) && latest == vs[first].rel.tag
      invariant behind > 0 ==> forall k :: 0 <= k < first ==> !Fits(cur, precision, vs[k].ver)
    {
      var v := vs[i];
      assert v in vs;
      assert vs[..i + 1] == vs[..i] + [v];
      CountJoin(cur, precision, vs[..i], [v]);
      if v.ver.pre == cur.pre && IsTarget(cur, precision, v.ver) {
        behind := behind + 1;
        if latest == "" { latest, first := v.rel.tag, i; }
      }
      i := i + 1;
    }
    assert vs[..i] == vs;
  }

  method CountAndPick(read: Reader, cur: Ver, precision: nat, rels: seq<Release>) returns (behind: nat, latest: string)
    requires read.ver("").None?
    ensures behind == CountCandidates(read, cur, precision, rels)
    ensures behind > 0 ==> Best(read, cur, precision, rels, latest)
  {
    var vs := VersionedReleases(read, rels);
    ghost var first;
    behind, latest, first := CountSorted(cur, precision, vs);
    CountPermutation(cur, precision, vs, Pairs(read, rels));
    CountPairs(read, cur, precision, rels);
    if behind > 0 {
      FirstIsBest(read, cur, precision, rels, vs, first);
    }
  }

  lemma FirstIsBest(read: Reader, cur: Ver, precision: nat, rels: seq<Release>, vs: seq<Versioned>, first: nat)
    requires NewestFirst(vs) && first < |vs| && Fits(cur, precision, vs[first].ver)
    requires forall k :: 0 <= k < first ==> !Fits(cur, precision, vs[k].ver)
    requires forall p :: p in vs <==> p.rel in rels && read.ver(p.rel.tag) == Some(p.ver)
    ensures Best(read, cur, precision, rels, vs[first].rel.tag)
  {
    var best := vs[first];
    assert best in vs;
    forall r | r in rels && Candidate(read, cur, precision, r.tag)
      ensures Compare(read.ver(r.tag).value, best.ver) <= 0
    {
      var p := Versioned(r, read.ver(r.tag).value);
      assert p in vs;
      var k :| 0 <= k < |vs| && vs[k] == p;
      Antisymmetric(p.ver, best.ver);
      if k == first { Antisymmetric(best.ver, best.ver); }
    }
  }

  /** computeUpdate on the releases that remain once prereleases are filtered out. */
  method Decide(read: Reader, c: Container, vcs: bool, rels: seq<Release>, upToDate: Option<bool>)
    returns (u: Option<Update>)
    requires read.ver("").None?
    ensures Decides(read, c, vcs, rels, upToDate, u)
  {
    if rels == [] {
      return Fallback(c, upToDate);
    }
    var cur := read.ver(c.tag);
    if cur.Some? {
      var behind, latest := CountAndPick(read, cur.value, read.precision(c.tag), rels);
      return if behind > 0 then Some(Update(c.tag, latest, behind)) else Fallback(c, upToDate);
    }
    var ordered := OrderBySemver(read, rels);
    if vcs {
      var idx := FirstIndex(ordered, c.tag);
      if idx >= 0 {
        // A tag without a version can only be found when the upstream order was kept.
        assert ordered[idx] in multiset(ordered) && ordered[idx] in rels;
        return if idx == 0 then None else Some(Update(c.tag, ordered[0].tag, idx));
      }
      if FirstIndex(rels, c.tag) >= 0 { PresentInBoth(ordered, rels, c.tag); }
    }
    u := Fallback(c, upToDate);
    if u.Some? {
      var latest := NewestTag(read, rels, c.tag);
      u := Some(u.value.(latest := latest));
    }
  }

  lemma PresentInBoth(a: seq<Release>, b: seq<Release>, tag: string)
    requires multiset(a) == multiset(b) && FirstIndex(b, tag) >= 0
    ensures FirstIndex(a, tag) >= 0
  {
    var r := b[FirstIndex(b, tag)];
    assert r in multiset(a);
    var k :| 0 <= k < |a| && a[k] == r;
  }

  method NewestTag(read: Reader, rels: seq<Release>, tag: string) returns (latest: string)
    ensures NamesNewest(read, rels, tag, latest)
  {
    var vs := VersionedReleases(read, rels);
    latest := tag;
    if |vs| > 0 {
      latest := vs[0].rel.tag;
      HeadIsNewest(read, rels, vs);
    } else {
      assert forall r :: r in rels && read.ver(r.tag).Some? ==> Versioned(r, read.ver(r.tag).value) in vs;
    }
  }

  lemma HeadIsNewest(read: Reader, rels: seq<Release>, vs: seq<Versioned>)
    requires NewestFirst(vs) && vs != []
    requires forall p :: p in vs <==> p.rel in rels && read.ver(p.rel.tag) == Some(p.ver)
    ensures Newest(read, rels, vs[0].rel.tag)
  {
    assert vs[0] in vs;
    forall r | r in rels && read.ver(r.tag).Some? ensures Compare(read.ver(r.tag).value, vs[0].ver) <= 0 {
      var p := Versioned(r, read.ver(r.tag).value);
      assert p in vs;
      var k :| 0 <= k < |vs| && vs[k] == p;
      Antisymmetric(p.ver, vs[0].ver);
    }
  }

  method Filter(rels: seq<Release>, includePre: bool) returns (filtered: seq<Release>)
    ensures filtered == Offered(rels, includePre)
  {
    filtered := [];
    var i := 0;
    assert rels[0..] == rels;
    while i < |rels|
      invariant 0 <= i <= |rels| && filtered + Offered(rels[i..], includePre) == Offered(rels, includePre)
    {
      FilterStep(filtered, rels, i, includePre);
      if !(rels[i].prerelease && !includePre) { filtered := filtered + [rels[i]]; }
      i := i + 1;
    }
    assert Offered(rels[i..], includePre) == [];
  }

  lemma FilterStep(filtered: seq<Release>, rels: seq<Release>, i: nat, includePre: bool)
    requires i < |rels| && filtered + Offered(rels[i..], includePre) == Offered(rels, includePre)
    ensures var dropped := rels[i].prerelease && !includePre;
            (if dropped then filtered else filtered + [rels[i]]) + Offered(rels[i + 1..], includePre) ==
              Offered(rels, includePre)
  {
    OfferedAt(rels, i, includePre);
    Regrouped(filtered, rels[i], Offered(rels[i + 1..], includePre));
  }

  lemma OfferedAt(rels: seq<Release>, i: nat, includePre: bool)
    requires i < |rels|
    ensures var rest := Offered(rels[i + 1..], includePre);
            Offered(rels[i..], includePre) == if rels[i].prerelease && !includePre then rest else [rels[i]] + rest
  {
    assert rels[i..][1..] == rels[i + 1..];
    assert [] + Offered(rels[i + 1..], includePre) == Offered(rels[i + 1..], includePre);
  }

  lemma Regrouped(a: seq<Release>, r: Release, b: seq<Release>)
    ensures a + ([r] + b) == (a + [r]) + b
  {
  }

  /** computeUpdate. The library reads no version out of an empty tag. */
  method ComputeUpdate(parse: Tags.Parser, c: Container, vcs: bool, includePre: bool, rels: seq<Release>,
                       upToDate: Option<bool>)
    returns (u: Option<Update>)
    requires Tags.ParseVer(parse, "").None?
    ensures Decides(TagReader(parse), c, vcs, Offered(rels, includePre), upToDate, u)
  {
    var filtered := Filter(rels, includePre);
    u := Decide(TagReader(parse), c, vcs, filtered, upToDate);
  }

  // ---------------------------------------------------------------- what the choice is worth

  /** tag has the variant of the pin, and a newer version at the precision that the pin spells out: another
      major version, another line of minor versions, or any newer version. */
  predicate MovesOn(read: Reader, pin: string, tag: string)
  {
    read.ver(pin).Some? && read.ver(tag).Some? &&
    var cur, v, precision := read.ver(pin).value, read.ver(tag).value, read.precision(pin);
    && v.pre == cur.pre
    && (precision == 1 ==> v.major > cur.major)
    && (precision == 2 ==> v.major > cur.major || (v.major == cur.major && v.minor > cur.minor))
    && (precision !in {1, 2} ==> Compare(v, cur) > 0)
  }

  /** The places of the releases a pin could move on to. */
  function Onward(read: Reader, pin: string, rels: seq<Release>): set<nat>
  {
    set i | 0 <= i < |rels| && MovesOn(read, pin, rels[i].tag)
  }

  /** What a version pin is told, in terms of versions and precision: with a release to move on to, how many
      there are and a newest one of them, whatever the registry says; with none, the registry's word on the
      tag itself. */
  lemma PinMovesOn(read: Reader, c: Container, vcs: bool, rels: seq<Release>, upToDate: Option<bool>,
                   u: Option<Update>)
    requires read.ver(c.tag).Some? && Decides(read, c, vcs, rels, upToDate, u)
    ensures var onward := Onward(read, c.tag, rels);
            if onward != {} then
              && u.Some? && u.value.current == c.tag && u.value.behind == |onward|
              && (exists r :: r in rels && r.tag == u.value.latest) && MovesOn(read, c.tag, u.value.latest)
              && forall i :: i in onward ==>
                   Compare(read.ver(rels[i].tag).value, read.ver(u.value.latest).value) <= 0
            else
              u == if c.digest != "" && c.registry != "" && c.repository != "" && upToDate == Some(false)
                   then Some(Update(c.tag, c.tag, 1)) else None
  {
    var cur, precision := read.ver(c.tag).value, read.precision(c.tag);
    CountIsOnward(read, c.tag, rels);
    forall tag ensures Candidate(read, cur, precision, tag) <==> MovesOn(read, c.tag, tag) {
      CandidateMovesOn(read, c.tag, tag);
    }
  }

  lemma CandidateMovesOn(read: Reader, pin: string, tag: string)
    requires read.ver(pin).Some?
    ensures Candidate(read, read.ver(pin).value, read.precision(pin), tag) <==> MovesOn(read, pin, tag)
  {
  }

  lemma {:induction false} CountIsOnward(read: Reader, pin: string, rels: seq<Release>)
    requires read.ver(pin).Some?
    ensures CountCandidates(read, read.ver(pin).value, read.precision(pin), rels) == |Onward(read, pin, rels)|
  {
    if rels == [] {
      assert Onward(read, pin, rels) == {};
    } else {
      var rest := Onward(read, pin, rels[1..]);
      CountIsOnward(read, pin, rels[1..]);
      CandidateMovesOn(read, pin, rels[0].tag);
      var shifted := set i | i in rest :: i + 1;
      ShiftedSize(rest, shifted);
      OnwardStep(read, pin, rels, shifted);
    }
  }

  lemma OnwardStep(read: Reader, pin: string, rels: seq<Release>, shifted: set<nat>)
    requires rels != [] && forall i :: i in shifted <==> i > 0 && i - 1 in Onward(read, pin, rels[1..])
    ensures |Onward(read, pin, rels)| == |shifted| + if MovesOn(read, pin, rels[0].tag) then 1 else 0
  {
    forall i: nat | i > 0 ensures i in Onward(read, pin, rels) <==> i in shifted { OnwardTail(read, pin, rels, i); }
    WithHead(Onward(read, pin, rels), shifted);
  }

  lemma OnwardTail(read: Reader, pin: string, rels: seq<Release>, i: nat)
    requires rels != [] && i > 0
    ensures i in Onward(read, pin, rels) <==> i - 1 in Onward(read, pin, rels[1..])
  {
    if i < |rels| { assert rels[i] == rels[1..][i - 1]; }
  }

  lemma WithHead(all: set<nat>, tail: set<nat>)
    requires forall i: nat :: i > 0 ==> (i in all <==> i in tail)
    requires 0 !in tail
    ensures |all| == |tail| + if 0 in all then 1 else 0
  {
    assert all - {0} == tail;
  }

  lemma {:induction false} ShiftedSize(a: set<nat>, b: set<nat>)
    requires forall i :: i in b <==> i > 0 && i - 1 in a
    ensures |a| == |b|
  {
    if a == {} {
      assert b == {};
    } else {
      var i :| i in a;
      assert i + 1 in b;
      ShiftedSize(a - {i}, b - {i + 1});
    }
  }

  /** A release is on offer exactly when prereleases are wanted or it is none, as often as it is listed. */
  lemma {:induction false} OfferedIff(rels: seq<Release>, includePre: bool, r: Release)
    ensures multiset(Offered(rels, includePre))[r] ==
              if includePre || !r.prerelease then multiset(rels)[r] else 0
  {
    if rels != [] {
      OfferedIff(rels[1..], includePre, r);
      assert rels == [rels[0]] + rels[1..];
    }
  }

  /** Whatever the precision of the pin, a candidate is a strictly newer version. */
  lemma CandidatesAreNewer(read: Reader, cur: Ver, precision: nat, tag: string)
    requires Candidate(read, cur, precision, tag)
    ensures GreaterThan(read.ver(tag).value, cur)
  {
  }

  /** A version pin is told to leave its tag only for a candidate, and is then told so whatever the registry
      says; without one it is offered its own tag again, exactly when the registry moved that tag. */
  lemma PinMovesOnlyForACandidate(read: Reader, c: Container, vcs: bool, rels: seq<Release>, upToDate: Option<bool>,
                                  u: Option<Update>)
    requires read.ver(c.tag).Some? && Decides(read, c, vcs, rels, upToDate, u)
    ensures var precision := read.precision(c.tag);
            var candidates := exists r :: r in rels && Candidate(read, read.ver(c.tag).value, precision, r.tag);
            && (u.Some? && u.value.latest != c.tag <==> candidates)
            && (!candidates ==>
                  (u.Some? <==> c.digest != "" && c.registry != "" && c.repository != "" && upToDate == Some(false)))
            && (!candidates && u.Some? ==> u.value == Update(c.tag, c.tag, 1))
  {
    var cur, precision := read.ver(c.tag).value, read.precision(c.tag);
    CountIsZeroIff(read, cur, precision, rels);
    if CountCandidates(read, cur, precision, rels) > 0 {
      CandidatesAreNewer(read, cur, precision, u.value.latest);
      Antisymmetric(cur, cur);
    }
  }

  lemma {:induction false} CountIsZeroIff(read: Reader, cur: Ver, precision: nat, rels: seq<Release>)
    ensures CountCandidates(read, cur, precision, rels) == 0 <==>
      !exists r :: r in rels && Candidate(read, cur, precision, r.tag)
  {
    if rels != [] {
      CountIsZeroIff(read, cur, precision, rels[1..]);
      assert forall r :: r in rels <==> r == rels[0] || r in rels[1..];
    }
  }

  /** Which update is offered does not depend on the order of the release list: the same number of
      versions behind, and the very same version. */
  lemma OrderDoesNotMatter(read: Reader, c: Container, vcs: bool, rels: seq<Release>, shuffled: seq<Release>,
                           upToDate: Option<bool>, u: Option<Update>, u': Option<Update>)
    requires multiset(rels) == multiset(shuffled) && read.ver(c.tag).Some?
    requires Decides(read, c, vcs, rels, upToDate, u) && Decides(read, c, vcs, shuffled, upToDate, u')
    ensures u.Some? <==> u'.Some?
    ensures u.Some? ==> u.value.behind == u'.value.behind
    ensures u.Some? ==> (u == u' || read.ver(u.value.latest) == read.ver(u'.value.latest))
  {
    var cur, precision := read.ver(c.tag).value, read.precision(c.tag);
    CountCandidatesPermutation(read, cur, precision, rels, shuffled);
    assert |rels| == |multiset(rels)| == |multiset(shuffled)| == |shuffled|;
    if rels != [] && CountCandidates(read, cur, precision, rels) > 0 {
      BestIsUnique(read, cur, precision, rels, shuffled, u.value.latest, u'.value.latest);
    }
  }

  lemma CountCandidatesPermutation(read: Reader, cur: Ver, precision: nat, a: seq<Release>, b: seq<Release>)
    requires multiset(a) == multiset(b)
    ensures CountCandidates(read, cur, precision, a) == CountCandidates(read, cur, precision, b)
  {
    PairsPermutation(read, a, b);
    CountPermutation(cur, precision, Pairs(read, a), Pairs(read, b));
    CountPairs(read, cur, precision, a);
    CountPairs(read, cur, precision, b);
  }

  lemma {:induction false} PairsPermutation(read: Reader, a: seq<Release>, b: seq<Release>)
    requires multiset(a) == multiset(b)
    ensures multiset(Pairs(read, a)) == multiset(Pairs(read, b))
  {
    if a == [] {
      assert |multiset(b)| == 0;
    } else {
      var i := FindHead(a, b);
      PairsPermutation(read, a[1..], b[..i] + b[i + 1..]);
      PairsJoin(read, b[..i], [b[i]] + b[i + 1..]);
      PairsJoin(read, b[..i], b[i + 1..]);
      assert ([b[i]] + b[i + 1..])[1..] == b[i + 1..];
    }
  }

  lemma {:induction false} PairsJoin(read: Reader, a: seq<Release>, b: seq<Release>)
    ensures Pairs(read, a + b) == Pairs(read, a) + Pairs(read, b)
  {
    if a == [] {
      assert a + b == b;
    } else {
      assert (a + b)[1..] == a[1..] + b;
      PairsJoin(read, a[1..], b);
    }
  }

  lemma BestIsUnique(read: Reader, cur: Ver, precision: nat, a: seq<Release>, b: seq<Release>, x: string, y: string)
    requires multiset(a) == multiset(b) && Best(read, cur, precision, a, x) && Best(read, cur, precision, b, y)
    ensures read.ver(x) == read.ver(y)
  {
    forall r ensures r in a <==> r in b { assert r in multiset(a) <==> r in multiset(b); }
    var vx, vy := read.ver(x).value, read.ver(y).value;
    assert Compare(vx, vy) <= 0 && Compare(vy, vx) <= 0;
    Antisymmetric(vx, vy);
  }

  /** Adopting the offered tag leaves nothing further to offer from the same list, whatever the
      precision of the old and of the new tag. */
  lemma AdoptingIsAFixpoint(read: Reader, cur: Ver, precision: nat, rels: seq<Release>, latest: string)
    requires Best(read, cur, precision, rels, latest)
    ensures CountCandidates(read, read.ver(latest).value, read.precision(latest), rels) == 0
  {
    var next := read.ver(latest).value;
    forall r | r in rels ensures !Candidate(read, next, read.precision(latest), r.tag) {
      if Candidate(read, next, read.precision(latest), r.tag) {
        StillACandidate(read, cur, precision, next, r.tag, read.precision(latest));
      }
    }
    NoCandidatesCountZero(read, next, read.precision(latest), rels);
  }

  /** Candidates are closed upward: what is newer than a candidate is a candidate. */
  lemma StillACandidate(read: Reader, cur: Ver, precision: nat, next: Ver, tag: string, nextPrecision: nat)
    requires next.pre == cur.pre && IsTarget(cur, precision, next) && Candidate(read, next, nextPrecision, tag)
    ensures Candidate(read, cur, precision, tag) && Compare(read.ver(tag).value, next) > 0
  {
    var v := read.ver(tag).value;
    Antisymmetric(v, next);
    Antisymmetric(next, cur);
    Antisymmetric(v, cur);
  }

  lemma {:induction false} NoCandidatesCountZero(read: Reader, cur: Ver, precision: nat, rels: seq<Release>)
    requires forall r :: r in rels ==> !Candidate(read, cur, precision, r.tag)
    ensures CountCandidates(read, cur, precision, rels) == 0
  {
    if rels != [] { NoCandidatesCountZero(read, cur, precision, rels[1..]); }
  }
}
