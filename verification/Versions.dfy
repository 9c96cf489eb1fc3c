/** Ordering this project's own versions (CompareVersions and parseVersion,
    internal/selfupdate/selfupdate.go). The order is home-grown: prereleases are compared as text, and a
    git-describe suffix is folded away. */
module Versions {
  import opened Wrappers
  import opened Strings

  datatype Version = Version(major: nat, minor: nat, patch: nat, pre: string)

  /** ^\d+-g[0-9a-fA-F]+$ */
  predicate IsDescribe(s: string)
  {
    '-' in s && AllDigits(Before(s, '-')) &&
    var rest := After(s, '-');
    rest != "" && rest[0] == 'g' && AllHex(rest[1..])
  }

  /** Drops what git describe and a dirty tree add, so that only a real prerelease is left. */
  function Fold(pre: string): (r: string)
    ensures r <= pre
  {
    var r := TrimSuffix(pre, "-dirty");
    if r == "dirty" || IsDescribe(r) then "" else r
  }

  /** Surrounding space, one leading v and one leading V are dropped. */
  function Strip(s: string): string
  {
    TrimPrefix(TrimPrefix(TrimSpace(s), "v"), "V")
  }

  /** The numeric part of a stripped version, and its raw suffix. */
  function Core(s: string): string { Before(Before(s, '+'), '-') }

  function RawPre(s: string): string { After(Before(s, '+'), '-') }

  function FirstThree(parts: seq<string>): seq<string>
  {
    if |parts| > 3 then parts[..3] else parts
  }

  function NumberAt(parts: seq<string>, i: nat): Option<nat>
  {
    if i < |parts| then Atoi(parts[i]) else Some(0)
  }

  /** The three numbers of a dotted core; a missing one is 0, a bad one spoils all. */
  function Numbers(parts: seq<string>): Option<(nat, nat, nat)>
  {
    var a, b, c := NumberAt(parts, 0), NumberAt(parts, 1), NumberAt(parts, 2);
    if a.Some? && b.Some? && c.Some? then Some((a.value, b.value, c.value)) else None
  }

  function Build(core: string, pre: string): Option<Version>
  {
    var n := Numbers(FirstThree(Split(core, '.')));
    if n.None? then None else Some(Version(n.value.0, n.value.1, n.value.2, pre))
  }

  function FromStripped(s: string): Option<Version>
  {
    if s == "" then None else Build(Core(s), Fold(RawPre(s)))
  }

  /** What a version string means; None when it is not version-shaped. */
  function ParseVersion(text: string): Option<Version> { FromStripped(Strip(text)) }

  /** The loop of parseVersion: it fills the three numbers and gives up at the first bad component. */
  method ReadNumbers(parts: seq<string>) returns (n: Option<(nat, nat, nat)>)
    requires |parts| <= 3
    ensures n == Numbers(parts)
  {
    var nums: seq<nat> := [0, 0, 0];
    var i := 0;
    while i < |parts|
      invariant 0 <= i <= |parts| && |nums| == 3
      invariant forall k :: 0 <= k < i ==> NumberAt(parts, k) == Some(nums[k])
      invariant forall k :: i <= k < 3 ==> nums[k] == 0
    {
      var part := Atoi(parts[i]);
      if part.None? {
        assert NumberAt(parts, i).None?;
        return None;
      }
      nums := nums[i := part.value];
      i := i + 1;
    }
    assert forall k :: 0 <= k < 3 ==> NumberAt(parts, k) == Some(nums[k]);
    n := Some((nums[0], nums[1], nums[2]));
  }

  /** parseVersion. */
  method ReadVersion(text: string) returns (v: Option<Version>)
    ensures v == ParseVersion(text)
  {
    var s := TrimPrefix(TrimPrefix(TrimSpace(text), "v"), "V");
    if s == "" { return None; }
    s := Before(s, '+');
    var pre := After(s, '-');
    s := Before(s, '-');
    pre := TrimSuffix(pre, "-dirty");
    if pre == "dirty" || IsDescribe(pre) { pre := ""; }
    var parts := Split(s, '.');
    if |parts| > 3 { parts := parts[..3]; }
    var nums := ReadNumbers(parts);
    if nums.None? { return None; }
    v := Some(Version(nums.value.0, nums.value.1, nums.value.2, pre));
  }

  /** Same numbers: a prerelease sorts before the release itself. */
  function ComparePre(a: string, b: string): int
  {
    if a == b then 0
    else if a == "" then 1
    else if b == "" then -1
    else CompareStrings(a, b)
  }

  function Compare(a: Version, b: Version): int
  {
    if a.major != b.major then CompareNat(a.major, b.major)
    else if a.minor != b.minor then CompareNat(a.minor, b.minor)
    else if a.patch != b.patch then CompareNat(a.patch, b.patch)
    else ComparePre(a.pre, b.pre)
  }

  function CompareParsed(a: Option<Version>, b: Option<Version>): int
  {
    if a.None? || b.None? then 0 else Compare(a.value, b.value)
  }

  function CompareVersions(a: string, b: string): int { CompareParsed(ParseVersion(a), ParseVersion(b)) }

  predicate IsNewer(candidate: string, current: string) { CompareVersions(candidate, current) > 0 }

  predicate Parseable(s: string) { ParseVersion(s).Some? }

  // ---------------------------------------------------------------- laws of the order

  lemma CompareParsedAntisymmetric(a: Option<Version>, b: Option<Version>)
    ensures CompareParsed(a, b) == -CompareParsed(b, a)
  {
    if a.Some? && b.Some? { CompareStringsAntisymmetric(a.value.pre, b.value.pre); }
  }

  /** Swapping the arguments flips the answer, on all strings. */
  lemma CompareAntisymmetric(a: string, b: string)
    ensures CompareVersions(a, b) == -CompareVersions(b, a)
  {
    CompareParsedAntisymmetric(ParseVersion(a), ParseVersion(b));
  }

  lemma CompareTransitive(a: Option<Version>, b: Version, c: Option<Version>)
    requires CompareParsed(a, Some(b)) <= 0 && CompareParsed(Some(b), c) <= 0
    ensures CompareParsed(a, c) <= 0
  {
    if a.Some? && c.Some? {
      var p, q, r := a.value.pre, b.pre, c.value.pre;
      if CompareStrings(p, q) <= 0 && CompareStrings(q, r) <= 0 { CompareStringsTransitive(p, q, r); }
    }
  }

  /** A string chains comparisons correctly exactly when it is parseable: the order is a total preorder
      on parseable strings, and every other string breaks it. */
  lemma TransitiveThroughIffParseable(b: string)
    ensures (forall a, c :: CompareVersions(a, b) <= 0 && CompareVersions(b, c) <= 0 ==> CompareVersions(a, c) <= 0)
            <==> Parseable(b)
  {
    var pb := ParseVersion(b);
    if pb.Some? {
      forall a, c | CompareVersions(a, b) <= 0 && CompareVersions(b, c) <= 0 ensures CompareVersions(a, c) <= 0 {
        CompareTransitive(ParseVersion(a), pb.value, ParseVersion(c));
      }
    } else {
      var hi, lo := Version(2, 0, 0, ""), Version(1, 0, 0, "");
      PrintedParses(hi);
      PrintedParses(lo);
      var a, c := Print(hi), Print(lo);
      assert CompareVersions(a, c) == CompareParsed(Some(hi), Some(lo)) == 1;
      assert CompareVersions(a, b) == 0 && CompareVersions(b, c) == 0;
    }
  }

  // ---------------------------------------------------------------- printing

  function Dotted(v: Version): string
  {
    Decimal(v.major) + "." + Decimal(v.minor) + "." + Decimal(v.patch)
  }

  function Print(v: Version): string
  {
    Dotted(v) + if v.pre == "" then "" else "-" + v.pre
  }

  predicate InRange(v: Version) { v.major <= MAX_INT && v.minor <= MAX_INT && v.patch <= MAX_INT }

  /** A prerelease that reading back does not change: no build metadata in it, no space at its end, and
      not shaped like what git describe or a dirty tree adds. */
  predicate Stable(pre: string)
  {
    '+' !in pre && (pre == "" || !IsSpace(pre[|pre| - 1])) && Fold(pre) == pre
  }

  /** How text with a first dash is taken apart. */
  lemma DashedTakenApart(core: string, raw: string)
    requires '+' !in core && '-' !in core
    ensures Core(core + "-" + raw) == core && RawPre(core + "-" + raw) == Before(raw, '+')
  {
    var s, b := core + "-" + raw, Before(raw, '+');
    BeforeFacts(raw, '+');
    var head := core + "-" + b;
    assert |head| < |s| ==> s[|head|] == raw[|b|];
    BeforeIs(s, '+', head);
    assert head[|core|] == '-';
    BeforeIs(head, '-', core);
    assert head[|core| + 1..] == b;
  }

  lemma UndashedTakenApart(core: string)
    requires '+' !in core && '-' !in core
    ensures Core(core) == core && RawPre(core) == ""
  {
    BeforeIs(core, '+', core);
    BeforeIs(core, '-', core);
  }

  lemma StripPlain(s: string)
    requires s != "" && IsDigit(s[0])
    ensures Strip(s) == TrimRight(s)
  {
    var r := TrimRight(s);
    if r != "" { assert r[0] == s[0]; }
  }

  lemma DottedShape(v: Version)
    ensures var d := Dotted(v);
            d != "" && IsDigit(d[0]) && IsDigit(d[|d| - 1]) && '+' !in d && '-' !in d
  {
    var a, b, c := Decimal(v.major), Decimal(v.minor), Decimal(v.patch);
    var d := Dotted(v);
    assert d[0] == a[0] && d[|d| - 1] == c[|c| - 1];
    DigitsAreNot(a, '+'); DigitsAreNot(b, '+'); DigitsAreNot(c, '+');
    DigitsAreNot(a, '-'); DigitsAreNot(b, '-'); DigitsAreNot(c, '-');
  }

  lemma SplitThree(a: string, b: string, c: string)
    requires '.' !in a && '.' !in b && '.' !in c
    ensures Split(a + "." + b + "." + c, '.') == [a, b, c]
  {
    var rest := b + ['.'] + c;
    assert a + "." + b + "." + c == a + ['.'] + rest;
    SplitAt(a, rest, '.');
    assert Split(rest, '.') == [b, c] by { SplitAt(b, c, '.'); assert Split(c, '.') == [c]; }
  }

  lemma BuildDotted(v: Version, pre: string)
    ensures Build(Dotted(v), pre) == if InRange(v) then Some(v.(pre := pre)) else None
  {
    var a, b, c := Decimal(v.major), Decimal(v.minor), Decimal(v.patch);
    DigitsAreNot(a, '.'); DigitsAreNot(b, '.'); DigitsAreNot(c, '.');
    SplitThree(a, b, c);
    var parts := [a, b, c];
    assert FirstThree(parts) == parts;
    assert NumberAt(parts, 0) == Atoi(a) && NumberAt(parts, 1) == Atoi(b) && NumberAt(parts, 2) == Atoi(c);
  }

  /** What a printed version reads back as. */
  lemma PrintedValue(v: Version)
    ensures ParseVersion(Print(v)) ==
              if InRange(v) then Some(v.(pre := Fold(Before(TrimRight(v.pre), '+')))) else None
  {
    DottedShape(v);
    if v.pre == "" { StripDotted(Dotted(v)); } else { StripSuffixed(Dotted(v), v.pre); }
    BuildDotted(v, Fold(RawPre(Strip(Print(v)))));
  }

  lemma StripDotted(d: string)
    requires d != "" && IsDigit(d[0]) && IsDigit(d[|d| - 1]) && '+' !in d && '-' !in d
    ensures d + "" == d && Strip(d) == d && Core(d) == d && RawPre(d) == ""
    ensures Before(TrimRight(""), '+') == ""
  {
    StripPlain(d);
    UndashedTakenApart(d);
  }

  lemma StripSuffixed(d: string, pre: string)
    requires d != "" && IsDigit(d[0]) && '+' !in d && '-' !in d && pre != ""
    ensures var s := Strip(d + ("-" + pre)); s != "" && Core(s) == d && RawPre(s) == Before(TrimRight(pre), '+')
  {
    var text := d + ("-" + pre);
    assert text == (d + "-") + pre && text[0] == d[0];
    StripPlain(text);
    TrimRightJoin(d + "-", pre);
    DashedTakenApart(d, TrimRight(pre));
  }

  lemma PrintedParses(v: Version)
    requires InRange(v) && v.pre == ""
    ensures ParseVersion(Print(v)) == Some(v)
  {
    PrintedValue(v);
    assert TrimRight("") == "" && Before("", '+') == "" && Fold("") == "";
  }

  /** parseVersion undoes printing exactly for the versions whose numbers fit an int and whose
      prerelease is stable. */
  lemma ParsePrintRoundTrip(v: Version)
    ensures ParseVersion(Print(v)) == Some(v) <==> InRange(v) && Stable(v.pre)
  {
    PrintedValue(v);
    StableMeans(v.pre);
  }

  lemma StableMeans(pre: string)
    ensures Fold(Before(TrimRight(pre), '+')) == pre <==> Stable(pre)
  {
    var t := TrimRight(pre);
    var b := Before(t, '+');
    BeforeFacts(t, '+');
    if Fold(b) == pre {
      assert |Fold(b)| <= |b| <= |t| <= |pre|;
      assert t == pre && b == pre;
    }
  }

  // ---------------------------------------------------------------- how versions are written

  /** A v or V in front changes nothing, whatever follows the first digit. */
  lemma LeadIsDropped(lead: string, s: string)
    requires Lead(lead) && s != "" && IsDigit(s[0])
    ensures ParseVersion(lead + s) == ParseVersion(s)
  {
    StripPlain(s);
    LeadOff(lead, s);
  }

  function Numerals(nums: seq<nat>): seq<string>
  {
    seq(|nums|, i requires 0 <= i < |nums| => Decimal(nums[i]))
  }

  function NumAt(nums: seq<nat>, i: nat): nat { if i < |nums| then nums[i] else 0 }

  /** Dotted numbers read as a version: a missing one is 0, any beyond the third is ignored, and one of the
      three that no int can hold spoils all. */
  lemma DottedNumbersRead(lead: string, nums: seq<nat>)
    requires Lead(lead) && nums != []
    ensures var v := Version(NumAt(nums, 0), NumAt(nums, 1), NumAt(nums, 2), "");
            ParseVersion(lead + Join(Numerals(nums), '.')) == if InRange(v) then Some(v) else None
  {
    var parts := Numerals(nums);
    var s := Join(parts, '.');
    forall p | p in parts ensures '.' !in p && '+' !in p && '-' !in p {
      DigitsAreNot(p, '.'); DigitsAreNot(p, '+'); DigitsAreNot(p, '-');
    }
    JoinedNumerals(parts);
    LeadIsDropped(lead, s);
    StripDotted(s);
    SplitJoin(parts, '.');
    ThreeNumbers(nums);
  }

  lemma {:induction false} JoinedNumerals(parts: seq<string>)
    requires parts != [] && forall p :: p in parts ==> AllDigits(p)
    ensures var s := Join(parts, '.');
            s != "" && IsDigit(s[0]) && IsDigit(s[|s| - 1]) && '+' !in s && '-' !in s
  {
    assert parts[0] in parts;
    DigitsAreNot(parts[0], '+'); DigitsAreNot(parts[0], '-');
    if |parts| > 1 {
      assert forall p :: p in parts[1..] ==> p in parts;
      JoinedNumerals(parts[1..]);
    }
  }

  lemma ThreeNumbers(nums: seq<nat>)
    requires nums != []
    ensures var v := Version(NumAt(nums, 0), NumAt(nums, 1), NumAt(nums, 2), "");
            Numbers(FirstThree(Numerals(nums))) == if InRange(v) then Some((v.major, v.minor, v.patch)) else None
  {
    var parts := FirstThree(Numerals(nums));
    forall i: nat | i < 3
      ensures NumberAt(parts, i) == if NumAt(nums, i) <= MAX_INT then Some(NumAt(nums, i)) else None
    {
      if i < |nums| { assert parts[i] == Decimal(nums[i]); }
    }
  }

  // ---------------------------------------------------------------- the order

  /** The numbers decide in order; then a prerelease comes before the release and is compared as text. */
  ghost predicate Older(a: Version, b: Version)
  {
    || a.major < b.major
    || (a.major == b.major && a.minor < b.minor)
    || (a.major == b.major && a.minor == b.minor && a.patch < b.patch)
    || (a.major == b.major && a.minor == b.minor && a.patch == b.patch && a.pre != "" &&
        (b.pre == "" || TextBefore(a.pre, b.pre)))
  }

  /** CompareVersions is this order on parseable versions and finds every other pair equal. */
  lemma CompareIsTheOrder(a: string, b: string)
    ensures var (v, w) := (ParseVersion(a), ParseVersion(b));
            && (CompareVersions(a, b) < 0 <==> v.Some? && w.Some? && Older(v.value, w.value))
            && (CompareVersions(a, b) > 0 <==> v.Some? && w.Some? && Older(w.value, v.value))
  {
    var (v, w) := (ParseVersion(a), ParseVersion(b));
    if v.Some? && w.Some? {
      OlderIff(v.value, w.value);
      OlderIff(w.value, v.value);
      CompareParsedAntisymmetric(v, w);
    }
  }

  lemma OlderIff(a: Version, b: Version)
    ensures Compare(a, b) < 0 <==> Older(a, b)
  {
    CompareStringsIff(a.pre, b.pre);
    if a.pre == b.pre { CompareStringsIff(a.pre, a.pre); }
  }

  // ---------------------------------------------------------------- git describe

  /** What git describe --dirty appends to a tag: commits since it and the abbreviated commit, unless the
      tag itself is built, and a mark for a dirty tree. */
  datatype Described = Described(past: Option<(string, string)>, dirty: bool)

  predicate WellFormed(d: Described)
  {
    d.past.Some? ==> AllDigits(d.past.value.0) && AllHex(d.past.value.1)
  }

  predicate Bare(d: Described) { d.past.None? && !d.dirty }

  function Plain(count: string, hash: string): string { count + "-g" + hash }

  /** What follows the dash. */
  function Tail(d: Described): string
  {
    if d.past.None? then "dirty"
    else Plain(d.past.value.0, d.past.value.1) + if d.dirty then "-dirty" else ""
  }

  function Suffix(d: Described): string { if Bare(d) then "" else "-" + Tail(d) }

  /** A tag as git would have it: it does not end in space. */
  predicate IsTag(tag: string) { tag != "" ==> !IsSpace(tag[|tag| - 1]) }

  lemma StripJoin(tag: string, suffix: string)
    requires IsTag(tag) && suffix != "" && suffix[0] == '-' && !IsSpace(suffix[|suffix| - 1])
    ensures Strip(tag + suffix) == Strip(tag) + suffix
  {
    TrimLeftJoin(tag, suffix);
    TrimLeftKeepsEnd(tag);
    var t := TrimLeft(tag);
    assert TrimSpace(tag) == t;
    assert (t + suffix)[|t + suffix| - 1] == suffix[|suffix| - 1];
    assert TrimSpace(tag + suffix) == t + suffix;
    TrimPrefixJoin(t, suffix, "v");
    TrimPrefixJoin(TrimPrefix(t, "v"), suffix, "V");
  }

  lemma PlainShape(count: string, hash: string)
    requires AllDigits(count) && AllHex(hash)
    ensures var plain := Plain(count, hash);
            '+' !in plain && plain[0] == count[0] && IsHex(plain[|plain| - 1]) && HasSuffix(plain, hash)
  {
    var plain := Plain(count, hash);
    DigitsAreNot(count, '+');
    assert '+' !in hash && '+' !in "-g";
    assert plain[|plain| - 1] == hash[|hash| - 1] && plain[|plain| - |hash|..] == hash;
  }

  lemma TailShape(d: Described)
    requires WellFormed(d)
    ensures Tail(d) != "" && '+' !in Tail(d) && !IsSpace(Tail(d)[|Tail(d)| - 1])
  {
    if d.past.Some? {
      PlainShape(d.past.value.0, d.past.value.1);
      assert '+' !in "-dirty";
    }
  }

  // ---- what folding makes of a suffix

  lemma EndOfSuffix(s: string, suffix: string)
    requires HasSuffix(s, suffix) && suffix != ""
    ensures s[|s| - 1] == suffix[|suffix| - 1]
  {
  }

  lemma HexEndIsNotDirty(s: string, hash: string)
    requires AllHex(hash) && HasSuffix(s, hash)
    ensures TrimSuffix(s, "-dirty") == s && s != "dirty"
  {
    EndOfSuffix(s, hash);
    if HasSuffix(s, "-dirty") { EndOfSuffix(s, "-dirty"); }
    if s == "dirty" { EndOfSuffix("dirty", hash); }
  }

  lemma PlainDescribe(count: string, hash: string)
    requires AllDigits(count) && AllHex(hash)
    ensures IsDescribe(Plain(count, hash))
  {
    DigitsAreNot(count, '-');
    var rest := "g" + hash;
    assert Plain(count, hash) == count + "-" + rest && rest[1..] == hash;
    assert (count + "-" + rest)[|count|] == '-';
    AfterFirstDash(count, rest);
  }

  lemma TrimSuffixJoin(s: string, suffix: string)
    ensures TrimSuffix(s + suffix, suffix) == s
  {
    assert (s + suffix)[|s|..] == suffix && (s + suffix)[..|s|] == s;
  }

  /** A dirty mark is taken off before anything else is looked at. */
  lemma FoldDirty(raw: string)
    ensures Fold(raw + "-dirty") == if raw == "dirty" || IsDescribe(raw) then "" else raw
  {
    TrimSuffixJoin(raw, "-dirty");
  }

  /** No describe suffix ends in y, so text that ends in a dirty mark is not one. */
  lemma DirtyIsNotDescribe(raw: string)
    requires HasSuffix(raw, "-dirty")
    ensures raw != "dirty" && !IsDescribe(raw)
  {
    EndOfSuffix(raw, "-dirty");
    if IsDescribe(raw) { DescribeEndsInHex(raw); }
  }

  lemma DescribeEndsInHex(raw: string)
    requires IsDescribe(raw)
    ensures raw != "" && IsHex(raw[|raw| - 1])
  {
    BeforeFacts(raw, '-');
    var hash := After(raw, '-')[1..];
    assert hash[|hash| - 1] == raw[|raw| - 1];
  }

  lemma FoldClean(raw: string)
    requires !HasSuffix(raw, "-dirty")
    ensures Fold(raw) == if raw == "dirty" || IsDescribe(raw) then "" else raw
  {
  }

  /** A commit count, and after "-g" an abbreviated commit. */
  lemma DescribeIff(s: string)
    ensures IsDescribe(s) <==> exists count, hash :: AllDigits(count) && AllHex(hash) && s == Plain(count, hash)
  {
    if IsDescribe(s) {
      BeforeFacts(s, '-');
      var count, rest := Before(s, '-'), After(s, '-');
      assert rest == "g" + rest[1..] && s == count + "-" + rest;
      GAssociates(count, rest[1..]);
      assert AllDigits(count) && AllHex(rest[1..]) && s == Plain(count, rest[1..]);
    }
    if count, hash :| AllDigits(count) && AllHex(hash) && s == Plain(count, hash) { PlainDescribe(count, hash); }
  }

  lemma GAssociates(a: string, b: string)
    ensures a + "-" + ("g" + b) == a + "-g" + b
  {
  }

  /** A prerelease is stable exactly when it has no plus, no space at its end, and is neither a dirty mark, nor
      marked dirty, nor what git describe appends. */
  lemma StableIff(pre: string)
    ensures Stable(pre) <==>
              && '+' !in pre && (pre == "" || !IsSpace(pre[|pre| - 1])) && pre != "dirty" && !HasSuffix(pre, "-dirty")
              && !exists count, hash :: AllDigits(count) && AllHex(hash) && pre == Plain(count, hash)
  {
    DescribeIff(pre);
    if HasSuffix(pre, "-dirty") { FoldShrinks(pre); } else { FoldClean(pre); }
  }

  /** A describe suffix after a dash stays: its first dash would have to be followed by g and hex digits. */
  lemma DoublyDescribed(raw: string, count: string, hash: string)
    requires AllDigits(count) && AllHex(hash)
    ensures !IsDescribe(raw + "-" + Plain(count, hash))
  {
    var plain := Plain(count, hash);
    PlainShape(count, hash);
    BeforeFacts(raw, '-');
    if '-' in raw {
      var b, r := Before(raw, '-'), After(raw, '-');
      var rest := r + "-" + plain;
      DashAssociates(b, r, plain);
      AfterFirstDash(b, rest);
      DashIsNotHex(r, plain);
    } else {
      AfterFirstDash(raw, plain);
    }
  }

  lemma DashIsNotHex(r: string, plain: string)
    ensures var rest := r + "-" + plain; rest[0] != 'g' || !AllHex(rest[1..])
  {
    var rest := r + "-" + plain;
    assert rest[|r|] == '-';
    if r != "" { assert rest[1..][|r| - 1] == '-'; }
  }

  lemma AfterFirstDash(b: string, rest: string)
    requires '-' !in b
    ensures Before(b + "-" + rest, '-') == b && After(b + "-" + rest, '-') == rest
  {
    var s := b + "-" + rest;
    assert s[|b|] == '-' && s[|b| + 1..] == rest;
    BeforeIs(s, '-', b);
  }

  /** Past a suffix, what describe appends stays, but for the dirty mark. */
  lemma PastFold(raw: string, count: string, hash: string)
    requires AllDigits(count) && AllHex(hash)
    ensures var clean := raw + "-" + Plain(count, hash); Fold(clean) == clean && Fold(clean + "-dirty") == clean
  {
    var clean := raw + "-" + Plain(count, hash);
    PlainShape(count, hash);
    assert clean[|clean| - |hash|..] == hash;
    HexEndIsNotDirty(clean, hash);
    DoublyDescribed(raw, count, hash);
    FoldDirty(clean);
  }

  /** Right after the numbers, everything describe appends is folded away. */
  lemma TailFoldsAway(d: Described)
    requires WellFormed(d)
    ensures Fold(Tail(d)) == ""
  {
    if d.past.Some? {
      PastFoldsAway(d.past.value.0, d.past.value.1);
      assert Plain(d.past.value.0, d.past.value.1) + "" == Plain(d.past.value.0, d.past.value.1);
    } else {
      assert !HasSuffix("dirty", "-dirty");
    }
  }

  lemma PastFoldsAway(count: string, hash: string)
    requires AllDigits(count) && AllHex(hash)
    ensures Fold(Plain(count, hash)) == "" && Fold(Plain(count, hash) + "-dirty") == ""
  {
    var plain := Plain(count, hash);
    PlainDescribe(count, hash);
    PlainShape(count, hash);
    FoldDirty(plain);
    HexEndIsNotDirty(plain, hash);
  }

  /** How a suffix of its own changes when describe appends to it. */
  lemma FoldOfAppended(raw: string, d: Described)
    requires WellFormed(d) && !Bare(d)
    ensures d.past.Some? || HasSuffix(raw, "-dirty") ==> Fold(raw) < Fold(raw + "-" + Tail(d))
    ensures d.past.None? && !HasSuffix(raw, "-dirty") ==> Fold(raw + "-" + Tail(d)) == Fold(raw)
  {
    if d.past.Some? {
      FoldOfPast(raw, d.past.value.0, d.past.value.1, d.dirty);
    } else {
      DirtyAssociates(raw);
      FoldOfDirty(raw);
    }
  }

  lemma DirtyAssociates(a: string)
    ensures a + "-" + "dirty" == a + "-dirty" == a + ("-" + "dirty")
  {
    Associates(a, "-", "dirty");
    assert "-" + "dirty" == "-dirty";
  }

  lemma Associates(a: string, b: string, c: string)
    ensures a + b + c == a + (b + c)
  {
  }

  lemma FoldOfPast(raw: string, count: string, hash: string, dirty: bool)
    requires AllDigits(count) && AllHex(hash)
    ensures Fold(raw) < Fold(raw + "-" + (Plain(count, hash) + if dirty then "-dirty" else ""))
  {
    var clean := raw + "-" + Plain(count, hash);
    PastFold(raw, count, hash);
    Associates(raw + "-", Plain(count, hash), if dirty then "-dirty" else "");
    assert clean + "" == clean;
    assert raw < clean;
  }

  lemma FoldOfDirty(raw: string)
    ensures if HasSuffix(raw, "-dirty") then Fold(raw) < Fold(raw + "-dirty") else Fold(raw + "-dirty") == Fold(raw)
  {
    FoldDirty(raw);
    if HasSuffix(raw, "-dirty") {
      DirtyIsNotDescribe(raw);
      FoldShrinks(raw);
    } else {
      FoldClean(raw);
    }
  }

  lemma FoldShrinks(raw: string)
    requires HasSuffix(raw, "-dirty")
    ensures Fold(raw) < raw
  {
    assert TrimSuffix(raw, "-dirty") < raw;
  }

  // ---- what it does to the comparison

  /** The tag has a suffix of its own, outside any build metadata. */
  predicate HasOwnSuffix(tag: string) { '+' !in Strip(tag) && '-' in Strip(tag) }

  /** Describing changes nothing: build metadata hides it, or it is folded away. */
  predicate Unaffected(tag: string, d: Described)
  {
    Bare(d) || !HasOwnSuffix(tag) || (d.past.None? && !HasSuffix(RawPre(Strip(tag)), "-dirty"))
  }

  /** How a described build compares to its tag, for every parseable tag, commit count and hash, dirty
      tree or not. It is older exactly when the tag's own suffix is folded away while what describe makes
      of it is not; it is equal exactly when describing changes nothing; else it is newer. */
  lemma DescribedAgainstItsTag(tag: string, d: Described)
    requires IsTag(tag) && WellFormed(d) && Parseable(tag)
    ensures CompareVersions(tag + Suffix(d), tag) == 0 <==> Unaffected(tag, d)
    ensures CompareVersions(tag + Suffix(d), tag) < 0 <==> !Unaffected(tag, d) && Fold(RawPre(Strip(tag))) == ""
  {
    if Bare(d) {
      assert tag + Suffix(d) == tag;
      ComparedWithItself(ParseVersion(tag));
    } else if HasOwnSuffix(tag) {
      StripDescribed(tag, d);
      OwnSuffixAppended(Strip(tag), d);
    } else {
      DescribeIsItsTag(tag, d);
    }
  }

  /** It happens: release a commit past a tag like v1.2.3-dirty, and it compares older than that tag. */
  lemma PastADirtyTag(v: Version, d: Described)
    requires InRange(v) && WellFormed(d) && d.past.Some?
    ensures var tag := Dotted(v) + "-dirty";
            IsTag(tag) && Parseable(tag) && CompareVersions(tag + Suffix(d), tag) < 0
  {
    DottedShape(v);
    StripDirty(Dotted(v));
    PrintedValue(v.(pre := "dirty"));
    FoldClean("dirty");
    DescribedAgainstItsTag(Dotted(v) + "-dirty", d);
  }

  lemma StripDirty(d: string)
    requires d != "" && IsDigit(d[0]) && '+' !in d && '-' !in d
    ensures var tag := d + "-dirty"; Strip(tag) == tag == d + ("-" + "dirty") && '+' !in tag && RawPre(tag) == "dirty"
    ensures IsTag(d + "-dirty") && HasOwnSuffix(d + "-dirty")
  {
    var tag := d + "-dirty";
    EndsDirty(d);
    StripPlain(tag);
    NoPlusIn(d, "-dirty");
    DirtyAssociates(d);
    BeforeIs("dirty", '+', "dirty");
    DashedTakenApart(d, "dirty");
  }

  lemma EndsDirty(d: string)
    requires d != ""
    ensures var tag := d + "-dirty"; tag[0] == d[0] && tag[|tag| - 1] == 'y' && '-' in tag
  {
    assert (d + "-dirty")[|d|] == '-';
  }

  lemma NoPlusIn(a: string, b: string)
    requires '+' !in a && '+' !in b
    ensures '+' !in a + b
  {
  }

  lemma ComparedWithItself(v: Option<Version>)
    ensures CompareParsed(v, v) == 0
  {
  }

  /** In particular a build of a plain release tag reads exactly as that tag, parseable or not. */
  lemma DescribeIsItsTag(tag: string, d: Described)
    requires IsTag(tag) && WellFormed(d) && !HasOwnSuffix(tag)
    ensures ParseVersion(tag + Suffix(d)) == ParseVersion(tag) && CompareVersions(tag + Suffix(d), tag) == 0
  {
    if Bare(d) {
      assert tag + Suffix(d) == tag;
    } else {
      StripDescribed(tag, d);
      SuffixChangesNothing(Strip(tag), d);
    }
    ComparedWithItself(ParseVersion(tag));
  }

  lemma StripDescribed(tag: string, d: Described)
    requires IsTag(tag) && WellFormed(d) && !Bare(d)
    ensures Strip(tag + Suffix(d)) == Strip(tag) + "-" + Tail(d)
  {
    TailShape(d);
    StripDashed(tag, Tail(d));
  }

  lemma StripDashed(tag: string, tail: string)
    requires IsTag(tag) && tail != "" && !IsSpace(tail[|tail| - 1])
    ensures Strip(tag + ("-" + tail)) == Strip(tag) + "-" + tail
  {
    StripJoin(tag, "-" + tail);
    assert Strip(tag) + ("-" + tail) == Strip(tag) + "-" + tail;
  }

  lemma SuffixChangesNothing(s: string, d: Described)
    requires WellFormed(d) && ('+' in s || '-' !in s)
    ensures FromStripped(s + "-" + Tail(d)) == FromStripped(s)
  {
    TailShape(d);
    if s == "" {
      EmptyCore(Tail(d));
    } else if '+' in s {
      PlusHides(s, Tail(d));
    } else {
      TailFoldsAway(d);
      FoldedSuffix(s, Tail(d));
    }
  }

  lemma FoldedSuffix(s: string, raw: string)
    requires s != "" && '+' !in s && '-' !in s && '+' !in raw && Fold(raw) == ""
    ensures FromStripped(s + "-" + raw) == FromStripped(s)
  {
    ReadsAs(s, raw);
    UndashedTakenApart(s);
    assert Fold("") == "";
  }

  lemma EmptyCore(raw: string)
    ensures FromStripped("" + "-" + raw).None?
  {
    DashedTakenApart("", raw);
    var parts := Split("", '.');
    assert parts == [""];
    assert FirstThree(parts) == parts && NumberAt(parts, 0) == Atoi("");
  }

  lemma PlusHides(s: string, raw: string)
    requires '+' in s
    ensures FromStripped(s + "-" + raw) == FromStripped(s)
  {
    BeforeFacts(s, '+');
    var r := Before(s, '+');
    assert (s + "-" + raw)[|r|] == s[|r|];
    BeforeIs(s + "-" + raw, '+', r);
  }

  lemma OwnSuffixAppended(s: string, d: Described)
    requires FromStripped(s).Some? && WellFormed(d) && !Bare(d) && '+' !in s && '-' in s
    ensures var c := CompareParsed(FromStripped(s + "-" + Tail(d)), FromStripped(s));
            var same := d.past.None? && !HasSuffix(RawPre(s), "-dirty");
            (c == 0 <==> same) && (c < 0 <==> !same && Fold(RawPre(s)) == "")
  {
    BeforeFacts(s, '-');
    var core, raw := Before(s, '-'), After(s, '-');
    assert s == core + "-" + raw && '+' !in raw && '+' !in core by {
      assert forall c :: c in core || c in raw ==> c in core + "-" + raw;
    }
    DashAssociates(core, raw, Tail(d));
    DashedAppended(core, raw, d);
  }

  lemma DashedAppended(core: string, raw: string, d: Described)
    requires WellFormed(d) && !Bare(d) && '+' !in core && '-' !in core && '+' !in raw
    requires FromStripped(core + "-" + raw).Some?
    ensures var c := CompareParsed(FromStripped(core + "-" + (raw + "-" + Tail(d))), FromStripped(core + "-" + raw));
            var same := d.past.None? && !HasSuffix(raw, "-dirty");
            RawPre(core + "-" + raw) == raw && (c == 0 <==> same) && (c < 0 <==> !same && Fold(raw) == "")
  {
    TailShape(d);
    ReadsAs(core, raw);
    ReadsAs(core, raw + "-" + Tail(d));
    FoldOfAppended(raw, d);
    SameCore(core, Fold(raw), Fold(raw + "-" + Tail(d)));
  }

  lemma DashAssociates(core: string, raw: string, tail: string)
    ensures core + "-" + raw + "-" + tail == core + "-" + (raw + "-" + tail)
  {
  }

  lemma ReadsAs(core: string, raw: string)
    requires '+' !in core && '-' !in core && '+' !in raw
    ensures FromStripped(core + "-" + raw) == Build(core, Fold(raw)) && RawPre(core + "-" + raw) == raw
  {
    DashedTakenApart(core, raw);
    BeforeIs(raw, '+', raw);
  }

  lemma SameCore(core: string, p: string, q: string)
    requires p <= q && Build(core, p).Some?
    ensures Build(core, q).Some?
    ensures CompareParsed(Build(core, q), Build(core, p)) == 0 <==> p == q
    ensures CompareParsed(Build(core, q), Build(core, p)) < 0 <==> p == "" && q != ""
  {
    if p != "" && p != q {
      PrefixIsSmaller(p, q);
      CompareStringsAntisymmetric(p, q);
    }
  }
}
