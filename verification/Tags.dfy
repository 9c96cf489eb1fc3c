/** Reading a version out of an image tag (parseVer and versionPrecision, internal/updater/updater.go).
    semver.NewVersion is any function from text to a version or nothing. */
module Tags {
  import opened Wrappers
  import opened Strings
  import opened Semver

  type Parser = string -> Option<Ver>

  function FirstDigit(s: string): (i: int)
    ensures -1 <= i < |s|
    ensures i >= 0 ==> IsDigit(s[i])
    ensures forall k :: 0 <= k < (if i < 0 then |s| else i) ==> !IsDigit(s[k])
  {
    if s == "" then -1
    else if IsDigit(s[0]) then 0
    else
      var i := FirstDigit(s[1..]);
      assert forall k :: 1 <= k < |s| ==> s[k] == s[1..][k - 1];
      if i < 0 then -1 else i + 1
  }

  function Unprefixed(tag: string): string { TrimPrefix(TrimPrefix(TrimSpace(tag), "v"), "V") }

  function TrimZeros(s: string): (r: string)
    ensures r == "" || r[0] != '0'
  {
    if s != "" && s[0] == '0' then TrimZeros(s[1..]) else s
  }

  function Normalized(part: string): string { if TrimZeros(part) == "" then "0" else TrimZeros(part) }

  function PartAt(parts: seq<string>, i: nat): string { if i < |parts| then parts[i] else "0" }

  /** Exactly three components, without leading zeros. */
  function ThreeParts(parts: seq<string>): seq<string>
  {
    [Normalized(PartAt(parts, 0)), Normalized(PartAt(parts, 1)), Normalized(PartAt(parts, 2))]
  }

  /** The padding, cutting and zero-trimming loops of parseVer. */
  method CoerceParts(given: seq<string>) returns (parts: seq<string>)
    requires |given| >= 2
    ensures parts == ThreeParts(given)
  {
    parts := given;
    while |parts| < 3
      invariant |parts| >= 2 && |parts| >= |given| && parts[..|given|] == given
      invariant |parts| > |given| ==> |given| == 2 && parts == given + ["0"]
      decreases 3 - |parts|
    {
      parts := parts + ["0"];
    }
    if |parts| > 3 { parts := parts[..3]; }
    ghost var padded := parts;
    assert forall k :: 0 <= k < 3 ==> padded[k] == PartAt(given, k);
    var i := 0;
    while i < |parts|
      invariant 0 <= i <= |parts| == 3
      invariant forall k :: 0 <= k < 3 ==> parts[k] == if k < i then Normalized(padded[k]) else padded[k]
    {
      parts := parts[i := TrimZeros(parts[i])];
      if parts[i] == "" { parts := parts[i := "0"]; }
      i := i + 1;
    }
    assert parts == [parts[0], parts[1], parts[2]];
  }

  lemma {:induction false} TrimZerosValue(s: string)
    requires forall i :: 0 <= i < |s| ==> IsDigit(s[i])
    ensures var r := TrimZeros(s); (forall i :: 0 <= i < |r| ==> IsDigit(r[i])) && DigitsValue(r) == DigitsValue(s)
  {
    if s != "" && s[0] == '0' {
      TrimZerosValue(s[1..]);
      ZeroInFront(s[1..]);
      assert s == "0" + s[1..];
    }
  }

  /** Normalising a numeral gives the decimal notation of its value. */
  lemma NormalizedIsDecimal(part: string)
    requires AllDigits(part)
    ensures Normalized(part) == Decimal(DigitsValue(part))
  {
    var r := TrimZeros(part);
    TrimZerosValue(part);
    if r == "" {
      assert DigitsValue(part) == 0 && Decimal(0) == "0";
    } else {
      DecimalOfValue(r);
    }
  }

  /** So numeric components reach the library as the numbers they are, a missing one as zero. */
  lemma CoercedPartsAreNumbers(parts: seq<string>)
    requires forall i :: 0 <= i < |parts| ==> AllDigits(parts[i])
    ensures |ThreeParts(parts)| == 3
    ensures forall i :: 0 <= i < 3 ==>
      AllDigits(PartAt(parts, i)) && ThreeParts(parts)[i] == Decimal(DigitsValue(PartAt(parts, i)))
  {
    forall i | 0 <= i < 3
      ensures AllDigits(PartAt(parts, i)) && ThreeParts(parts)[i] == Decimal(DigitsValue(PartAt(parts, i)))
    {
      NormalizedIsDecimal(PartAt(parts, i));
    }
  }

  /** The text from the first digit on, which must open the tag or follow a separator. */
  function FromFirstDigit(s: string): Option<string>
  {
    var start := FirstDigit(s);
    if start < 0 || (start > 0 && s[start - 1] !in {'-', '_'}) then None else Some(s[start..])
  }

  /** A dotted number and what follows it, put together again with exactly three components. */
  function Rebuilt(s: string): Option<string>
  {
    var (main, build) := (Before(s, '+'), After(s, '+'));
    var (core, pre) := (Before(main, '-'), After(main, '-'));
    var parts := Split(core, '.');
    if |parts| < 2 then None else Some(Assembled(ThreeParts(parts), pre, build))
  }

  function Assembled(p: seq<string>, pre: string, build: string): string
    requires |p| == 3
  {
    p[0] + "." + p[1] + "." + p[2] + (if pre != "" then "-" + pre else "") + (if build != "" then "+" + build else "")
  }

  /** What the loose reading hands to the library. */
  function Coerced(tag: string): Option<string>
  {
    var s := FromFirstDigit(Unprefixed(tag));
    if s.None? then None else Rebuilt(s.value)
  }

  function ParseVer(parse: Parser, tag: string): Option<Ver>
  {
    var strict := parse(TrimSpace(tag));
    if strict.Some? then strict
    else
      var loose := Coerced(tag);
      if loose.None? then None else parse(loose.value)
  }

  /** parseVer. */
  method ReadVer(parse: Parser, tag: string) returns (v: Option<Ver>)
    ensures v == ParseVer(parse, tag)
  {
    var s := TrimSpace(tag);
    v := parse(s);
    if v.Some? { return; }
    s := TrimPrefix(TrimPrefix(s, "v"), "V");
    var digits := FromFirstDigit(s);
    if digits.None? { return None; }
    var loose := Coerce(digits.value);
    if loose.None? { return None; }
    v := parse(loose.value);
  }

  /** The loose part of parseVer. */
  method Coerce(given: string) returns (loose: Option<string>)
    ensures loose == Rebuilt(given)
  {
    var s := given;
    var build := After(s, '+');
    s := Before(s, '+');
    var pre := After(s, '-');
    s := Before(s, '-');
    var parts := Split(s, '.');
    if |parts| < 2 { return None; }
    parts := CoerceParts(parts);
    loose := Some(Assembled(parts, pre, build));
  }

  /** A tag with a v or V in front reads, and counts its components, as without. */
  lemma LeadReadsAlike(lead: string, s: string)
    requires Lead(lead) && s != "" && IsDigit(s[0])
    ensures Coerced(lead + s) == Coerced(s) && Precision(lead + s) == Precision(s)
  {
    LeadOff(lead, s);
    LeadOff("", s);
    assert "" + s == s;
  }

  /** The suffix of a version: a prerelease, then build metadata. */
  function Tagged(pre: string, build: string): string
  {
    (if pre == "" then "" else "-" + pre) + (if build == "" then "" else "+" + build)
  }

  /** The loose reading: a dotted number of two or more components, at the front or after a separator and other
      text without digits, reaches the library as exactly three numbers in decimal notation, the missing one 0
      and any further ones dropped, with its prerelease and build metadata. */
  lemma LooseReading(tag: string, text: string, parts: seq<string>, pre: string, build: string)
    requires |parts| >= 2 && Unprefixed(tag) == text + (Join(parts, '.') + Tagged(pre, build))
    requires (forall c :: c in text ==> !IsDigit(c)) && (text != "" ==> text[|text| - 1] in {'-', '_'})
    requires '+' !in pre && forall p :: p in parts ==> AllDigits(p)
    ensures Coerced(tag) == Some(NumeralAt(parts, 0) + "." + NumeralAt(parts, 1) + "." + NumeralAt(parts, 2) +
                                 Tagged(pre, build))
  {
    DigitsJoined(parts);
    FromSeparator(text, Join(parts, '.') + Tagged(pre, build));
    RebuiltIs(parts, pre, build);
  }

  function NumeralAt(parts: seq<string>, i: nat): string
    requires forall p :: p in parts ==> AllDigits(p)
  {
    if i < |parts| then
      assert parts[i] in parts && AllDigits(parts[i]);
      Decimal(DigitsValue(parts[i]))
    else "0"
  }

  lemma FromSeparator(text: string, rest: string)
    requires (forall c :: c in text ==> !IsDigit(c)) && (text != "" ==> text[|text| - 1] in {'-', '_'})
    requires rest != "" && IsDigit(rest[0])
    ensures FromFirstDigit(text + rest) == Some(rest)
  {
    FirstDigitAt(text, rest);
    if text != "" { assert (text + rest)[|text| - 1] == text[|text| - 1]; }
  }

  lemma RebuiltIs(parts: seq<string>, pre: string, build: string)
    requires |parts| >= 2 && '+' !in pre && forall p :: p in parts ==> AllDigits(p)
    ensures Rebuilt(Join(parts, '.') + Tagged(pre, build)) ==
              Some(NumeralAt(parts, 0) + "." + NumeralAt(parts, 1) + "." + NumeralAt(parts, 2) + Tagged(pre, build))
  {
    DigitsJoined(parts);
    SuffixTakenApart(Join(parts, '.'), pre, build);
    SplitJoin(parts, '.');
    ThreeNumerals(parts);
    AssembledIs(ThreeParts(parts), pre, build);
  }

  lemma ThreeNumerals(parts: seq<string>)
    requires forall p :: p in parts ==> AllDigits(p)
    ensures ThreeParts(parts) == [NumeralAt(parts, 0), NumeralAt(parts, 1), NumeralAt(parts, 2)]
  {
    CoercedPartsAreNumbers(parts);
    assert DigitsValue("0") == 0 && Decimal(0) == "0" by { assert DigitsValue("0"[..0]) == 0; }
  }

  lemma AssembledIs(p: seq<string>, pre: string, build: string)
    requires |p| == 3
    ensures Assembled(p, pre, build) == p[0] + "." + p[1] + "." + p[2] + Tagged(pre, build)
  {
  }

  lemma {:induction false} DigitsJoined(parts: seq<string>)
    requires parts != [] && forall p :: p in parts ==> AllDigits(p)
    ensures var s := Join(parts, '.'); s != "" && IsDigit(s[0]) && '-' !in s && '+' !in s
    ensures forall p :: p in parts ==> '.' !in p
  {
    assert parts[0] in parts;
    DigitsAreNot(parts[0], '-'); DigitsAreNot(parts[0], '+');
    if |parts| > 1 {
      assert forall p :: p in parts[1..] ==> p in parts;
      DigitsJoined(parts[1..]);
    }
    forall p | p in parts ensures '.' !in p { DigitsAreNot(p, '.'); }
  }

  /** Build metadata is cut off at the first plus, then the prerelease at the first dash. */
  lemma SuffixTakenApart(core: string, pre: string, build: string)
    requires '-' !in core && '+' !in core && '+' !in pre
    ensures var s := core + Tagged(pre, build);
            var main := Before(s, '+');
            After(s, '+') == build && Before(main, '-') == core && After(main, '-') == pre
  {
    var dashed := if pre == "" then "" else "-" + pre;
    var built := if build == "" then "" else "+" + build;
    var main := core + dashed;
    assert main + built == core + (dashed + built);
    NoPlus(core, dashed);
    PlusCut(main, build);
    DashCut(core, pre);
  }

  lemma NoPlus(a: string, b: string)
    requires '+' !in a && '+' !in b
    ensures '+' !in a + b
  {
  }

  lemma PlusCut(main: string, build: string)
    requires '+' !in main
    ensures var s := main + if build == "" then "" else "+" + build; Before(s, '+') == main && After(s, '+') == build
  {
    var s := main + if build == "" then "" else "+" + build;
    if build != "" { assert s[|main|] == '+' && s[|main| + 1..] == build; }
    BeforeIs(s, '+', main);
  }

  lemma DashCut(core: string, pre: string)
    requires '-' !in core
    ensures var s := core + if pre == "" then "" else "-" + pre; Before(s, '-') == core && After(s, '-') == pre
  {
    var s := core + if pre == "" then "" else "-" + pre;
    if pre != "" { assert s[|core|] == '-' && s[|core| + 1..] == pre; }
    BeforeIs(s, '-', core);
  }

  /** A tag that merely ends in digits is not a version unless the library itself says so: when the
      first digit follows a letter or any other non-separator, only the strict reading counts. */
  lemma VariantDigitsAreNotAVersion(parse: Parser, tag: string, i: nat)
    requires i + 1 < |Unprefixed(tag)| && IsDigit(Unprefixed(tag)[i + 1]) && Unprefixed(tag)[i] !in {'-', '_'}
    requires forall k :: 0 <= k <= i ==> !IsDigit(Unprefixed(tag)[k])
    ensures ParseVer(parse, tag) == parse(TrimSpace(tag))
  {
    assert FirstDigit(Unprefixed(tag)) == i + 1;
  }

  // ---------------------------------------------------------------- precision

  predicate AllNumeric(parts: seq<string>) { forall p :: p in parts ==> Atoi(p).Some? }

  /** How many components a tag spells out; 3 when it is not a dotted number. */
  function Precision(tag: string): (p: nat)
    ensures 1 <= p <= 3
  {
    PrecisionOf(Unprefixed(tag))
  }

  function PrecisionOf(s: string): (p: nat)
    ensures 1 <= p <= 3
  {
    var i := FirstDigit(s);
    if i < 0 then 3
    else
      var parts := Split(Before(Before(s[i..], '-'), '+'), '.');
      if |parts| > 3 || !AllNumeric(parts) then 3 else |parts|
  }

  /** The tag is a dotted number of these components after some text without digits, and then nothing or
      a suffix that starts with a dash or a plus. */
  predicate Spells(s: string, text: string, parts: seq<string>, suffix: string)
  {
    && parts != [] && AllNumeric(parts) && (suffix == "" || suffix[0] in {'-', '+'})
    && (forall c :: c in text ==> !IsDigit(c)) && s == text + Join(parts, '.') + suffix
  }

  lemma NumericHasOnlyDigits(parts: seq<string>)
    requires parts != [] && AllNumeric(parts)
    ensures var s := Join(parts, '.'); s != "" && IsDigit(s[0]) && '-' !in s && '+' !in s
    ensures forall p :: p in parts ==> '.' !in p
  {
    assert parts[0] in parts;
    DigitsAreNot(parts[0], '-'); DigitsAreNot(parts[0], '+');
    if |parts| > 1 {
      assert forall p :: p in parts[1..] ==> p in parts;
      NumericHasOnlyDigits(parts[1..]);
    }
    forall p | p in parts ensures '.' !in p { DigitsAreNot(p, '.'); }
  }

  /** The number ends at the first dash or plus, whichever comes first. */
  lemma BeforeBoth(s: string, suffix: string)
    requires '-' !in s && '+' !in s && (suffix == "" || suffix[0] in {'-', '+'})
    ensures Before(Before(s + suffix, '-'), '+') == s
  {
    var whole := s + suffix;
    var cut := Before(whole, '-');
    BeforeFacts(whole, '-');
    forall k | 0 <= k < |s| ensures whole[k] != '-' { assert s[k] in s; }
    assert |cut| >= |s| && s <= cut;
    if |cut| > |s| { assert cut[|s|] == suffix[0]; }
    BeforeIs(cut, '+', s);
  }

  lemma FirstDigitAt(text: string, rest: string)
    requires (forall c :: c in text ==> !IsDigit(c)) && rest != "" && IsDigit(rest[0])
    ensures FirstDigit(text + rest) == |text| && (text + rest)[|text|..] == rest
  {
    var s := text + rest;
    assert s[|text|] == rest[0];
    forall k | 0 <= k < |text| ensures !IsDigit(s[k]) { assert s[k] == text[k] && text[k] in text; }
  }

  /** A spelled-out tag has the precision of its components, and three or more count as a full pin. */
  lemma SpelledPrecision(whole: string, text: string, parts: seq<string>, suffix: string)
    requires Spells(whole, text, parts, suffix)
    ensures PrecisionOf(whole) == if |parts| <= 3 then |parts| else 3
  {
    var s := Join(parts, '.');
    NumericHasOnlyDigits(parts);
    assert whole == text + (s + suffix);
    assert text + s + suffix == text + (s + suffix) && (s + suffix)[0] == s[0];
    FirstDigitAt(text, s + suffix);
    BeforeBoth(s, suffix);
    SplitJoin(parts, '.');
  }

  /** A tag tracks a line of versions, by one or two components, exactly when it spells out that many;
      every other tag is a full pin. */
  lemma PrecisionIff(tag: string, n: nat)
    requires n == 1 || n == 2
    ensures Precision(tag) == n <==>
      exists text, parts, suffix :: |parts| == n && Spells(Unprefixed(tag), text, parts, suffix)
  {
    var s := Unprefixed(tag);
    if text, parts, suffix :| |parts| == n && Spells(s, text, parts, suffix) {
      SpelledPrecision(s, text, parts, suffix);
    }
    if Precision(tag) == n {
      var text, parts, suffix := LineIsSpelled(s);
      assert |parts| == n && Spells(s, text, parts, suffix);
    }
  }

  lemma LineIsSpelled(s: string) returns (text: string, parts: seq<string>, suffix: string)
    requires PrecisionOf(s) < 3
    ensures |parts| == PrecisionOf(s) && Spells(s, text, parts, suffix)
  {
    var i := FirstDigit(s);
    var rest := s[i..];
    var core := Before(Before(rest, '-'), '+');
    CutAtFirst(rest);
    JoinSplit(core, '.');
    text, parts, suffix := s[..i], Split(core, '.'), rest[|core|..];
    Rejoined(s, i, core);
  }

  lemma Rejoined(s: string, i: nat, core: string)
    requires i <= |s| && core <= s[i..] && forall k :: 0 <= k < i ==> !IsDigit(s[k])
    ensures s == s[..i] + core + s[i..][|core|..] && forall c :: c in s[..i] ==> !IsDigit(c)
  {
    assert s == s[..i] + s[i..] && s[i..] == core + s[i..][|core|..];
  }

  lemma CutAtFirst(rest: string)
    ensures var core := Before(Before(rest, '-'), '+');
            && core <= rest && rest == core + rest[|core|..]
            && (rest[|core|..] == "" || rest[|core|..][0] in {'-', '+'})
  {
    var dashed := Before(rest, '-');
    BeforeFacts(rest, '-');
    BeforeFacts(dashed, '+');
    var core := Before(dashed, '+');
    if |core| < |dashed| { assert rest[|core|] == dashed[|core|]; }
  }
}
