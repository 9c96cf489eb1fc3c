/** The string operations of Go's standard library that the modelled code relies on. */
module Strings {
  import opened Wrappers

  function IndexOf(s: string, c: char): (i: int)
    ensures -1 <= i < |s|
    ensures i >= 0 ==> s[i] == c
    ensures i == -1 ==> c !in s
    ensures forall k :: 0 <= k < i ==> s[k] != c
  {
    if s == [] then -1
    else if s[0] == c then 0
    else
      var i := IndexOf(s[1..], c);
      assert forall k :: 1 <= k < |s| ==> s[k] == s[1..][k - 1];
      if i < 0 then -1 else i + 1
  }

  function LastIndexOf(s: string, c: char): (i: int)
    ensures -1 <= i < |s|
    ensures i >= 0 ==> s[i] == c
    ensures forall k :: i < k < |s| ==> s[k] != c
  {
    if s == [] then -1
    else if s[|s| - 1] == c then |s| - 1
    else LastIndexOf(s[..|s| - 1], c)
  }

  /** The part of s before the first c, or all of s. */
  function Before(s: string, c: char): (r: string)
    ensures |r| <= |s|
  {
    var i := IndexOf(s, c);
    if i < 0 then s else s[..i]
  }

  /** The part of s after the first c, or nothing. */
  function After(s: string, c: char): (r: string)
    ensures |r| <= |s| && (c in s ==> |r| < |s|)
  {
    var i := IndexOf(s, c);
    if i < 0 then "" else s[i + 1..]
  }

  /** The index is that of the first occurrence. */
  lemma IndexIs(s: string, c: char, n: nat)
    requires n < |s| && s[n] == c && forall k :: 0 <= k < n ==> s[k] != c
    ensures IndexOf(s, c) == n
  {
    assert s[n] in s;
  }

  lemma BeforeIs(s: string, c: char, r: string)
    requires r <= s && c !in r && (r < s ==> s[|r|] == c)
    ensures Before(s, c) == r
    ensures After(s, c) == if r < s then s[|r| + 1..] else ""
  {
    if r == s {
      assert IndexOf(s, c) < 0;
    } else {
      forall k | 0 <= k < |r| ensures s[k] != c { assert r[k] in r; }
      IndexIs(s, c, |r|);
    }
  }

  lemma BeforeFacts(s: string, c: char)
    ensures var r := Before(s, c);
            && r <= s && c !in r && (r < s ==> s[|r|] == c) && (c !in s <==> r == s)
            && (c in s ==> s == r + [c] + After(s, c)) && (c !in s ==> After(s, c) == "")
  {
    var i := IndexOf(s, c);
    if i >= 0 { assert s[i] in s; }
  }

  function Split(s: string, c: char): (parts: seq<string>)
    ensures |parts| >= 1
    decreases |s|
  {
    if c in s then [Before(s, c)] + Split(After(s, c), c) else [s]
  }

  lemma SplitAt(a: string, rest: string, c: char)
    requires c !in a
    ensures Split(a + [c] + rest, c) == [a] + Split(rest, c)
  {
    var s := a + [c] + rest;
    assert s[|a|] == c && s[|a|] in s;
    BeforeIs(s, c, a);
    assert s[|a| + 1..] == rest;
  }

  function Join(parts: seq<string>, c: char): string
    requires parts != []
  {
    if |parts| == 1 then parts[0] else parts[0] + [c] + Join(parts[1..], c)
  }

  /** Splitting is undone by joining, and undoes it when no part has the separator in it. */
  lemma {:induction false} JoinSplit(s: string, c: char)
    ensures Join(Split(s, c), c) == s && forall p :: p in Split(s, c) ==> c !in p
    decreases |s|
  {
    BeforeFacts(s, c);
    if c in s {
      var rest := After(s, c);
      JoinSplit(rest, c);
      assert Split(s, c)[1..] == Split(rest, c);
    }
  }

  lemma {:induction false} SplitJoin(parts: seq<string>, c: char)
    requires parts != [] && forall p :: p in parts ==> c !in p
    ensures Split(Join(parts, c), c) == parts
  {
    if |parts| > 1 {
      SplitJoin(parts[1..], c);
      SplitAt(parts[0], Join(parts[1..], c), c);
    }
  }

  predicate IsSpace(c: char)
  {
    c in {'\t', '\n', '\U{0B}', '\U{0C}', '\r', ' ', '\U{85}', '\U{A0}', '\U{1680}', '\U{2028}', '\U{2029}',
          '\U{202F}', '\U{205F}', '\U{3000}'} || '\U{2000}' <= c <= '\U{200A}'
  }

  function TrimLeft(s: string): (r: string)
    ensures |r| <= |s| && (r == "" || !IsSpace(r[0]))
    ensures s != "" && !IsSpace(s[0]) ==> r == s
  {
    if s != "" && IsSpace(s[0]) then TrimLeft(s[1..]) else s
  }

  function TrimRight(s: string): (r: string)
    ensures r <= s && (r == "" || !IsSpace(r[|r| - 1]))
    ensures s != "" && !IsSpace(s[|s| - 1]) ==> r == s
  {
    if s != "" && IsSpace(s[|s| - 1]) then TrimRight(s[..|s| - 1]) else s
  }

  function TrimSpace(s: string): string { TrimRight(TrimLeft(s)) }

  function TrimPrefix(s: string, prefix: string): string
  {
    if prefix <= s then s[|prefix|..] else s
  }

  predicate HasSuffix(s: string, suffix: string)
  {
    |suffix| <= |s| && s[|s| - |suffix|..] == suffix
  }

  function TrimSuffix(s: string, suffix: string): (r: string)
    ensures r <= s && (r == s || s == r + suffix)
  {
    if HasSuffix(s, suffix) then s[..|s| - |suffix|] else s
  }

  predicate IsDigit(c: char) { '0' <= c <= '9' }

  predicate IsHex(c: char) { IsDigit(c) || 'a' <= c <= 'f' || 'A' <= c <= 'F' }

  predicate AllDigits(s: string) { s != "" && forall i :: 0 <= i < |s| ==> IsDigit(s[i]) }

  predicate AllHex(s: string) { s != "" && forall i :: 0 <= i < |s| ==> IsHex(s[i]) }

  function DigitValue(c: char): (n: nat)
    requires IsDigit(c)
    ensures n < 10
  {
    c as int - '0' as int
  }

  function DigitsValue(s: string): nat
    requires forall i :: 0 <= i < |s| ==> IsDigit(s[i])
  {
    if s == "" then 0 else 10 * DigitsValue(s[..|s| - 1]) + DigitValue(s[|s| - 1])
  }

  const MAX_INT := 0x7FFF_FFFF_FFFF_FFFF

  /** strconv.Atoi on text without a sign, which is all the callers can pass: an empty, non-numeric or
      too large component is an error. */
  function Atoi(s: string): (n: Option<nat>)
    ensures n.Some? <==> AllDigits(s) && DigitsValue(s) <= MAX_INT
    ensures n.Some? ==> n.value == DigitsValue(s)
  {
    if AllDigits(s) && DigitsValue(s) <= MAX_INT then Some(DigitsValue(s)) else None
  }

  /** Decimal notation. */
  function Decimal(n: nat): (s: string)
    ensures AllDigits(s) && DigitsValue(s) == n
  {
    var last := (n % 10 + '0' as int) as char;
    if n < 10 then
      assert DigitsValue([last][..0]) == 0;
      [last]
    else
      var front := Decimal(n / 10);
      assert (front + [last])[..|front|] == front;
      front + [last]
  }

  predicate LeadingZero(s: string) { |s| > 1 && s[0] == '0' }

  /** A numeral without leading zeros is the decimal notation of its value. */
  lemma {:induction false} DecimalOfValue(s: string)
    requires AllDigits(s) && !LeadingZero(s)
    ensures Decimal(DigitsValue(s)) == s
  {
    var front, last := s[..|s| - 1], s[|s| - 1];
    if |s| == 1 {
      assert DigitsValue(front) == 0;
    } else {
      assert AllDigits(front) && front[0] == s[0];
      DecimalOfValue(front);
      PositiveValue(front);
      assert DigitsValue(s) / 10 == DigitsValue(front) && DigitsValue(s) % 10 == DigitValue(last);
      assert s == front + [last];
    }
  }

  lemma {:induction false} PositiveValue(s: string)
    requires AllDigits(s) && s[0] != '0'
    ensures DigitsValue(s) > 0
  {
    if |s| > 1 { PositiveValue(s[..|s| - 1]); } else { assert DigitsValue(s[..0]) == 0; }
  }

  lemma {:induction false} ZeroInFront(s: string)
    requires forall i :: 0 <= i < |s| ==> IsDigit(s[i])
    ensures DigitsValue("0" + s) == DigitsValue(s)
  {
    if s == "" {
      assert DigitsValue("0"[..0]) == 0;
    } else {
      var n := |s| - 1;
      ZeroInFront(s[..n]);
      assert ("0" + s)[..|s|] == "0" + s[..n];
    }
  }

  /** Go compares strings bytewise, which on UTF-8 text is the order of the characters. */
  function CompareStrings(a: string, b: string): (r: int)
    ensures r in {-1, 0, 1}
    ensures r == 0 <==> a == b
  {
    if a == b then 0
    else if a == "" then -1
    else if b == "" then 1
    else if a[0] < b[0] then -1
    else if a[0] > b[0] then 1
    else
      assert a == [a[0]] + a[1..] && b == [b[0]] + b[1..];
      CompareStrings(a[1..], b[1..])
  }

  lemma {:induction false} CompareStringsAntisymmetric(a: string, b: string)
    ensures CompareStrings(a, b) == -CompareStrings(b, a)
  {
    if a != b && a != "" && b != "" && a[0] == b[0] {
      assert a == [a[0]] + a[1..] && b == [b[0]] + b[1..];
      CompareStringsAntisymmetric(a[1..], b[1..]);
    }
  }

  lemma {:induction false} CompareStringsTransitive(a: string, b: string, c: string)
    requires CompareStrings(a, b) <= 0 && CompareStrings(b, c) <= 0
    ensures CompareStrings(a, c) <= 0
  {
    if a != b && b != c && a != "" && b != "" && c != "" && a[0] == b[0] == c[0] {
      CompareStringsTransitive(a[1..], b[1..], c[1..]);
    }
  }

  lemma {:induction false} PrefixIsSmaller(a: string, b: string)
    requires a < b
    ensures CompareStrings(a, b) == -1
  {
    if a != "" {
      assert a[1..] < b[1..];
      PrefixIsSmaller(a[1..], b[1..]);
    }
  }

  /** Text order: b goes on where a ends, or has the greater character at the first place they differ. */
  ghost predicate TextBefore(a: string, b: string)
  {
    a < b || exists k :: 0 <= k < |a| && k < |b| && a[..k] == b[..k] && a[k] < b[k]
  }

  lemma {:induction false} CompareStringsIff(a: string, b: string)
    ensures CompareStrings(a, b) < 0 <==> TextBefore(a, b)
  {
    if a != "" && b != "" && a[0] == b[0] {
      CompareStringsIff(a[1..], b[1..]);
      SameHead(a, b);
    } else if a != "" && b != "" {
      assert a[..0] == b[..0];
      if a[0] > b[0] && TextBefore(a, b) {
        var k :| 0 <= k < |a| && k < |b| && a[..k] == b[..k] && a[k] < b[k];
        assert k > 0 ==> a[..k][0] == b[..k][0];
      }
    }
  }

  lemma SameHead(a: string, b: string)
    requires a != "" && b != "" && a[0] == b[0]
    ensures TextBefore(a, b) <==> TextBefore(a[1..], b[1..])
  {
    var x, y := a[1..], b[1..];
    assert a == [a[0]] + x && b == [a[0]] + y;
    if k :| 0 <= k < |x| && k < |y| && x[..k] == y[..k] && x[k] < y[k] {
      assert a[..k + 1] == [a[0]] + x[..k] && b[..k + 1] == [a[0]] + y[..k] && a[k + 1] < b[k + 1];
    }
    if k :| 0 <= k < |a| && k < |b| && a[..k] == b[..k] && a[k] < b[k] {
      assert x[..k - 1] == a[..k][1..] && y[..k - 1] == b[..k][1..] && x[k - 1] < y[k - 1];
    }
  }

  predicate AllSpace(s: string) { forall c :: c in s ==> IsSpace(c) }

  /** Trimming takes off space, all of it, and nothing else. */
  lemma TrimSpaceIs(s: string) returns (a: string, b: string)
    ensures AllSpace(a) && AllSpace(b) && s == a + TrimSpace(s) + b
    ensures var t := TrimSpace(s); t == "" || (!IsSpace(t[0]) && !IsSpace(t[|t| - 1]))
  {
    a := TrimLeftIs(s);
    b := TrimRightIs(TrimLeft(s));
  }

  lemma {:induction false} TrimLeftIs(s: string) returns (a: string)
    ensures AllSpace(a) && s == a + TrimLeft(s)
  {
    a := "";
    if s != "" && IsSpace(s[0]) {
      var rest := TrimLeftIs(s[1..]);
      a := [s[0]] + rest;
    }
  }

  lemma {:induction false} TrimRightIs(s: string) returns (b: string)
    ensures AllSpace(b) && s == TrimRight(s) + b
  {
    b := "";
    if s != "" && IsSpace(s[|s| - 1]) {
      var rest := TrimRightIs(s[..|s| - 1]);
      b := rest + [s[|s| - 1]];
    }
  }

  // ---------------------------------------------------------------- trimming and joining

  lemma {:induction false} TrimRightJoin(a: string, b: string)
    requires a != "" && !IsSpace(a[|a| - 1])
    ensures TrimRight(a + b) == a + TrimRight(b)
  {
    var s := a + b;
    if b != "" && IsSpace(b[|b| - 1]) {
      assert s[..|s| - 1] == a + b[..|b| - 1];
      TrimRightJoin(a, b[..|b| - 1]);
    } else if b == "" {
      assert s == a;
    }
  }

  lemma {:induction false} TrimLeftJoin(a: string, b: string)
    requires b != "" && !IsSpace(b[0])
    ensures TrimLeft(a + b) == TrimLeft(a) + b
  {
    if a != "" && IsSpace(a[0]) {
      assert (a + b)[1..] == a[1..] + b;
      TrimLeftJoin(a[1..], b);
    } else if a == "" {
      assert a + b == b;
    }
  }

  lemma {:induction false} TrimLeftKeepsEnd(s: string)
    requires s == "" || !IsSpace(s[|s| - 1])
    ensures var t := TrimLeft(s); t == "" || !IsSpace(t[|t| - 1])
  {
    if s != "" && IsSpace(s[0]) { TrimLeftKeepsEnd(s[1..]); }
  }

  lemma TrimPrefixJoin(a: string, b: string, p: string)
    requires |p| == 1 && b != "" && b[0] != p[0]
    ensures TrimPrefix(a + b, p) == TrimPrefix(a, p) + b
  {
    if a == "" { assert a + b == b; } else { assert (a + b)[1..] == a[1..] + b; }
  }

  lemma DigitsAreNot(s: string, c: char)
    requires AllDigits(s) && !IsDigit(c)
    ensures c !in s
  {
  }

  // ---------------------------------------------------------------- what may stand in front of a version

  predicate Lead(lead: string) { lead in {"", "v", "V", "vV"} }

  /** Trimming, and taking one v and one V off, leaves what begins with the first digit. */
  lemma LeadOff(lead: string, s: string)
    requires Lead(lead) && s != "" && IsDigit(s[0])
    ensures TrimPrefix(TrimPrefix(TrimSpace(lead + s), "v"), "V") == TrimRight(s)
  {
    RightTrimmedDigit(s);
    LeadIsNoSpace(lead);
    TrimmedLead(lead, s);
    LeadsOff(lead, TrimRight(s));
  }

  lemma LeadIsNoSpace(lead: string)
    requires Lead(lead)
    ensures lead != "" ==> !IsSpace(lead[0]) && !IsSpace(lead[|lead| - 1])
  {
  }

  lemma TrimmedLead(lead: string, s: string)
    requires lead != "" ==> !IsSpace(lead[0]) && !IsSpace(lead[|lead| - 1])
    requires s != "" && !IsSpace(s[0])
    ensures TrimSpace(lead + s) == lead + TrimRight(s)
  {
    var text := lead + s;
    if lead == "" {
      assert text == s && lead + TrimRight(s) == TrimRight(s);
    } else {
      assert text[0] == lead[0];
      TrimRightJoin(lead, s);
    }
  }

  lemma LeadsOff(lead: string, t: string)
    requires Lead(lead) && t != "" && IsDigit(t[0])
    ensures TrimPrefix(TrimPrefix(lead + t, "v"), "V") == t
  {
    if lead == "" {
      assert lead + t == t;
    } else if lead == "vV" {
      assert lead + t == "v" + ("V" + t);
      PrefixOff("v", "V" + t);
      PrefixOff("V", t);
    } else {
      PrefixOff(lead, t);
      if lead == "V" { assert !("v" <= lead + t) by { assert (lead + t)[0] == 'V'; } }
    }
  }

  lemma PrefixOff(p: string, t: string)
    ensures TrimPrefix(p + t, p) == t
  {
  }

  lemma RightTrimmedDigit(s: string)
    requires s != "" && IsDigit(s[0])
    ensures TrimRight(s) != "" && TrimRight(s)[0] == s[0]
  {
    assert s == [s[0]] + s[1..];
    TrimRightJoin([s[0]], s[1..]);
  }
}
