/** The image-pull progress stream (internal/dockerx/recreate.go): which streams fail a pull, and
    which percentages are reported on the way. Go's int64 arithmetic is written out. */
module PullProgress {

  /** One item of the stream: a decoded message, or something the JSON decoder rejects. */
  datatype Line = Garbage | Msg(id: string, error: string, current: int64, total: int64)

  const TWO63: int := 0x8000_0000_0000_0000
  const TWO64: int := 0x1_0000_0000_0000_0000

  newtype int64 = x: int | -0x8000_0000_0000_0000 <= x < 0x8000_0000_0000_0000

  /** Two's-complement wrap-around of a mathematical integer. */
  function Wrap(x: int): (r: int64)
  {
    ((x + TWO63) % TWO64 - TWO63) as int64
  }

  lemma WrapSmall(x: int)
    requires -TWO63 <= x < TWO63
    ensures Wrap(x) as int == x
  {
  }

  lemma WrapAbsorbs(a: int, b: int)
    ensures Wrap(Wrap(a) as int + b) == Wrap(a + b)
  {
    var k := (a + TWO63) / TWO64;
    assert a + TWO63 == k * TWO64 + (a + TWO63) % TWO64;
    assert Wrap(a) as int + b + TWO63 == (a + b + TWO63) - k * TWO64;
    ModShift(a + b + TWO63, k);
  }

  lemma ModShift(x: int, k: int)
    ensures (x - k * TWO64) % TWO64 == x % TWO64
  {
    var q, r := x / TWO64, x % TWO64;
    assert x - k * TWO64 == (q - k) * TWO64 + r;
    DivModUnique(x - k * TWO64, q - k, r);
  }

  lemma DivModUnique(x: int, q: int, r: int)
    requires x == q * TWO64 + r && 0 <= r < TWO64
    ensures x % TWO64 == r
  {
    var q', r' := x / TWO64, x % TWO64;
    assert (q - q') * TWO64 == r' - r;
  }

  /** Go's integer division, which truncates toward zero. */
  function TruncDiv(a: int, b: int): int
    requires b > 0
  {
    if a >= 0 then a / b else -((-a) / b)
  }

  // ---------------------------------------------------------------- what a stream means

  /** How many lines the reader consumes normally: it stops at the first undecodable line and at the
      first message carrying an error. */
  function Consumed(lines: seq<Line>): (n: nat)
    ensures n <= |lines|
    ensures forall i :: 0 <= i < n ==> lines[i].Msg? && lines[i].error == ""
    ensures n < |lines| ==> lines[n].Garbage? || lines[n].error != ""
  {
    if lines == [] || lines[0].Garbage? || lines[0].error != "" then 0
    else 1 + Consumed(lines[1..])
  }

  /** The last positive value a layer reported, or 0. */
  function LastCurrent(lines: seq<Line>, id: string): (c: int)
    ensures 0 <= c < TWO63
  {
    if lines == [] then 0
    else
      var m := lines[|lines| - 1];
      if m.Msg? && m.id == id && m.current > 0 then m.current as int
      else LastCurrent(lines[..|lines| - 1], id)
  }

  function LastTotal(lines: seq<Line>, id: string): (c: int)
    ensures 0 <= c < TWO63
  {
    if lines == [] then 0
    else
      var m := lines[|lines| - 1];
      if m.Msg? && m.id == id && m.total > 0 then m.total as int
      else LastTotal(lines[..|lines| - 1], id)
  }

  /** One of a message's two numbers. */
  function Number(m: Line, total: bool): int
    requires m.Msg?
  {
    if total then m.total as int else m.current as int
  }

  /** The layer's last positive number is at i. */
  ghost predicate LastPositiveAt(lines: seq<Line>, id: string, total: bool, i: int)
  {
    && 0 <= i < |lines| && lines[i].Msg? && lines[i].id == id && Number(lines[i], total) > 0
    && forall j :: i < j < |lines| && lines[j].Msg? && lines[j].id == id ==> Number(lines[j], total) <= 0
  }

  /** Zero and negative numbers say nothing: what counts is the last positive one, or 0 if there is none. */
  lemma {:induction false} LastPositive(lines: seq<Line>, id: string, total: bool)
    ensures var last := if total then LastTotal(lines, id) else LastCurrent(lines, id);
            && (last > 0 ==> exists i :: LastPositiveAt(lines, id, total, i) && Number(lines[i], total) == last)
            && (last == 0 ==>
                  forall j :: 0 <= j < |lines| && lines[j].Msg? && lines[j].id == id ==> Number(lines[j], total) <= 0)
  {
    if lines != [] {
      var n := |lines| - 1;
      var m := lines[n];
      if m.Msg? && m.id == id && Number(m, total) > 0 {
        assert LastPositiveAt(lines, id, total, n);
      } else {
        LastPositive(lines[..n], id, total);
        var last := if total then LastTotal(lines, id) else LastCurrent(lines, id);
        if last > 0 {
          var i :| LastPositiveAt(lines[..n], id, total, i) && Number(lines[..n][i], total) == last;
          OneLater(lines, id, total, i);
        } else {
          forall j | 0 <= j < |lines| && lines[j].Msg? && lines[j].id == id ensures Number(lines[j], total) <= 0 {
            if j < n { assert lines[..n][j] == lines[j]; }
          }
        }
      }
    }
  }

  lemma OneLater(lines: seq<Line>, id: string, total: bool, i: int)
    requires lines != [] && LastPositiveAt(lines[..|lines| - 1], id, total, i)
    requires var m := lines[|lines| - 1]; m.Msg? && m.id == id ==> Number(m, total) <= 0
    ensures LastPositiveAt(lines, id, total, i) && lines[i] == lines[..|lines| - 1][i]
  {
    var front := lines[..|lines| - 1];
    forall j | i < j < |lines| && lines[j].Msg? && lines[j].id == id ensures Number(lines[j], total) <= 0 {
      if j < |front| { assert front[j] == lines[j]; }
    }
  }

  function Ids(lines: seq<Line>): set<string>
  {
    set m | m in lines && m.Msg? && m.id != "" :: m.id
  }

  ghost function Sum(s: set<string>, f: string -> int): int
  {
    if s == {} then 0 else var x :| x in s; f(x) + Sum(s - {x}, f)
  }

  /** The sum does not depend on the order in which the elements are visited. */
  lemma {:induction false} SumAnyOrder(s: set<string>, f: string -> int, y: string)
    requires y in s
    ensures Sum(s, f) == f(y) + Sum(s - {y}, f)
  {
    var x :| x in s && Sum(s, f) == f(x) + Sum(s - {x}, f);
    if x != y {
      SumAnyOrder(s - {x}, f, y);
      SumAnyOrder(s - {y}, f, x);
      assert s - {x} - {y} == s - {y} - {x};
    }
  }

  function CurrentOf(lines: seq<Line>): string -> int { id => LastCurrent(lines, id) }

  function TotalOf(lines: seq<Line>): string -> int { id => LastTotal(lines, id) }

  ghost function SumCurrent(lines: seq<Line>): int { Sum(Ids(lines), CurrentOf(lines)) }

  ghost function SumTotal(lines: seq<Line>): int { Sum(Ids(lines), TotalOf(lines)) }

  /** The percentage as Go computes it from two int64 sums. */
  function GoPercent(current: int64, total: int64): int
  {
    if total > 0 then
      var p := TruncDiv(Wrap(current as int * 100) as int, total as int);
      if p > 100 then 100 else p
    else 0
  }

  /** The percentage a reader expects: floor(100 * current / total), at most 100. */
  function Percent(current: int, total: int): (p: int)
    requires current >= 0
    ensures 0 <= p <= 100
  {
    if total <= 0 then 0 else if 100 * current / total > 100 then 100 else 100 * current / total
  }

  /** A hundred once all is there; before that, the whole number of hundredths that are. */
  lemma PercentIs(current: int, total: int)
    requires current >= 0 && total > 0
    ensures var p := Percent(current, total);
            if current >= total then p == 100 else p * total <= 100 * current < (p + 1) * total
  {
    if current >= total { HundredAtLeast(current, total); } else { BelowHundred(current, total); }
  }

  lemma BelowHundred(current: int, total: int)
    requires 0 <= current < total
    ensures var q := 100 * current / total; 0 <= q < 100 && q * total <= 100 * current < (q + 1) * total
  {
    var q := 100 * current / total;
    QuotientBounds(100 * current, total);
    Distributes(q, total);
    if q >= 100 { LessOfProducts(q, 100, total); }
  }

  lemma Distributes(q: int, t: int)
    ensures (q + 1) * t == q * t + t
  {
  }

  lemma HundredAtLeast(current: int, total: int)
    requires current >= total > 0
    ensures 100 * current / total >= 100
  {
    QuotientBounds(100 * current, total);
    if 100 * current / total < 100 { LessOfProducts(100, 100 * current / total + 1, total); }
  }

  predicate NamesLayer(line: Line) { line.Msg? && line.id != "" }

  /** One value for each of the first n lines that names a layer, computed from the lines so far. */
  ghost function Values(lines: seq<Line>, n: nat, f: seq<Line> -> int): seq<int>
    requires n <= |lines|
  {
    if n == 0 then []
    else Values(lines, n - 1, f) + if NamesLayer(lines[n - 1]) then [f(lines[..n])] else []
  }

  /** What is reported for the first n lines. */
  ghost function Reports(lines: seq<Line>, n: nat): seq<int>
    requires n <= |lines|
  {
    Values(lines, n, GoAt)
  }

  /** What Go computes after these lines. */
  ghost function GoAt(seen: seq<Line>): int { GoPercent(Wrap(SumCurrent(seen)), Wrap(SumTotal(seen))) }

  // ---------------------------------------------------------------- the reading loop

  ghost predicate Tracks(layers: map<string, (int64, int64)>, seen: seq<Line>)
  {
    && layers.Keys == Ids(seen)
    && forall id :: id in layers ==> layers[id] == (LastCurrent(seen, id) as int64, LastTotal(seen, id) as int64)
  }

  lemma TracksNext(layers: map<string, (int64, int64)>, seen: seq<Line>, m: Line)
    requires Tracks(layers, seen) && m.Msg? && m.id != ""
    ensures
      var l := if m.id in layers then layers[m.id] else (0, 0);
      var l' := (if m.current > 0 then m.current else l.0, if m.total > 0 then m.total else l.1);
      Tracks(layers[m.id := l'], seen + [m])
  {
    var next := seen + [m];
    assert next[..|next| - 1] == seen;
    assert Ids(next) == Ids(seen) + {m.id} by {
      assert forall x :: x in next <==> x in seen || x == m;
    }
    if m.id !in layers { UnseenIsZero(seen, m.id); }
  }

  lemma {:induction false} UnseenIsZero(seen: seq<Line>, id: string)
    requires id !in Ids(seen) && id != ""
    ensures LastCurrent(seen, id) == 0 && LastTotal(seen, id) == 0
  {
    if seen != [] {
      assert seen[|seen| - 1] in seen;
      UnseenIsZero(seen[..|seen| - 1], id);
    }
  }

  lemma TracksSkip(layers: map<string, (int64, int64)>, seen: seq<Line>, m: Line)
    requires Tracks(layers, seen) && m.Msg? && m.id == ""
    ensures Tracks(layers, seen + [m])
  {
    var next := seen + [m];
    assert next[..|next| - 1] == seen;
    assert Ids(next) == Ids(seen) by {
      assert forall x :: x in next <==> x in seen || x == m;
    }
    forall id | id in layers
      ensures LastCurrent(next, id) == LastCurrent(seen, id) && LastTotal(next, id) == LastTotal(seen, id)
    {
      assert id != "";
    }
  }

  lemma SumGrows(done: set<string>, id: string, f: string -> int, acc: int64, v: int64)
    requires id !in done && acc == Wrap(Sum(done, f)) && v as int == f(id)
    ensures Wrap(acc as int + v as int) == Wrap(Sum(done + {id}, f))
  {
    WrapAbsorbs(Sum(done, f), v as int);
    SumAnyOrder(done + {id}, f, id);
    assert done + {id} - {id} == done;
  }

  /** Adds up one column of the layer table, in whatever order the keys come. */
  method AddUp(column: map<string, int64>, ghost f: string -> int) returns (total: int64)
    requires forall id :: id in column ==> column[id] as int == f(id)
    ensures total == Wrap(Sum(column.Keys, f))
  {
    total := 0;
    var rest := column.Keys;
    ghost var done: set<string> := {};
    while rest != {}
      invariant done !! rest && done + rest == column.Keys
      invariant total == Wrap(Sum(done, f))
      decreases rest
    {
      var id :| id in rest;
      SumGrows(done, id, f, total, column[id]);
      total := Wrap(total as int + column[id] as int);
      done, rest := done + {id}, rest - {id};
    }
    assert done == column.Keys;
  }

  /** The percentage computed from the layer table after one more message. */
  method Report(layers: map<string, (int64, int64)>, ghost seen: seq<Line>) returns (pct: int)
    requires Tracks(layers, seen)
    ensures pct == GoPercent(Wrap(SumCurrent(seen)), Wrap(SumTotal(seen)))
  {
    var currents := map id | id in layers :: layers[id].0;
    var totals := map id | id in layers :: layers[id].1;
    assert currents.Keys == totals.Keys == Ids(seen);
    var cur := AddUp(currents, CurrentOf(seen));
    var tot := AddUp(totals, TotalOf(seen));
    pct := GoPercent(cur, tot);
  }

  /** The layer table after one more message: a number that is not positive says nothing. */
  method Absorb(layers: map<string, (int64, int64)>, ghost seen: seq<Line>, msg: Line)
    returns (next: map<string, (int64, int64)>)
    requires Tracks(layers, seen) && msg.Msg?
    ensures Tracks(next, seen + [msg])
  {
    if msg.id == "" {
      TracksSkip(layers, seen, msg);
      return layers;
    }
    TracksNext(layers, seen, msg);
    var l := if msg.id in layers then layers[msg.id] else (0, 0);
    if msg.total > 0 { l := (l.0, msg.total); }
    if msg.current > 0 { l := (msg.current, l.1); }
    next := layers[msg.id := l];
  }

  /** A message carrying an error comes before anything undecodable. */
  predicate Breaks(lines: seq<Line>)
  {
    exists i :: 0 <= i < |lines| && lines[i].Msg? && lines[i].error != "" && forall j :: 0 <= j < i ==> lines[j].Msg?
  }

  /** Nothing in the first n lines stops the reader. */
  ghost predicate Clean(lines: seq<Line>, n: nat)
    requires n <= |lines|
  {
    forall j :: 0 <= j < n ==> lines[j].Msg? && lines[j].error == ""
  }

  /** One turn of the loop: take the message in, and report if it names a layer. */
  method Advance(layers: map<string, (int64, int64)>, lines: seq<Line>, i: nat, reports: seq<int>)
    returns (layers': map<string, (int64, int64)>, reports': seq<int>)
    requires i < |lines| && Tracks(layers, lines[..i]) && lines[i].Msg? && reports == Reports(lines, i)
    ensures Tracks(layers', lines[..i + 1]) && reports' == Reports(lines, i + 1)
  {
    layers' := Absorb(layers, lines[..i], lines[i]);
    assert lines[..i + 1] == lines[..i] + [lines[i]];
    reports' := reports;
    if lines[i].id != "" {
      var pct := Report(layers', lines[..i + 1]);
      reports' := reports + [pct];
    }
  }

  /** pullImage's loop over the stream. The pull fails exactly when a message carrying an error comes
      before anything undecodable; every report is the percentage over the last positive numbers of
      each layer so far. */
  method Drain(lines: seq<Line>) returns (ok: bool, reports: seq<int>)
    ensures ok <==> !Breaks(lines)
    ensures reports == Reports(lines, Consumed(lines))
  {
    ok, reports := true, [];
    var layers: map<string, (int64, int64)> := map[];
    var i := 0;
    while i < |lines| && lines[i].Msg?
      invariant 0 <= i <= |lines| && Clean(lines, i)
      invariant Tracks(layers, lines[..i]) && reports == Reports(lines, i)
    {
      if lines[i].error != "" {
        ConsumedIs(lines, i);
        BrokenOff(lines, i);
        return false, reports;
      }
      layers, reports := Advance(layers, lines, i, reports);
      i := i + 1;
    }
    ConsumedIs(lines, i);
    ReadToTheEnd(lines, i);
  }

  lemma BrokenOff(lines: seq<Line>, n: nat)
    requires n < |lines| && Clean(lines, n) && lines[n].Msg? && lines[n].error != ""
    ensures Breaks(lines)
  {
  }

  lemma ReadToTheEnd(lines: seq<Line>, n: nat)
    requires n <= |lines| && Clean(lines, n) && (n < |lines| ==> lines[n].Garbage?)
    ensures !Breaks(lines)
  {
  }

  lemma {:induction false} ConsumedIs(lines: seq<Line>, n: nat)
    requires n <= |lines| && Clean(lines, n)
    requires n < |lines| ==> lines[n].Garbage? || lines[n].error != ""
    ensures Consumed(lines) == n
  {
    if n > 0 { ConsumedIs(lines[1..], n - 1); }
  }

  // ---------------------------------------------------------------- what the reports mean

  /** Every prefix of the stream adds up to few enough bytes that 100 times the sum is an int64. */
  ghost predicate FitsInt64(lines: seq<Line>)
  {
    forall n :: 0 <= n <= |lines| ==> SumCurrent(lines[..n]) * 100 < TWO63 && SumTotal(lines[..n]) < TWO63
  }

  lemma {:induction false} SumNonNegative(s: set<string>, f: string -> int)
    requires forall x :: x in s ==> f(x) >= 0
    ensures Sum(s, f) >= 0
  {
    if s != {} {
      var x :| x in s;
      SumAnyOrder(s, f, x);
      SumNonNegative(s - {x}, f);
    }
  }

  lemma SumsNonNegative(lines: seq<Line>)
    ensures SumCurrent(lines) >= 0 && SumTotal(lines) >= 0
  {
    SumNonNegative(Ids(lines), CurrentOf(lines));
    SumNonNegative(Ids(lines), TotalOf(lines));
  }

  lemma GoPercentExact(c: int, t: int)
    requires 0 <= c && c * 100 < TWO63 && 0 <= t < TWO63
    ensures GoPercent(Wrap(c), Wrap(t)) == Percent(c, t)
  {
    WrapSmall(c);
    WrapSmall(t);
    WrapSmall(c * 100);
  }

  /** Within the byte bound, every percentage ever reported is the exact one, hence in 0..100. */
  lemma {:induction false} ReportsExact(lines: seq<Line>, n: nat, k: nat)
    requires n <= |lines| && FitsInt64(lines) && k < |Reports(lines, n)|
    ensures exists i :: 0 < i <= n && SumCurrent(lines[..i]) >= 0 &&
              Reports(lines, n)[k] == Percent(SumCurrent(lines[..i]), SumTotal(lines[..i]))
  {
    if k < |Reports(lines, n - 1)| {
      ReportsExact(lines, n - 1, k);
    } else {
      SumsNonNegative(lines[..n]);
      GoPercentExact(SumCurrent(lines[..n]), SumTotal(lines[..n]));
    }
  }

  /** The bound is not needed in one more case: more done than there is to do, and a product that wraps
      around to something that still reads as a hundred percent or more. A total past int64 itself reads
      as nothing to do. */
  predicate Fits(done: int, total: int)
  {
    if total < TWO63 then total == 0 || done * 100 < TWO63 || (total < done && Wrap(done * 100) as int >= total * 100)
    else done * 100 < total
  }

  /** How far off the wrapped product is: a positive multiple of 2^64. */
  lemma WrapFallsShort(x: int)
    requires x >= TWO63
    ensures Wrap(x) as int <= x - TWO64
  {
    var k := (x + TWO63) / TWO64;
    assert x + TWO63 == k * TWO64 + (x + TWO63) % TWO64;
    assert k >= 1;
  }

  lemma QuotientBounds(a: nat, t: nat)
    requires t > 0
    ensures a / t * t <= a < a / t * t + t && a / t >= 0
  {
    assert a == a / t * t + a % t;
  }

  lemma LessOfProducts(p: int, q: int, t: int)
    requires t > 0 && p * t < q * t
    ensures p < q
  {
    if p >= q { ProductsGrow(p, q, t); }
  }

  lemma ProductsGrow(p: int, q: int, t: int)
    requires t > 0 && p >= q
    ensures p * t >= q * t
  {
    assert (p - q) * t >= 0;
  }

  /** Two divisors below means a smaller quotient, even with the one rounded toward zero. */
  lemma TruncLess(a: int, b: int, t: int)
    requires 0 < t && 0 <= b && a <= b - 2 * t
    ensures TruncDiv(a, t) < b / t
  {
    QuotientBounds(b, t);
    if a >= 0 {
      QuotientBounds(a, t);
      LessOfProducts(a / t, b / t, t);
    } else {
      QuotientBounds(-a, t);
      if b / t == 0 { LessOfProducts(0, (-a) / t, t); }
    }
  }

  /** The percentage reported is the exact one precisely when the sums fit. */
  lemma GoPercentExactIff(c: int, t: int)
    requires 0 <= c && 0 <= t < TWO64
    ensures GoPercent(Wrap(c), Wrap(t)) == Percent(c, t) <==> Fits(c, t)
  {
    if t >= TWO63 {
      TotalWraps(c, t);
      PercentIsZeroIff(c, t);
    } else if t == 0 {
      WrapSmall(t);
    } else {
      ProductWraps(c);
      WrapSmall(t);
      WrappedCases(c, t, Wrap(c * 100) as int);
    }
  }

  lemma TotalWraps(c: int, t: int)
    requires TWO63 <= t < TWO64
    ensures GoPercent(Wrap(c), Wrap(t)) == 0
  {
    assert Wrap(t) as int == t - TWO64;
  }

  lemma WrappedCases(c: nat, t: nat, w: int)
    requires 0 < t < TWO63 && w == Wrap(c * 100) as int
    ensures (if TruncDiv(w, t) > 100 then 100 else TruncDiv(w, t)) == Percent(c, t) <==> Fits(c, t)
  {
    if c * 100 < TWO63 {
      WrapSmall(c * 100);
    } else {
      WrapFallsShort(c * 100);
      WrappedPercentIff(c, t, w);
    }
  }

  /** The product wraps the same whether or not its factor was wrapped before. */
  lemma ProductWraps(c: int)
    ensures Wrap(Wrap(c) as int * 100) == Wrap(c * 100)
  {
    var k := (c + TWO63) / TWO64;
    assert c + TWO63 == k * TWO64 + (c + TWO63) % TWO64;
    assert Wrap(c) as int * 100 + TWO63 == (c * 100 + TWO63) - k * 100 * TWO64;
    ModShift(c * 100 + TWO63, k * 100);
  }

  lemma PercentIsZeroIff(c: nat, t: nat)
    requires t > 0
    ensures Percent(c, t) == 0 <==> c * 100 < t
  {
    var q := 100 * c / t;
    QuotientBounds(100 * c, t);
    if 100 * c < t { LessOfProducts(q, 1, t); } else { LessOfProducts(1, q + 1, t); }
  }

  lemma WrappedPercentIff(c: nat, t: nat, w: int)
    requires 0 < t < TWO63 && w <= c * 100 - TWO64
    ensures (if TruncDiv(w, t) > 100 then 100 else TruncDiv(w, t)) == Percent(c, t) <==> t < c && w >= t * 100
  {
    QuotientBounds(c * 100, t);
    if c <= t {
      TruncLess(w, c * 100, t);
      LessOfProducts(c * 100 / t, 101, t);
    } else {
      LessOfProducts(99, c * 100 / t, t);
      if w >= 0 { QuotientBounds(w, t); HundredIff(w, t); } else { QuotientBounds(-w, t); }
    }
  }

  lemma HundredIff(w: nat, t: nat)
    requires t > 0
    ensures w / t >= 100 <==> w >= t * 100
  {
    QuotientBounds(w, t);
    if w >= t * 100 { LessOfProducts(99, w / t, t); } else { LessOfProducts(w / t, 100, t); }
  }

  /** What ought to be reported for the first n lines. */
  ghost function ExactReports(lines: seq<Line>, n: nat): seq<int>
    requires n <= |lines|
  {
    Values(lines, n, PercentAt)
  }

  ghost function PercentAt(seen: seq<Line>): int
  {
    SumsNonNegative(seen);
    Percent(SumCurrent(seen), SumTotal(seen))
  }

  ghost predicate FitsAt(seen: seq<Line>) { Fits(SumCurrent(seen), SumTotal(seen)) }

  /** Every report up to line n falls on sums that fit. */
  ghost predicate AllFit(lines: seq<Line>, n: nat)
    requires n <= |lines|
  {
    forall i :: 0 < i <= n && NamesLayer(lines[i - 1]) ==> FitsAt(lines[..i])
  }

  ghost predicate TotalsBelow(lines: seq<Line>, bound: int)
  {
    forall i :: 0 <= i <= |lines| ==> SumTotal(lines[..i]) < bound
  }

  /** Two ways of computing the values agree on a stream precisely when they agree at every report. */
  lemma {:induction false} ValuesEqualIff(lines: seq<Line>, n: nat, f: seq<Line> -> int, g: seq<Line> -> int)
    requires n <= |lines|
    ensures |Values(lines, n, f)| == |Values(lines, n, g)|
    ensures Values(lines, n, f) == Values(lines, n, g) <==>
              forall i :: 0 < i <= n && NamesLayer(lines[i - 1]) ==> f(lines[..i]) == g(lines[..i])
  {
    if n > 0 {
      ValuesEqualIff(lines, n - 1, f, g);
      if NamesLayer(lines[n - 1]) {
        AppendedEqual(Values(lines, n - 1, f), Values(lines, n - 1, g), f(lines[..n]), g(lines[..n]));
      } else {
        assert Values(lines, n, f) == Values(lines, n - 1, f) && Values(lines, n, g) == Values(lines, n - 1, g);
      }
    }
  }

  /** The percentages reported for a stream are the exact ones precisely when the sums fit at every
      report. */
  lemma ReportsExactIff(lines: seq<Line>, n: nat)
    requires n <= |lines| && TotalsBelow(lines, TWO64)
    ensures Reports(lines, n) == ExactReports(lines, n) <==> AllFit(lines, n)
  {
    ValuesEqualIff(lines, n, GoAt, PercentAt);
    forall i | 0 < i <= n ensures GoAt(lines[..i]) == PercentAt(lines[..i]) <==> FitsAt(lines[..i]) {
      ReportIsExactIff(lines[..i]);
    }
  }

  lemma ReportIsExactIff(seen: seq<Line>)
    requires SumTotal(seen) < TWO64
    ensures GoAt(seen) == PercentAt(seen) <==> FitsAt(seen)
  {
    SumsNonNegative(seen);
    GoPercentExactIff(SumCurrent(seen), SumTotal(seen));
  }

  lemma AppendedEqual(a: seq<int>, b: seq<int>, x: int, y: int)
    requires |a| == |b|
    ensures a + [x] == b + [y] <==> a == b && x == y
  {
    if a + [x] == b + [y] {
      assert a == (a + [x])[..|a|] && b == (b + [y])[..|b|];
      assert x == (a + [x])[|a|];
    }
  }

  /** A stream on which it goes wrong: one layer of 92233720368547759 bytes, all of it downloaded, is
      reported as -99 percent, because 100 times its size wraps around. */
  lemma OverflowReportsNegative()
    ensures var n := 92233720368547759; var lines := [Msg("l", "", n, n)];
            && Consumed(lines) == 1 && Reports(lines, 1) == [-99] && ExactReports(lines, 1) == [100]
            && !Breaks(lines)
  {
    var n := 92233720368547759;
    var lines := [Msg("l", "", n, n)];
    assert lines[..1] == lines && lines[1..] == [];
    OneLayer("l", n);
    WrapSmall(n as int);
    assert Wrap(9223372036854775900) as int == -9223372036854775716;
    assert 9223372036854775716 / 92233720368547759 == 99;
    assert Reports(lines, 0) == [] && ExactReports(lines, 0) == [];
    assert GoPercent(n, n) == -99;
    ConsumedIs(lines, 1);
  }

  /** A stream of one message: its layer is the whole sum. */
  lemma OneLayer(id: string, n: int64)
    requires id != "" && n > 0
    ensures var lines := [Msg(id, "", n, n)];
            SumCurrent(lines) == n as int && SumTotal(lines) == n as int
  {
    var lines := [Msg(id, "", n, n)];
    assert lines[..0] == [];
    assert Ids(lines) == {id};
    assert LastCurrent(lines, id) == n as int && LastTotal(lines, id) == n as int;
    SumAnyOrder({id}, CurrentOf(lines), id);
    SumAnyOrder({id}, TotalOf(lines), id);
    assert {id} - {id} == {};
  }
}
