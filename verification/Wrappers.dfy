/** Shapes shared by the other modules. */
module Wrappers {
  datatype Option<+T> = None | Some(value: T)

  /** A number above every used one: an unused id can always be made up. */
  lemma {:induction false} NotBelow(ids: set<nat>) returns (n: nat)
    ensures n > 0 && forall i :: i in ids ==> i < n
  {
    if ids == {} { return 1; }
    var i :| i in ids;
    var m := NotBelow(ids - {i});
    n := if i < m then m else i + 1;
    assert forall j :: j in ids ==> j == i || j in ids - {i};
  }

  /** Go's cmp.Compare on numbers. */
  function CompareNat(a: nat, b: nat): int { if a > b then 1 else if a < b then -1 else 0 }

  /** n poll intervals. */
  function Elapsed(n: nat, poll: nat): nat { if n == 0 then 0 else Elapsed(n - 1, poll) + poll }

  lemma {:induction false} ElapsedIs(n: nat, poll: nat)
    ensures Elapsed(n, poll) == n * poll
  {
    if n > 0 { ElapsedIs(n - 1, poll); }
  }

  /** A poll made then, n intervals into a wait: not early, and late exactly when the window has passed. */
  predicate OnTime(late: bool, at: nat, n: nat, begun: nat, timeout: nat, poll: nat)
  {
    (late <==> at >= begun + timeout) && at >= begun + Elapsed(n, poll)
  }
}
