/** sortPorts (audio/priority_policy.go:152-170): a bubble sort whose inner loop
    starts at the outer index, so that one call is not a full sort. This module
    proves what one call does achieve, exactly when it sorts, and that repeating
    it reaches the stable sort. */
module SortPorts {
  import opened PortRanking

  /** One inner loop over `[carry] + rest`. */
  function Pass(types: seq<int>, carry: Port, rest: seq<Port>): (r: seq<Port>)
    ensures |r| == |rest| + 1
    decreases |rest|
  {
    if rest == [] then [carry]
    else if PortRank(types, rest[0]) < PortRank(types, carry) then [rest[0]] + Pass(types, carry, rest[1..])
    else [carry] + Pass(types, rest[0], rest[1..])
  }

  /** The two nested loops: pass i works on the suffix that starts at i. */
  function SortOnce(types: seq<int>, a: seq<Port>): (r: seq<Port>)
    ensures |r| == |a|
    decreases |a|
  {
    if |a| < 2 then a
    else
      var b := Pass(types, a[0], a[1..]);
      [b[0]] + SortOnce(types, b[1..])
  }

  /** How many ports rank at or above threshold t. */
  function AtMost(types: seq<int>, a: seq<Port>, t: int): (n: nat)
    ensures n <= |a|
  {
    if a == [] then 0 else (if PortRank(types, a[0]) <= t then 1 else 0) + AtMost(types, a[1..], t)
  }

  /** The number of pairs of ports in the wrong order. */
  function Inversions(types: seq<int>, a: seq<Port>): nat {
    if a == [] then 0
    else AtMost(types, a[1..], PortRank(types, a[0]) - 1) + Inversions(types, a[1..])
  }

  // ---- one pass ----

  lemma {:induction false} AtMostConcat(types: seq<int>, a: seq<Port>, b: seq<Port>, t: int)
    ensures AtMost(types, a + b, t) == AtMost(types, a, t) + AtMost(types, b, t)
  {
    if a == [] {
      assert a + b == b;
    } else {
      assert a + b == [a[0]] + (a[1..] + b);
      AtMostConcat(types, a[1..], b, t);
    }
  }

  lemma {:induction false} PassPermutes(types: seq<int>, carry: Port, rest: seq<Port>)
    ensures multiset(Pass(types, carry, rest)) == multiset([carry] + rest)
    decreases |rest|
  {
    if rest != [] {
      assert rest == [rest[0]] + rest[1..];
      var swap := PortRank(types, rest[0]) < PortRank(types, carry);
      PassPermutes(types, if swap then carry else rest[0], rest[1..]);
    }
  }

  lemma {:induction false} PassStable(types: seq<int>, carry: Port, rest: seq<Port>, t: int)
    ensures OfKind(Pass(types, carry, rest), t) == OfKind([carry] + rest, t)
    decreases |rest|
  {
    if rest != [] {
      var swap := PortRank(types, rest[0]) < PortRank(types, carry);
      var carry' := if swap then carry else rest[0];
      var out := if swap then rest[0] else carry;
      PassStable(types, carry', rest[1..], t);
      OfKindConcat([out], Pass(types, carry', rest[1..]), t);
      OfKindConcat([out], [carry'] + rest[1..], t);
      OfKindConcat([carry] + [rest[0]], rest[1..], t);
      OfKindConcat([out] + [carry'], rest[1..], t);
      assert [carry] + rest == [carry] + [rest[0]] + rest[1..];
      assert [out] + ([carry'] + rest[1..]) == [out] + [carry'] + rest[1..];
      OfKindConcat([carry], [rest[0]], t);
      OfKindConcat([out], [carry'], t);
    }
  }

  /** What one comparison of the inner loop does: it emits the better-ranked port and carries the other. */
  lemma PassStep(types: seq<int>, carry: Port, rest: seq<Port>) returns (out: Port, next: Port)
    requires rest != []
    ensures Pass(types, carry, rest) == [out] + Pass(types, next, rest[1..])
    ensures PortRank(types, out) <= PortRank(types, next)
    ensures if PortRank(types, rest[0]) < PortRank(types, carry)
            then out == rest[0] && next == carry
            else out == carry && next == rest[0]
  {
    if PortRank(types, rest[0]) < PortRank(types, carry) {
      out, next := rest[0], carry;
    } else {
      out, next := carry, rest[0];
    }
  }

  lemma AtMostCons(types: seq<int>, p: Port, a: seq<Port>, t: int)
    ensures AtMost(types, [p] + a, t) == AtMost(types, a, t) + if PortRank(types, p) <= t then 1 else 0
  {
    assert ([p] + a)[1..] == a;
  }

  lemma ConsPrefix(p: Port, a: seq<Port>, k: nat)
    requires 0 < k <= |a| + 1
    ensures ([p] + a)[..k] == [p] + a[..k - 1]
  {
  }

  /** The counting effect of a pass: every low port moves one place forward, up to the front. */
  lemma {:induction false} PassPrefix(types: seq<int>, carry: Port, rest: seq<Port>, k: nat, t: int)
    requires k <= |rest|
    ensures AtMost(types, Pass(types, carry, rest)[..k], t)
            == Min(k, AtMost(types, ([carry] + rest)[..k + 1], t))
    decreases |rest|
  {
    if k > 0 {
      var out, next := PassStep(types, carry, rest);
      var z := rest[1..][..k - 1];
      PassPrefix(types, next, rest[1..], k - 1, t);
      ConsPrefix(next, rest[1..], k);
      ConsPrefix(out, Pass(types, next, rest[1..]), k);
      ConsPrefix(carry, rest, k + 1);
      assert rest == [rest[0]] + rest[1..];
      ConsPrefix(rest[0], rest[1..], k);
      AtMostCons(types, out, Pass(types, next, rest[1..])[..k - 1], t);
      AtMostCons(types, next, z, t);
      AtMostCons(types, carry, [rest[0]] + z, t);
      AtMostCons(types, rest[0], z, t);
    }
  }

  function Min(a: int, b: int): int {
    if a <= b then a else b
  }

  lemma {:induction false} AtMostPass(types: seq<int>, carry: Port, rest: seq<Port>, t: int)
    ensures AtMost(types, Pass(types, carry, rest), t) == AtMost(types, [carry] + rest, t)
    decreases |rest|
  {
    if rest != [] {
      var swap := PortRank(types, rest[0]) < PortRank(types, carry);
      var carry' := if swap then carry else rest[0];
      var out := if swap then rest[0] else carry;
      AtMostPass(types, carry', rest[1..], t);
      AtMostConcat(types, [out], Pass(types, carry', rest[1..]), t);
      AtMostConcat(types, [carry'], rest[1..], t);
      assert [carry] + rest == [carry] + ([rest[0]] + rest[1..]);
      AtMostConcat(types, [carry], [rest[0]] + rest[1..], t);
      AtMostConcat(types, [rest[0]], rest[1..], t);
    }
  }

  lemma InversionsCons(types: seq<int>, p: Port, a: seq<Port>)
    ensures Inversions(types, [p] + a) == AtMost(types, a, PortRank(types, p) - 1) + Inversions(types, a)
  {
    assert ([p] + a)[1..] == a;
  }

  /** A pass removes at least one inversion, unless the list is ordered. */
  lemma {:induction false} PassInversions(types: seq<int>, carry: Port, rest: seq<Port>)
    ensures Inversions(types, Pass(types, carry, rest)) <= Inversions(types, [carry] + rest)
    ensures Inversions(types, Pass(types, carry, rest)) == Inversions(types, [carry] + rest) ==>
              Ordered(types, [carry] + rest)
    decreases |rest|
  {
    if rest != [] {
      var out, next := PassStep(types, carry, rest);
      var p, z := Pass(types, next, rest[1..]), rest[1..];
      PassInversions(types, next, z);
      AtMostPass(types, next, z, PortRank(types, out) - 1);
      InversionsCons(types, out, p);
      InversionsCons(types, out, [next] + z);
      assert rest == [rest[0]] + z;
      if PortRank(types, rest[0]) < PortRank(types, carry) {
        SwapInversions(types, carry, rest[0], z);
      } else if Ordered(types, rest) {
        OrderedCons(types, carry, rest);
      }
    }
  }

  /** Swapping two neighbours in the wrong order removes exactly one inversion. */
  lemma SwapInversions(types: seq<int>, p: Port, q: Port, z: seq<Port>)
    requires PortRank(types, q) < PortRank(types, p)
    ensures Inversions(types, [p] + ([q] + z)) == Inversions(types, [q] + ([p] + z)) + 1
  {
    InversionsCons(types, p, [q] + z);
    InversionsCons(types, q, z);
    AtMostCons(types, q, z, PortRank(types, p) - 1);
    InversionsCons(types, q, [p] + z);
    InversionsCons(types, p, z);
    AtMostCons(types, p, z, PortRank(types, q) - 1);
  }

  /** A pass over an ordered list moves nothing. */
  lemma {:induction false} PassIdentity(types: seq<int>, carry: Port, rest: seq<Port>)
    requires Ordered(types, [carry] + rest)
    ensures Pass(types, carry, rest) == [carry] + rest
    decreases |rest|
  {
    if rest != [] {
      var a := [carry] + rest;
      assert a[0] == carry && a[1] == rest[0];
      OrderedTail(types, a);
      assert a[1..] == [rest[0]] + rest[1..];
      PassIdentity(types, rest[0], rest[1..]);
    }
  }

  lemma OrderedCons(types: seq<int>, p: Port, a: seq<Port>)
    requires Ordered(types, a)
    requires a != [] ==> PortRank(types, p) <= PortRank(types, a[0])
    ensures Ordered(types, [p] + a)
  {
    var b := [p] + a;
    forall i, j | 0 <= i < j < |b| ensures PortRank(types, b[i]) <= PortRank(types, b[j]) {
      assert b[j] == a[j - 1];
      if i == 0 {
        assert PortRank(types, a[0]) <= PortRank(types, a[j - 1]);
      } else {
        assert b[i] == a[i - 1];
      }
    }
  }

  lemma OrderedTail(types: seq<int>, a: seq<Port>)
    requires a != [] && Ordered(types, a)
    ensures Ordered(types, a[1..])
  {
  }

  lemma {:induction false} PassLast(types: seq<int>, carry: Port, rest: seq<Port>, p: Port)
    requires p == carry || p in rest
    ensures var r := Pass(types, carry, rest); PortRank(types, p) <= PortRank(types, r[|r| - 1])
    decreases |rest|
  {
    if rest != [] {
      var out, next := PassStep(types, carry, rest);
      assert rest == [rest[0]] + rest[1..];
      PassLast(types, next, rest[1..], if p == out then next else p);
    }
  }

  // ---- one call ----

  lemma {:induction false} SortOncePermutes(types: seq<int>, a: seq<Port>)
    ensures multiset(SortOnce(types, a)) == multiset(a)
    decreases |a|
  {
    if |a| >= 2 {
      var b := Pass(types, a[0], a[1..]);
      PassPermutes(types, a[0], a[1..]);
      assert a == [a[0]] + a[1..];
      assert b == [b[0]] + b[1..];
      SortOncePermutes(types, b[1..]);
    }
  }

  /** Ports of equal type are never reordered. */
  lemma {:induction false} SortOnceStable(types: seq<int>, a: seq<Port>, t: int)
    ensures OfKind(SortOnce(types, a), t) == OfKind(a, t)
    decreases |a|
  {
    if |a| >= 2 {
      var b := Pass(types, a[0], a[1..]);
      PassStable(types, a[0], a[1..], t);
      assert a == [a[0]] + a[1..];
      SortOnceStable(types, b[1..], t);
      OfKindConcat([b[0]], SortOnce(types, b[1..]), t);
      OfKindConcat([b[0]], b[1..], t);
      assert b == [b[0]] + b[1..];
    }
  }

  lemma {:induction false} AtMostSortOnce(types: seq<int>, a: seq<Port>, t: int)
    ensures AtMost(types, SortOnce(types, a), t) == AtMost(types, a, t)
    decreases |a|
  {
    if |a| >= 2 {
      var b := Pass(types, a[0], a[1..]);
      AtMostPass(types, a[0], a[1..], t);
      assert a == [a[0]] + a[1..];
      AtMostSortOnce(types, b[1..], t);
      AtMostConcat(types, [b[0]], SortOnce(types, b[1..]), t);
    }
  }

  /** One call removes at least one inversion from an unordered list and is the identity on an ordered one. */
  lemma SortOnceProgress(types: seq<int>, a: seq<Port>)
    ensures Ordered(types, a) ==> SortOnce(types, a) == a
    ensures !Ordered(types, a) ==> Inversions(types, SortOnce(types, a)) < Inversions(types, a)
  {
    if Ordered(types, a) {
      SortOnceIdentity(types, a);
    } else {
      SortOnceInversions(types, a);
    }
  }

  lemma {:induction false} SortOnceIdentity(types: seq<int>, a: seq<Port>)
    requires Ordered(types, a)
    ensures SortOnce(types, a) == a
    decreases |a|
  {
    if |a| >= 2 {
      assert a == [a[0]] + a[1..];
      PassIdentity(types, a[0], a[1..]);
      OrderedTail(types, a);
      SortOnceIdentity(types, a[1..]);
    }
  }

  lemma {:induction false} SortOnceInversions(types: seq<int>, a: seq<Port>)
    ensures Inversions(types, SortOnce(types, a)) <= Inversions(types, a)
    ensures Inversions(types, SortOnce(types, a)) == Inversions(types, a) ==> Ordered(types, a)
    decreases |a|
  {
    if |a| >= 2 {
      var b := Pass(types, a[0], a[1..]);
      assert a == [a[0]] + a[1..];
      PassInversions(types, a[0], a[1..]);
      var p, c := b[0], b[1..];
      assert b == [p] + c;
      InversionsCons(types, p, c);
      SortOnceInversions(types, c);
      AtMostSortOnce(types, c, PortRank(types, p) - 1);
      assert SortOnce(types, a) == [p] + SortOnce(types, c);
      InversionsCons(types, p, SortOnce(types, c));
    }
  }

  lemma {:induction false} LastOutranksNone(types: seq<int>, a: seq<Port>, p: Port)
    requires p in a
    ensures var r := SortOnce(types, a); PortRank(types, p) <= PortRank(types, r[|r| - 1])
    decreases |a|
  {
    if |a| >= 2 {
      var b := Pass(types, a[0], a[1..]);
      assert a == [a[0]] + a[1..];
      PassLast(types, a[0], a[1..], p);
      assert b[1..][|b| - 2] == b[|b| - 1];
      LastOutranksNone(types, b[1..], b[|b| - 1]);
    }
  }

  /** After one call a port of the lowest priority present is last. */
  lemma SortOnceLast(types: seq<int>, a: seq<Port>)
    requires a != []
    ensures var r := SortOnce(types, a);
            forall p :: p in a ==> PortRank(types, p) <= PortRank(types, r[|r| - 1])
  {
    forall p | p in a ensures var r := SortOnce(types, a); PortRank(types, p) <= PortRank(types, r[|r| - 1]) {
      LastOutranksNone(types, a, p);
    }
  }

  // ---- exactly when one call sorts ----

  /** Every port is preceded by at most one more lower-priority port than it is preceded by other ports. */
  ghost predicate NearlyOrdered(types: seq<int>, a: seq<Port>) {
    forall m :: 0 <= m < |a| ==> Preceded(types, a, m, PortRank(types, a[m]))
  }

  ghost predicate Preceded(types: seq<int>, a: seq<Port>, m: int, t: int)
    requires 0 <= m < |a|
  {
    m <= 2 * AtMost(types, a[..m], t) + 1
  }

  /** The same condition seen at one threshold. */
  ghost predicate LowNear(types: seq<int>, a: seq<Port>, t: int) {
    forall m :: 0 <= m < |a| && PortRank(types, a[m]) <= t ==> Preceded(types, a, m, t)
  }

  ghost predicate LowFirst(types: seq<int>, a: seq<Port>, t: int) {
    forall i, j :: 0 <= i < j < |a| && PortRank(types, a[j]) <= t ==> PortRank(types, a[i]) <= t
  }

  lemma {:induction false} AtMostMonotone(types: seq<int>, a: seq<Port>, t: int, u: int)
    requires t <= u
    ensures AtMost(types, a, t) <= AtMost(types, a, u)
  {
    if a != [] {
      AtMostMonotone(types, a[1..], t, u);
    }
  }

  lemma {:induction false} AtMostPositive(types: seq<int>, a: seq<Port>, t: int)
    ensures AtMost(types, a, t) > 0 <==> exists i :: 0 <= i < |a| && PortRank(types, a[i]) <= t
  {
    if a != [] {
      AtMostPositive(types, a[1..], t);
      if i :| 0 <= i < |a| && PortRank(types, a[i]) <= t {
        if i > 0 {
          assert a[1..][i - 1] == a[i];
        }
      }
      if i :| 0 <= i < |a[1..]| && PortRank(types, a[1..][i]) <= t {
        assert a[i + 1] == a[1..][i];
      }
    }
  }

  lemma AtMostStep(types: seq<int>, a: seq<Port>, m: int, t: int)
    requires 0 <= m < |a|
    ensures AtMost(types, a[..m + 1], t)
            == AtMost(types, a[..m], t) + if PortRank(types, a[m]) <= t then 1 else 0
  {
    assert a[..m + 1] == a[..m] + [a[m]];
    AtMostConcat(types, a[..m], [a[m]], t);
  }

  /** Prefix counts of the list after a pass, and of its tail. */
  lemma TailCounts(types: seq<int>, a: seq<Port>, k: nat, t: int)
    requires |a| >= 2 && k < |a|
    ensures var b := Pass(types, a[0], a[1..]);
            && AtMost(types, b[..k], t) == Min(k, AtMost(types, a[..k + 1], t))
            && (k >= 1 ==> AtMost(types, b[1..][..k - 1], t) == AtMost(types, b[..k], t) - AtMost(types, b[..1], t))
  {
    var b := Pass(types, a[0], a[1..]);
    assert a == [a[0]] + a[1..];
    PassPrefix(types, a[0], a[1..], k, t);
    if k >= 1 {
      assert b[..k] == b[..1] + b[1..][..k - 1];
      AtMostConcat(types, b[..1], b[1..][..k - 1], t);
    }
  }

  lemma FirstIsLow(types: seq<int>, a: seq<Port>, t: int)
    requires |a| >= 2
    ensures var b := Pass(types, a[0], a[1..]);
            && AtMost(types, b[..1], t) == (if PortRank(types, b[0]) <= t then 1 else 0)
            && AtMost(types, b[..1], t) == Min(1, AtMost(types, a[..2], t))
  {
    var b := Pass(types, a[0], a[1..]);
    TailCounts(types, a, 1, t);
    assert b[..1] == [b[0]];
  }

  lemma FullCount(types: seq<int>, a: seq<Port>, t: int)
    requires |a| >= 2
    ensures var b := Pass(types, a[0], a[1..]);
            && AtMost(types, b[..|b|], t) == AtMost(types, a[..|a|], t)
  {
    var b := Pass(types, a[0], a[1..]);
    AtMostPass(types, a[0], a[1..], t);
    assert a == [a[0]] + a[1..] && b[..|b|] == b && a[..|a|] == a;
  }

  /** If the two leading ports are both high, the first low port breaks the condition. */
  lemma {:induction false} LowestLow(types: seq<int>, a: seq<Port>, m: nat, t: int)
    requires 2 <= m <= |a| && LowNear(types, a, t) && AtMost(types, a[..2], t) == 0
    ensures AtMost(types, a[..m], t) == 0
  {
    if m > 2 {
      LowestLow(types, a, m - 1, t);
      assert !Preceded(types, a, m - 1, t);
      AtMostStep(types, a, m - 1, t);
    }
  }

  lemma NearStepHead(types: seq<int>, a: seq<Port>, t: int)
    requires |a| >= 2 && LowNear(types, a, t)
    ensures var b := Pass(types, a[0], a[1..]);
            AtMost(types, b[1..], t) > 0 ==> AtMost(types, a[..2], t) > 0 && PortRank(types, b[0]) <= t
  {
    var b := Pass(types, a[0], a[1..]);
    FirstIsLow(types, a, t);
    FullCount(types, a, t);
    assert b[..|b|] == [b[0]] + b[1..];
    AtMostCons(types, b[0], b[1..], t);
    if AtMost(types, a[..2], t) == 0 {
      LowestLow(types, a, |a|, t);
    }
  }

  lemma NearStepForward(types: seq<int>, a: seq<Port>, m: nat, t: int)
    requires |a| >= 2 && LowNear(types, a, t) && m + 1 < |a|
    requires PortRank(types, Pass(types, a[0], a[1..])[m + 1]) <= t
    ensures Preceded(types, Pass(types, a[0], a[1..])[1..], m, t)
  {
    var b := Pass(types, a[0], a[1..]);
    assert AtMost(types, b[..1], t) == 1 by {
      assert b[1..][m] == b[m + 1];
      AtMostPositive(types, b[1..], t);
      NearStepHead(types, a, t);
      FirstIsLow(types, a, t);
    }
    TailCounts(types, a, m + 1, t);
    var c := AtMost(types, a[..m + 2], t);
    assert AtMost(types, b[1..][..m], t) == Min(m + 1, c) - 1;
    if c < m + 1 {
      LowMovedForward(types, a, m, t);
      assert Preceded(types, a, m + 2, t);
    }
  }

  /** A low port that a pass moved to place m + 1, not all places before being low, came from place m + 2. */
  lemma LowMovedForward(types: seq<int>, a: seq<Port>, m: nat, t: int)
    requires |a| >= 2 && m + 1 < |a|
    requires PortRank(types, Pass(types, a[0], a[1..])[m + 1]) <= t
    requires AtMost(types, a[..m + 2], t) < m + 1
    ensures m + 2 < |a| && PortRank(types, a[m + 2]) <= t
  {
    var b := Pass(types, a[0], a[1..]);
    TailCounts(types, a, m + 1, t);
    AtMostStep(types, b, m + 1, t);
    if m + 2 < |a| {
      TailCounts(types, a, m + 2, t);
      AtMostStep(types, a, m + 2, t);
    } else {
      FullCount(types, a, t);
    }
  }

  lemma NearStepBackward(types: seq<int>, a: seq<Port>, t: int)
    requires |a| >= 2
    requires var b := Pass(types, a[0], a[1..]);
             && (AtMost(types, b[1..], t) > 0 ==> PortRank(types, b[0]) <= t)
             && LowNear(types, b[1..], t)
    ensures LowNear(types, a, t)
  {
    forall m | 0 <= m < |a| && PortRank(types, a[m]) <= t ensures Preceded(types, a, m, t) {
      if m >= 2 && AtMost(types, a[..m], t) < m - 1 {
        LowMovesForward(types, a, m, t);
        var c := Pass(types, a[0], a[1..])[1..];
        AtMostPositive(types, c, t);
        assert Preceded(types, c, m - 2, t);
        FirstIsLow(types, a, t);
        TailCounts(types, a, m - 1, t);
      }
    }
  }

  /** A low port at place m, not all places before being low, moves to place m - 1. */
  lemma LowMovesForward(types: seq<int>, a: seq<Port>, m: nat, t: int)
    requires 2 <= m < |a| && PortRank(types, a[m]) <= t && AtMost(types, a[..m], t) < m - 1
    ensures PortRank(types, Pass(types, a[0], a[1..])[1..][m - 2]) <= t
  {
    var b := Pass(types, a[0], a[1..]);
    TailCounts(types, a, m - 1, t);
    TailCounts(types, a, m, t);
    AtMostStep(types, a, m, t);
    AtMostStep(types, b, m - 1, t);
    assert b[1..][m - 2] == b[m - 1];
  }

  lemma {:induction false} SortsAtThreshold(types: seq<int>, a: seq<Port>, t: int)
    ensures LowFirst(types, SortOnce(types, a), t) <==> LowNear(types, a, t)
    decreases |a|
  {
    if |a| >= 2 {
      var b := Pass(types, a[0], a[1..]);
      var s := SortOnce(types, b[1..]);
      SortsAtThreshold(types, b[1..], t);
      AtMostSortOnce(types, b[1..], t);
      AtMostPositive(types, s, t);
      LowFirstCons(types, b[0], s, t);
      if LowNear(types, a, t) {
        NearStepHead(types, a, t);
        forall m | 0 <= m < |b[1..]| && PortRank(types, b[1..][m]) <= t
          ensures Preceded(types, b[1..], m, t)
        {
          NearStepForward(types, a, m, t);
        }
      }
      if LowFirst(types, [b[0]] + s, t) {
        NearStepBackward(types, a, t);
      }
    }
  }

  lemma LowFirstCons(types: seq<int>, p: Port, s: seq<Port>, t: int)
    ensures LowFirst(types, [p] + s, t) <==>
            LowFirst(types, s, t)
            && ((exists i :: 0 <= i < |s| && PortRank(types, s[i]) <= t) ==> PortRank(types, p) <= t)
  {
    var r := [p] + s;
    assert forall i :: 0 <= i < |s| ==> r[i + 1] == s[i];
    if LowFirst(types, r, t) {
      forall i, j | 0 <= i < j < |s| && PortRank(types, s[j]) <= t ensures PortRank(types, s[i]) <= t {
        assert r[i + 1] == s[i] && r[j + 1] == s[j];
      }
      if i :| 0 <= i < |s| && PortRank(types, s[i]) <= t {
        assert r[0] == p && r[i + 1] == s[i];
      }
    }
  }

  /** sortPorts sorts a list if and only if the list is nearly ordered to begin with. */
  lemma SortsExactlyWhen(types: seq<int>, a: seq<Port>)
    ensures Ordered(types, SortOnce(types, a)) <==> NearlyOrdered(types, a)
  {
    var r := SortOnce(types, a);
    if Ordered(types, r) {
      forall m | 0 <= m < |a| ensures Preceded(types, a, m, PortRank(types, a[m])) {
        SortsAtThreshold(types, a, PortRank(types, a[m]));
      }
    }
    if NearlyOrdered(types, a) {
      forall i, j | 0 <= i < j < |r| ensures PortRank(types, r[i]) <= PortRank(types, r[j]) {
        var t := PortRank(types, r[j]);
        forall m | 0 <= m < |a| && PortRank(types, a[m]) <= t ensures Preceded(types, a, m, t) {
          assert Preceded(types, a, m, PortRank(types, a[m]));
          AtMostMonotone(types, a[..m], PortRank(types, a[m]), t);
        }
        SortsAtThreshold(types, a, t);
      }
    }
  }

  /** The smallest failure: types [4, 2, 0] under the default ranking become [2, 0, 4]. */
  lemma OneCallMayNotSort(types: seq<int>, h: Port, u: Port, b: Port)
    requires types == [0, 1, 2, 3, 4, 5, 6, 7]
    requires h.kind == 4 && u.kind == 2 && b.kind == 0
    ensures SortOnce(types, [h, u, b]) == [u, b, h] && !Ordered(types, [u, b, h])
  {
    assert types[0] == 0 && types[2] == 2 && types[4] == 4;
    assert PortRank(types, b) == 0 && PortRank(types, u) == 2 && PortRank(types, h) == 4;
    PassOverTwo(types, h, u, b);
    PassOverOne(types, b, h);
    var a, p := [h, u, b], [u, b, h];
    assert a[1..] == [u, b] && p[1..] == [b, h] && [b, h][1..] == [h];
    assert SortOnce(types, [b, h]) == [b, h];
    assert p[0] == u && p[1] == b;
  }

  lemma PassOverOne(types: seq<int>, p: Port, q: Port)
    requires PortRank(types, p) < PortRank(types, q)
    ensures Pass(types, p, [q]) == [p, q] && Pass(types, q, [p]) == [p, q]
  {
    assert [q][1..] == [] && [p][1..] == [];
  }

  lemma PassOverTwo(types: seq<int>, h: Port, u: Port, b: Port)
    requires PortRank(types, b) < PortRank(types, u) < PortRank(types, h)
    ensures Pass(types, h, [u, b]) == [u, b, h]
  {
    assert [u, b][1..] == [b];
    PassOverOne(types, b, h);
  }

  // ---- repeated calls ----

  function Repeat(types: seq<int>, a: seq<Port>, k: nat): seq<Port>
    decreases k
  {
    if k == 0 then a else Repeat(types, SortOnce(types, a), k - 1)
  }

  /** Repeating the call as often as there are inversions reaches the stable sort, and stays there. */
  lemma {:induction false} RepeatReachesStableSort(types: seq<int>, a: seq<Port>, k: nat)
    requires Distinct(types)
    requires forall p :: p in a ==> p.kind in types
    requires Inversions(types, a) <= k
    ensures Repeat(types, a, k) == Grouped(types, a)
    decreases k
  {
    if k == 0 {
      NothingToSort(types, a);
      OrderedIsGrouped(types, a);
    } else {
      FewerInversions(types, a, k);
      SortOnceListed(types, a);
      RepeatReachesStableSort(types, SortOnce(types, a), k - 1);
      SortOnceGrouped(types, a);
    }
  }

  lemma NothingToSort(types: seq<int>, a: seq<Port>)
    requires Inversions(types, a) == 0
    ensures Ordered(types, a)
  {
    SortOnceProgress(types, a);
  }

  lemma FewerInversions(types: seq<int>, a: seq<Port>, k: nat)
    requires 0 < k && Inversions(types, a) <= k
    ensures Inversions(types, SortOnce(types, a)) <= k - 1
  {
    SortOnceProgress(types, a);
    if Ordered(types, a) {
      NoInversions(types, a);
    }
  }

  lemma SortOnceListed(types: seq<int>, a: seq<Port>)
    requires forall p :: p in a ==> p.kind in types
    ensures forall p :: p in SortOnce(types, a) ==> p.kind in types
  {
    SortOncePermutes(types, a);
    forall p | p in SortOnce(types, a) ensures p.kind in types {
      assert p in multiset(SortOnce(types, a));
    }
  }

  lemma SortOnceGrouped(types: seq<int>, a: seq<Port>)
    ensures Grouped(types, SortOnce(types, a)) == Grouped(types, a)
  {
    forall t ensures OfKind(SortOnce(types, a), t) == OfKind(a, t) {
      SortOnceStable(types, a, t);
    }
    GroupedByKinds(types, SortOnce(types, a), a);
  }

  lemma {:induction false} NoInversions(types: seq<int>, a: seq<Port>)
    requires Ordered(types, a)
    ensures Inversions(types, a) == 0
  {
    if a != [] {
      NoInversions(types, a[1..]);
      AtMostPositive(types, a[1..], PortRank(types, a[0]) - 1);
    }
  }
}
