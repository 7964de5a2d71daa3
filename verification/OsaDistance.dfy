/**
 Optimal string alignment: the least cost of turning one string into the other, a swap of neighbours counting as
 one edit, no stretch being edited twice.  Characters are bytes.
 */
module OsaDistance {
  import opened Text

  // ----- Alignments -----

  /** One step of reading both strings from left to right. */
  datatype Op =
    | Match
    | Substitute
    | Insertion
    | Deletion
    | Swap

  function OpCost(op: Op): nat {
    if op.Match? then 0 else 1
  }

  /** How much of the first string, and of the second, a step reads. */
  function Reads(op: Op): (nat, nat) {
    match op
    case Match => (1, 1)
    case Substitute => (1, 1)
    case Insertion => (0, 1)
    case Deletion => (1, 0)
    case Swap => (2, 2)
  }

  /** The step may end where i characters of a and j of b have been read. */
  predicate Allowed(op: Op, a: string, b: string, i: nat, j: nat)
    requires i <= |a| && j <= |b|
  {
    && Reads(op).0 <= i && Reads(op).1 <= j
    && (op.Match? ==> a[i - 1] == b[j - 1])
    && (op.Swap? ==> a[i - 2] == b[j - 1] && a[i - 1] == b[j - 2])
  }

  /** The steps, in order, read exactly the first i characters of a and the first j of b. */
  predicate Aligns(ops: seq<Op>, a: string, b: string, i: nat, j: nat)
    requires i <= |a| && j <= |b|
  {
    if |ops| == 0 then i == 0 && j == 0
    else
      var op := ops[|ops| - 1];
      Allowed(op, a, b, i, j) && Aligns(ops[..|ops| - 1], a, b, i - Reads(op).0, j - Reads(op).1)
  }

  function Cost(ops: seq<Op>): nat {
    if |ops| == 0 then 0 else Cost(ops[..|ops| - 1]) + OpCost(ops[|ops| - 1])
  }

  // ----- The recurrence -----

  function Min3(a: nat, b: nat, c: nat): nat {
    Min(Min(a, b), c)
  }

  predicate Swapped(a: string, b: string, i: nat, j: nat)
    requires i <= |a| && j <= |b|
  {
    i > 1 && j > 1 && a[i - 1] == b[j - 2] && a[i - 2] == b[j - 1]
  }

  /** The distance of the first i characters of a from the first j of b. */
  function Distance(a: string, b: string, i: nat, j: nat): nat
    requires i <= |a| && j <= |b|
    decreases i + j
  {
    if i == 0 then j
    else if j == 0 then i
    else
      var best := Min3(Distance(a, b, i, j - 1) + 1, Distance(a, b, i - 1, j) + 1,
                       Distance(a, b, i - 1, j - 1) + if a[i - 1] == b[j - 1] then 0 else 1);
      if Swapped(a, b, i, j) then Min(best, Distance(a, b, i - 2, j - 2) + 1) else best
  }

  /** Distance as the least of the three or four values it may take; the form in which the proofs use it. */
  lemma {:induction false} DistanceCell(a: string, b: string, i: nat, j: nat)
    requires i <= |a| && j <= |b|
    ensures i == 0 || j == 0 ==> Distance(a, b, i, j) == i + j
    ensures i > 0 && j > 0 ==>
            var d, cost := Distance(a, b, i, j), if a[i - 1] == b[j - 1] then 0 else 1;
            var left, up, diagonal := Distance(a, b, i, j - 1), Distance(a, b, i - 1, j), Distance(a, b, i - 1, j - 1);
            && d <= left + 1 && d <= up + 1 && d <= diagonal + cost
            && (d == left + 1 || d == up + 1 || d == diagonal + cost || (Swapped(a, b, i, j) && d == Distance(a, b, i - 2, j - 2) + 1))
            && (Swapped(a, b, i, j) ==> d <= Distance(a, b, i - 2, j - 2) + 1)
  {
  }

  /** No alignment costs less. */
  lemma {:induction false} DistanceIsLower(ops: seq<Op>, a: string, b: string, i: nat, j: nat)
    requires i <= |a| && j <= |b| && Aligns(ops, a, b, i, j)
    ensures Distance(a, b, i, j) <= Cost(ops)
    decreases |ops|
  {
    if |ops| > 0 {
      var op := ops[|ops| - 1];
      DistanceIsLower(ops[..|ops| - 1], a, b, i - Reads(op).0, j - Reads(op).1);
      StepIsLower(op, a, b, i, j);
    }
  }

  lemma {:induction false} StepIsLower(op: Op, a: string, b: string, i: nat, j: nat)
    requires i <= |a| && j <= |b| && Allowed(op, a, b, i, j)
    ensures Distance(a, b, i, j) <= Distance(a, b, i - Reads(op).0, j - Reads(op).1) + OpCost(op)
  {
    hide Distance;
    DistanceCell(a, b, i, j);
    DistanceCell(a, b, i - Reads(op).0, j - Reads(op).1);
  }

  lemma {:induction false} LastStep(ops: seq<Op>, op: Op, a: string, b: string, i: nat, j: nat)
    requires i <= |a| && j <= |b| && Allowed(op, a, b, i, j)
    requires Aligns(ops, a, b, i - Reads(op).0, j - Reads(op).1)
    ensures Aligns(ops + [op], a, b, i, j) && Cost(ops + [op]) == Cost(ops) + OpCost(op)
  {
    assert (ops + [op])[..|ops|] == ops;
  }

  /** The last step of a cheapest alignment. */
  lemma {:induction false} BestOp(a: string, b: string, i: nat, j: nat) returns (op: Op)
    requires i <= |a| && j <= |b| && i + j > 0
    ensures Allowed(op, a, b, i, j)
    ensures Distance(a, b, i, j) == Distance(a, b, i - Reads(op).0, j - Reads(op).1) + OpCost(op)
  {
    hide Distance;
    DistanceCell(a, b, i, j);
    if i == 0 {
      op := Insertion;
      DistanceCell(a, b, i, j - 1);
    } else if j == 0 {
      op := Deletion;
      DistanceCell(a, b, i - 1, j);
    } else if Distance(a, b, i, j) == Distance(a, b, i, j - 1) + 1 {
      op := Insertion;
    } else if Distance(a, b, i, j) == Distance(a, b, i - 1, j) + 1 {
      op := Deletion;
    } else if Swapped(a, b, i, j) && Distance(a, b, i, j) == Distance(a, b, i - 2, j - 2) + 1 {
      op := Swap;
    } else {
      op := if a[i - 1] == b[j - 1] then Match else Substitute;
    }
  }

  /** Some alignment costs that much. */
  lemma {:induction false} DistanceIsAttained(a: string, b: string, i: nat, j: nat) returns (ops: seq<Op>)
    requires i <= |a| && j <= |b|
    ensures Aligns(ops, a, b, i, j) && Cost(ops) == Distance(a, b, i, j)
    decreases i + j
  {
    if i + j == 0 {
      ops := [];
    } else {
      var op := BestOp(a, b, i, j);
      ops := DistanceIsAttained(a, b, i - Reads(op).0, j - Reads(op).1);
      LastStep(ops, op, a, b, i, j);
      ops := ops + [op];
    }
  }

  /** d is the least cost of an alignment of the whole strings. */
  ghost predicate IsLeastCost(d: nat, a: string, b: string) {
    && (exists ops :: Aligns(ops, a, b, |a|, |b|) && Cost(ops) == d)
    && (forall ops :: Aligns(ops, a, b, |a|, |b|) ==> d <= Cost(ops))
  }

  lemma {:induction false} DistanceIsLeastCost(a: string, b: string)
    ensures IsLeastCost(Distance(a, b, |a|, |b|), a, b)
  {
    var ops := DistanceIsAttained(a, b, |a|, |b|);
    forall ops' | Aligns(ops', a, b, |a|, |b|) ensures Distance(a, b, |a|, |b|) <= Cost(ops') {
      DistanceIsLower(ops', a, b, |a|, |b|);
    }
  }

  // ----- What a distance promises -----

  lemma {:induction false} DistanceIsSymmetric(a: string, b: string, i: nat, j: nat)
    requires i <= |a| && j <= |b|
    ensures Distance(a, b, i, j) == Distance(b, a, j, i)
    decreases i + j
  {
    hide Distance;
    DistanceCell(a, b, i, j);
    DistanceCell(b, a, j, i);
    if i > 0 && j > 0 {
      DistanceIsSymmetric(a, b, i - 1, j);
      DistanceIsSymmetric(a, b, i, j - 1);
      DistanceIsSymmetric(a, b, i - 1, j - 1);
      if Swapped(a, b, i, j) {
        DistanceIsSymmetric(a, b, i - 2, j - 2);
      }
    }
  }

  lemma {:induction false} ZeroOnlyOnEqual(a: string, b: string, i: nat, j: nat)
    requires i <= |a| && j <= |b|
    ensures Distance(a, b, i, j) == 0 <==> a[..i] == b[..j]
    decreases i + j
  {
    hide Distance;
    DistanceCell(a, b, i, j);
    if i > 0 && j > 0 {
      ZeroOnlyOnEqual(a, b, i - 1, j - 1);
      TakeMore(a, i - 1);
      TakeMore(b, j - 1);
      if a[..i] == b[..j] {
        assert a[..i][i - 1] == b[..j][j - 1];
        assert a[..i][..i - 1] == b[..j][..j - 1];
        assert a[..i][..i - 1] == a[..i - 1] && b[..j][..j - 1] == b[..j - 1];
      }
    }
  }

  /** Between the difference of the lengths and the greater length. */
  lemma {:induction false} DistanceBounds(a: string, b: string, i: nat, j: nat)
    requires i <= |a| && j <= |b|
    ensures i - j <= Distance(a, b, i, j) && j - i <= Distance(a, b, i, j) <= Max(i, j)
    decreases i + j
  {
    hide Distance;
    DistanceCell(a, b, i, j);
    if i > 0 && j > 0 {
      DistanceBounds(a, b, i - 1, j);
      DistanceBounds(a, b, i, j - 1);
      DistanceBounds(a, b, i - 1, j - 1);
      if Swapped(a, b, i, j) {
        DistanceBounds(a, b, i - 2, j - 2);
      }
    }
  }

  // ----- Three rolling rows -----

  ghost predicate RowIs(row: seq<nat>, a: string, b: string, i: nat)
    requires i <= |a| && |row| == |b| + 1
  {
    forall j :: 0 <= j <= |b| ==> row[j] == Distance(a, b, i, j)
  }

  /** `copy(to, from)`. */
  method CopyRow(to: array<nat>, from: array<nat>)
    requires to.Length == from.Length && to != from
    modifies to
    ensures to[..] == from[..]
  {
    for j := 0 to from.Length
      invariant to[..j] == from[..j]
    {
      to[j] := from[j];
      assert to[..j + 1] == from[..j + 1];
    }
    assert to[..] == to[..to.Length] && from[..] == from[..from.Length];
  }

  method FillRow(a: string, b: string, i: nat, beforePrevious: array<nat>, previous: array<nat>, current: array<nat>)
    requires 1 <= i <= |a| && |b| > 0
    requires beforePrevious.Length == previous.Length == current.Length == |b| + 1
    requires current != previous && current != beforePrevious
    requires RowIs(previous[..], a, b, i - 1) && (i > 1 ==> RowIs(beforePrevious[..], a, b, i - 2))
    modifies current
    ensures RowIs(current[..], a, b, i)
  {
    hide Distance;
    DistanceCell(a, b, i, 0);
    current[0] := i;
    for j := 1 to |b| + 1
      invariant forall k :: 0 <= k < j ==> current[k] == Distance(a, b, i, k)
    {
      var cost := 1;
      if a[i - 1] == b[j - 1] {
        cost := 0;
      }
      assert previous[..][j] == previous[j] && previous[..][j - 1] == previous[j - 1];
      var best := Min3(current[j - 1] + 1, previous[j] + 1, previous[j - 1] + cost);
      DistanceCell(a, b, i, j);
      if i > 1 && j > 1 && a[i - 1] == b[j - 2] && a[i - 2] == b[j - 1] {
        assert beforePrevious[..][j - 2] == beforePrevious[j - 2];
        var swapped := beforePrevious[j - 2] + 1;
        if swapped < best {
          best := swapped;
        }
      }
      current[j] := best;
    }
  }

  method EditDistance(a: string, b: string) returns (d: nat)
    ensures d == Distance(a, b, |a|, |b|)
  {
    if |a| == 0 {
      return |b|;
    }
    if |b| == 0 {
      return |a|;
    }
    var beforePrevious := new nat[|b| + 1];
    var previous := new nat[|b| + 1];
    var current := new nat[|b| + 1];
    for j := 0 to |b| + 1
      invariant forall k :: 0 <= k < j ==> previous[k] == k
    {
      previous[j] := j;
    }
    for i := 1 to |a| + 1
      invariant RowIs(previous[..], a, b, i - 1)
      invariant i > 1 ==> RowIs(beforePrevious[..], a, b, i - 2)
    {
      FillRow(a, b, i, beforePrevious, previous, current);
      CopyRow(beforePrevious, previous);
      CopyRow(previous, current);
    }
    d := previous[|b|];
  }
}
