/**
  Bounded edit distance over bytes, ASCII case-insensitive: the two-row dynamic
  program with its early exits, against the recursive distance and against edit
  scripts.
 */
module EditDistance {
  import opened Base

  function Lower(b: u8): u8 { if 65 <= b <= 90 then b + 32 else b }

  /** `eq_ignore_ascii_case` on one byte. */
  predicate SameFolded(a: u8, b: u8) { Lower(a) == Lower(b) }

  function Min3(a: nat, b: nat, c: nat): nat { Min(Min(a, b), c) }

  /** The distance between the first `i` bytes of `l` and the first `j` of `r`. */
  function Distance(l: Bytes, i: nat, r: Bytes, j: nat): nat
    requires i <= |l| && j <= |r|
    decreases i + j
  {
    if i == 0 then j
    else if j == 0 then i
    else Min3(Distance(l, i - 1, r, j - 1) + (if SameFolded(l[i - 1], r[j - 1]) then 0 else 1),
              Distance(l, i - 1, r, j) + 1,
              Distance(l, i, r, j - 1) + 1)
  }

  lemma {:induction false} DistanceStep(l: Bytes, i: nat, r: Bytes, j: nat)
    requires i <= |l| && j <= |r|
    ensures Distance(l, 0, r, j) == j && Distance(l, i, r, 0) == i
    ensures i < |l| && j < |r| ==>
              Distance(l, i + 1, r, j + 1) ==
              Min3(if SameFolded(l[i], r[j]) then Distance(l, i, r, j) else Distance(l, i, r, j) + 1,
                   Distance(l, i, r, j + 1) + 1, Distance(l, i + 1, r, j) + 1)
  {
  }

  // ----- Edit scripts

  datatype Edit = Keep | Substitute | Delete | Insert

  function Cost(script: seq<Edit>): nat
  {
    if script == [] then 0 else Cost(script[..|script| - 1]) + if script[|script| - 1].Keep? then 0 else 1
  }

  /** `script` turns the first `i` bytes of `l` into the first `j` of `r`, up to ASCII case. */
  predicate Rewrites(script: seq<Edit>, l: Bytes, i: nat, r: Bytes, j: nat)
    requires i <= |l| && j <= |r|
    decreases |script|
  {
    if script == [] then i == 0 && j == 0 else
    var front := script[..|script| - 1];
    match script[|script| - 1]
    case Keep => i > 0 && j > 0 && SameFolded(l[i - 1], r[j - 1]) && Rewrites(front, l, i - 1, r, j - 1)
    case Substitute => i > 0 && j > 0 && Rewrites(front, l, i - 1, r, j - 1)
    case Delete => i > 0 && Rewrites(front, l, i - 1, r, j)
    case Insert => j > 0 && Rewrites(front, l, i, r, j - 1)
  }

  /** No script is cheaper than the distance. */
  lemma {:induction false} NoScriptIsCheaper(script: seq<Edit>, l: Bytes, i: nat, r: Bytes, j: nat)
    requires i <= |l| && j <= |r| && Rewrites(script, l, i, r, j)
    ensures Distance(l, i, r, j) <= Cost(script)
    decreases |script|
  {
    if script != [] {
      var front := script[..|script| - 1];
      match script[|script| - 1]
      case Keep => NoScriptIsCheaper(front, l, i - 1, r, j - 1);
      case Substitute => NoScriptIsCheaper(front, l, i - 1, r, j - 1);
      case Delete => NoScriptIsCheaper(front, l, i - 1, r, j);
      case Insert => NoScriptIsCheaper(front, l, i, r, j - 1);
    }
  }

  /** Some script attains it. */
  lemma {:induction false} CheapestScript(l: Bytes, i: nat, r: Bytes, j: nat) returns (script: seq<Edit>)
    requires i <= |l| && j <= |r|
    ensures Rewrites(script, l, i, r, j) && Cost(script) == Distance(l, i, r, j)
    decreases i + j
  {
    if i == 0 && j == 0 {
      script := [];
    } else {
      var d := Distance(l, i, r, j);
      var last :=
        if i == 0 then Insert else if j == 0 then Delete
        else if d == Distance(l, i - 1, r, j) + 1 then Delete
        else if d == Distance(l, i, r, j - 1) + 1 then Insert
        else if SameFolded(l[i - 1], r[j - 1]) then Keep else Substitute;
      var front := CheapestScript(l, if last.Insert? then i else i - 1, r, if last.Delete? then j else j - 1);
      script := front + [last];
      assert script[..|script| - 1] == front;
    }
  }

  // ----- Why the early exits are safe

  lemma {:induction false} AtLeastLengthDifference(l: Bytes, i: nat, r: Bytes, j: nat)
    requires i <= |l| && j <= |r|
    ensures Distance(l, i, r, j) >= i - j && Distance(l, i, r, j) >= j - i
    decreases i + j
  {
    if i > 0 && j > 0 {
      AtLeastLengthDifference(l, i - 1, r, j - 1);
      AtLeastLengthDifference(l, i - 1, r, j);
      AtLeastLengthDifference(l, i, r, j - 1);
    }
  }

  /** A lower bound on a whole row bounds every later row. */
  lemma {:induction false} RowsDoNotShrink(l: Bytes, i: nat, n: nat, r: Bytes, j: nat, bound: nat)
    requires i <= n <= |l| && j <= |r|
    requires forall k :: 0 <= k <= |r| ==> Distance(l, i, r, k) >= bound
    ensures Distance(l, n, r, j) >= bound
    decreases n + j
  {
    hide Distance;
    if i < n {
      if j == 0 {
        assert Distance(l, i, r, 0) >= bound;
        DistanceStep(l, i, r, 0);
        DistanceStep(l, n, r, 0);
      } else {
        DistanceStep(l, n - 1, r, j - 1);
        RowsDoNotShrink(l, i, n - 1, r, j - 1, bound);
        RowsDoNotShrink(l, i, n - 1, r, j, bound);
        RowsDoNotShrink(l, i, n, r, j - 1, bound);
      }
    }
  }

  // ----- The two-row program

  /** Fills `current` with row `i + 1` from `previous`, row `i`; returns the row's minimum. */
  method FillRow(l: Bytes, i: nat, r: Bytes, previous: array<nat>, current: array<nat>) returns (rowMin: nat)
    requires i < |l| && previous.Length == current.Length == |r| + 1 && previous != current
    requires forall k :: 0 <= k <= |r| ==> previous[k] == Distance(l, i, r, k)
    modifies current
    ensures forall k :: 0 <= k <= |r| ==> current[k] == Distance(l, i + 1, r, k)
    ensures forall k :: 0 <= k <= |r| ==> rowMin <= current[k]
    ensures exists k :: 0 <= k <= |r| && rowMin == current[k]
  {
    hide Distance;
    DistanceStep(l, i + 1, r, 0);
    current[0] := i + 1;
    rowMin := current[0];
    ghost var at := 0;
    var j := 0;
    while j < |r|
      invariant 0 <= j <= |r|
      invariant forall k :: 0 <= k <= j ==> current[k] == Distance(l, i + 1, r, k) && rowMin <= current[k]
      invariant 0 <= at <= j && rowMin == current[at]
    {
      DistanceStep(l, i, r, j);
      var substitution := if SameFolded(l[i], r[j]) then previous[j] else previous[j] + 1;
      current[j + 1] := Min(Min(substitution, previous[j + 1] + 1), current[j] + 1);
      if current[j + 1] < rowMin {
        rowMin := current[j + 1];
        at := j + 1;
      }
      j := j + 1;
    }
  }

  /** True exactly when the distance is at most `maxDistance`. */
  method BoundedLevenshtein(l: Bytes, r: Bytes, maxDistance: nat) returns (within: bool)
    ensures within <==> Distance(l, |l|, r, |r|) <= maxDistance
  {
    hide Distance;
    AtLeastLengthDifference(l, |l|, r, |r|);
    if |l| > |r| + maxDistance || |r| > |l| + maxDistance {
      return false;
    }
    var previous := new nat[|r| + 1](k => k);
    var current := new nat[|r| + 1](_ => 0);
    var i := 0;
    forall k | 0 <= k <= |r| ensures Distance(l, 0, r, k) == k { DistanceStep(l, 0, r, k); }
    while i < |l|
      invariant 0 <= i <= |l| && previous != current && fresh(previous) && fresh(current)
      invariant previous.Length == current.Length == |r| + 1
      invariant forall k :: 0 <= k <= |r| ==> previous[k] == Distance(l, i, r, k)
    {
      var rowMin := FillRow(l, i, r, previous, current);
      if rowMin > maxDistance {
        ghost var row := i + 1;
        forall k | 0 <= k <= |r| ensures Distance(l, row, r, k) >= rowMin { assert current[k] >= rowMin; }
        RowsDoNotShrink(l, i + 1, |l|, r, |r|, rowMin);
        return false;
      }
      previous, current := current, previous;
      i := i + 1;
    }
    within := previous[|r|] <= maxDistance;
  }

  /** What the answer means: some edit script within the budget exists. */
  lemma {:induction false} WithinIsRewritable(l: Bytes, r: Bytes, k: nat)
    ensures Distance(l, |l|, r, |r|) <= k <==>
            exists script :: Rewrites(script, l, |l|, r, |r|) && Cost(script) <= k
  {
    if Distance(l, |l|, r, |r|) <= k {
      var script := CheapestScript(l, |l|, r, |r|);
      assert Rewrites(script, l, |l|, r, |r|) && Cost(script) <= k;
    }
    forall script | Rewrites(script, l, |l|, r, |r|) && Cost(script) <= k
      ensures Distance(l, |l|, r, |r|) <= k
    {
      NoScriptIsCheaper(script, l, |l|, r, |r|);
    }
  }
}
