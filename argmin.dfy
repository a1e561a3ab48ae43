/** Arg-min selection as every decoder in Viterbi.java performs it: scan the
    candidates left to right, keep the best so far, and replace it only on a
    strictly smaller cost, so that ties go to the earliest candidate. */
module ArgMin {

  datatype Option<T> = None | Some(value: T)

  /** `x < bound`, where `None` stands for the Double.MAX_VALUE sentinel a
      scan starts from; every finite cost is below it. */
  predicate Below(x: int, bound: Option<int>) {
    bound.None? || x < bound.value
  }

  /** Index of the first minimum among the first `n` elements of `c`: the
      answer of a scan that has visited them. */
  function FirstMinOf(c: seq<int>, n: nat): (k: nat)
    requires 0 < n <= |c|
    ensures k < n
  {
    if n == 1 then 0
    else
      var k := FirstMinOf(c, n - 1);
      if c[n - 1] < c[k] then n - 1 else k
  }

  /** Index of the first minimum of `c`. */
  function FirstMin(c: seq<int>): (k: nat)
    requires |c| > 0
    ensures k < |c|
  {
    FirstMinOf(c, |c|)
  }

  /** The smallest of the first `n` elements of `c`. */
  function MinOf(c: seq<int>, n: nat): int
    requires 0 < n <= |c|
  {
    if n == 1 then c[0]
    else
      var m := MinOf(c, n - 1);
      if c[n - 1] < m then c[n - 1] else m
  }

  /** The smallest element of `c`. */
  function Min(c: seq<int>): int
    requires |c| > 0
  {
    MinOf(c, |c|)
  }

  /** The smallest element is the one at the first minimum. */
  lemma {:induction false} MinAtFirstMin(c: seq<int>, n: nat)
    requires 0 < n <= |c|
    ensures MinOf(c, n) == c[FirstMinOf(c, n)]
  {
    if n > 1 {
      MinAtFirstMin(c, n - 1);
    }
  }

  /** `FirstMinOf` is a first minimum: no element among the first `n` is
      smaller than the one it picks, and every element before it is strictly
      larger. */
  lemma {:induction false} FirstMinIsFirst(c: seq<int>, n: nat, i: nat)
    requires i < n <= |c|
    ensures c[FirstMinOf(c, n)] <= c[i]
    ensures i < FirstMinOf(c, n) ==> c[FirstMinOf(c, n)] < c[i]
  {
    if n > 1 {
      if i < n - 1 {
        FirstMinIsFirst(c, n - 1, i);
      } else {
        FirstMinIsFirst(c, n - 1, FirstMinOf(c, n - 1));
      }
    }
  }

  /** The arg-min loop of the greedy decoders (Viterbi.java lines 120-129 and
      248-257) over one cost row. */
  method PickFirstMinimum(row: array<int>) returns (perfectCost: int, perfectJ: nat)
    requires row.Length > 0
    ensures perfectJ < row.Length && perfectCost == row[perfectJ]
    ensures forall j :: 0 <= j < row.Length ==> perfectCost <= row[j]
    ensures forall j :: 0 <= j < perfectJ ==> perfectCost < row[j]
    ensures perfectJ == FirstMin(row[..])
  {
    var line: Option<int> := None;
    perfectJ := 0;
    for j := 0 to row.Length
      invariant line.None? <==> j == 0
      invariant j > 0 ==> perfectJ == FirstMinOf(row[..], j) && line.value == row[perfectJ]
    {
      if Below(row[j], line) {
        line := Some(row[j]);
        perfectJ := j;
      }
    }
    perfectCost := line.value;
    forall j | 0 <= j < row.Length
      ensures perfectCost <= row[j] && (j < perfectJ ==> perfectCost < row[j])
    {
      FirstMinIsFirst(row[..], row.Length, j);
    }
  }
}
