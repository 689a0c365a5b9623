/** Python's `max` and `list.index` over score lists, as used by both
    arbiters. */
module Selection {

  /** `max(xs)`. */
  function MaxOf(xs: seq<real>): (m: real)
    requires |xs| > 0
    ensures forall i | 0 <= i < |xs| :: xs[i] <= m
    ensures m in xs
    decreases |xs|
  {
    if |xs| == 1 then xs[0]
    else
      var front := MaxOf(xs[..|xs| - 1]);
      assert forall i | 0 <= i < |xs| - 1 :: xs[..|xs| - 1][i] == xs[i];
      if xs[|xs| - 1] > front then xs[|xs| - 1] else front
  }

  /** `xs.index(x)`: the first position holding `x`. */
  function IndexOf(xs: seq<real>, x: real): (k: nat)
    requires x in xs
    ensures k < |xs| && xs[k] == x
    ensures forall j | 0 <= j < k :: xs[j] != x
    decreases |xs|
  {
    if xs[0] == x then 0
    else
      var k := IndexOf(xs[1..], x);
      assert forall j | 1 <= j < |xs| :: xs[j] == xs[1..][j - 1];
      1 + k
  }

  /** The position `max(range(len(xs)), key=lambda i: xs[i])` returns: the
      first maximal element, since `max` replaces its candidate only on a
      strictly greater key. */
  function FirstMaxIndex(xs: seq<real>): (k: nat)
    requires |xs| > 0
    ensures k < |xs|
    ensures forall j | 0 <= j < |xs| :: xs[j] <= xs[k]
    ensures forall j | 0 <= j < k :: xs[j] < xs[k]
    decreases |xs|
  {
    if |xs| == 1 then 0
    else
      var front := xs[..|xs| - 1];
      var k := FirstMaxIndex(front);
      assert forall j | 0 <= j < |front| :: front[j] == xs[j];
      if xs[|xs| - 1] > xs[k] then |xs| - 1 else k
  }

  /** A prefix one element longer is the prefix extended by that element. */
  lemma PrefixExtend(xs: seq<real>, i: nat)
    requires i < |xs|
    ensures xs[..i + 1] == xs[..i] + [xs[i]]
    ensures i + 1 == |xs| ==> xs[..i + 1] == xs
  {
  }

  /** `xs.index(max(xs))` picks the same position as `max` with a key:
      the first maximal element. */
  lemma IndexOfMaxIsFirstMax(xs: seq<real>)
    requires |xs| > 0
    ensures IndexOf(xs, MaxOf(xs)) == FirstMaxIndex(xs)
  {
  }
}
