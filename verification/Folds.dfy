/** Folding a step over data, for steps that can be undone and that reveal the item they absorb.
    Nothing here knows what a state, an item or a step is.
 */
module Folds {

  /** The state after the first k items of data; a step also sees the position of its item. */
  function Fold<S, T>(step: (S, T, nat) -> S, seed: S, data: seq<T>, k: nat): S
    requires k <= |data|
  {
    if k == 0 then seed else step(Fold(step, seed, data, k - 1), data[k - 1], k - 1)
  }

  /** The backward loop: from a state after k items to the seed it came from. */
  function Rewind<S, T>(back: (S, T, nat) -> S, x: S, data: seq<T>, k: nat): S
    requires k <= |data|
    decreases k
  {
    if k == 0 then x else Rewind(back, back(x, data[k - 1], k - 1), data, k - 1)
  }

  ghost predicate Undoes<S(!new), T(!new)>(back: (S, T, nat) -> S, step: (S, T, nat) -> S) {
    forall x, b, i :: back(step(x, b, i), b, i) == x
  }

  ghost predicate RevealsItem<S(!new), T(!new)>(step: (S, T, nat) -> S) {
    forall x, b, c, i :: step(x, b, i) == step(x, c, i) ==> b == c
  }

  /** The two sequences have one length and differ in item j and nowhere else. */
  ghost predicate DifferOnlyAt<T>(d: seq<T>, e: seq<T>, j: nat) {
    && |d| == |e| && j < |d| && d[j] != e[j]
    && forall k | 0 <= k < |d| && k != j :: d[k] == e[k]
  }

  lemma {:induction false} RewindUndoesFold<S(!new), T(!new)>(
    step: (S, T, nat) -> S, back: (S, T, nat) -> S, seed: S, data: seq<T>, k: nat)
    requires k <= |data| && Undoes(back, step)
    ensures Rewind(back, Fold(step, seed, data, k), data, k) == seed
  {
    if k != 0 {
      RewindUndoesFold(step, back, seed, data, k - 1);
    }
  }

  /** Data that agree below k lead to the same state at k. */
  lemma {:induction false} FoldOfPrefix<S, T>(step: (S, T, nat) -> S, seed: S, d: seq<T>, e: seq<T>, k: nat)
    requires k <= |d| && k <= |e| && forall j | 0 <= j < k :: d[j] == e[j]
    ensures Fold(step, seed, d, k) == Fold(step, seed, e, k)
  {
    if k != 0 {
      FoldOfPrefix(step, seed, d, e, k - 1);
    }
  }

  /** Over a common stretch [k, m), states agree at the end exactly if they agreed at the start. */
  lemma {:induction false} CommonStretch<S(!new), T(!new)>(
    step: (S, T, nat) -> S, back: (S, T, nat) -> S, seed: S, d: seq<T>, e: seq<T>, k: nat, m: nat)
    requires k <= m <= |d| && m <= |e| && Undoes(back, step)
    requires forall j | k <= j < m :: d[j] == e[j]
    ensures Fold(step, seed, d, m) == Fold(step, seed, e, m) <==> Fold(step, seed, d, k) == Fold(step, seed, e, k)
    decreases m
  {
    if k < m {
      var x, y := Fold(step, seed, d, m - 1), Fold(step, seed, e, m - 1);
      assert back(step(x, d[m - 1], m - 1), d[m - 1], m - 1) == x;
      assert back(step(y, e[m - 1], m - 1), e[m - 1], m - 1) == y;
      CommonStretch(step, back, seed, d, e, k, m - 1);
    }
  }

  /** A single changed item separates the final states for good. */
  lemma OneItemSeparates<S(!new), T(!new)>(
    step: (S, T, nat) -> S, back: (S, T, nat) -> S, seed: S, d: seq<T>, e: seq<T>, j: nat)
    requires DifferOnlyAt(d, e, j) && Undoes(back, step) && RevealsItem(step)
    ensures Fold(step, seed, d, |d|) != Fold(step, seed, e, |e|)
  {
    FoldOfPrefix(step, seed, d, e, j);
    var x := Fold(step, seed, d, j);
    assert step(x, d[j], j) != step(x, e[j], j);
    CommonStretch(step, back, seed, d, e, j + 1, |d|);
  }

  lemma RevealsItemFrom<S(!new), T(!new)>(step: (S, T, nat) -> S, find: (S, S, nat) -> T)
    requires forall x, b, i :: find(x, step(x, b, i), i) == b
    ensures RevealsItem(step)
  {
  }

  lemma LastItemSeparates<S(!new), T(!new)>(step: (S, T, nat) -> S, seed: S, d: seq<T>, e: seq<T>)
    requires d != [] && DifferOnlyAt(d, e, |d| - 1) && RevealsItem(step)
    ensures Fold(step, seed, d, |d|) != Fold(step, seed, e, |e|)
  {
    var j := |d| - 1;
    FoldOfPrefix(step, seed, d, e, j);
    var x := Fold(step, seed, d, j);
    assert step(x, d[j], j) != step(x, e[j], j);
  }

  /** A change in one place of a sequence, seen through a slice of it. */
  lemma SliceOfChange<T>(m: seq<T>, m': seq<T>, a: nat, p: nat, n: nat)
    requires |m'| == |m| && p + n <= |m| && (p <= a < p + n ==> m[a] != m'[a])
    requires forall k | p <= k < p + n && k != a :: m[k] == m'[k]
    ensures if p <= a < p + n then DifferOnlyAt(m[p..p + n], m'[p..p + n], a - p) else m[p..p + n] == m'[p..p + n]
  {
  }
}
