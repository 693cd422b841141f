/** Scanning an input of length `n` from left to right in steps: from each
    offset the scan emits one item and moves on by a positive number of
    characters, until it reaches `n`. getAllTokens is such a scan, with
    getNextToken giving both the item and the step. */
module Scan {

  /** From every offset before `n`, `step` moves forward by at least one
      character and not past `n`. */
  ghost predicate Advances(step: nat -> nat, n: nat) {
    forall i: nat :: i < n ==> 0 < step(i) <= n - i
  }

  /** The offsets the scan visits from `index`, followed by `n`. */
  function Offsets(step: nat -> nat, n: nat, index: nat): (c: seq<nat>)
    requires index <= n && Advances(step, n)
    ensures |c| > 0 && c[0] == index && c[|c| - 1] == n
    decreases n - index
  {
    if index == n then [n] else [index] + Offsets(step, n, index + step(index))
  }

  /** The items the scan emits from `index`: one per offset it visits. */
  function Collect<T>(step: nat -> nat, item: nat -> T, n: nat, index: nat): (s: seq<T>)
    requires index <= n && Advances(step, n)
    ensures |s| == |Offsets(step, n, index)| - 1
    decreases n - index
  {
    if index == n then [] else [item(index)] + Collect(step, item, n, index + step(index))
  }

  /** Between two consecutive offsets lies exactly one step. */
  lemma {:induction false} OffsetsStep(step: nat -> nat, n: nat, index: nat, k: nat)
    requires index <= n && Advances(step, n)
    requires k < |Offsets(step, n, index)| - 1
    ensures index <= Offsets(step, n, index)[k] < Offsets(step, n, index)[k + 1] <= n
    ensures Offsets(step, n, index)[k + 1] == Offsets(step, n, index)[k] + step(Offsets(step, n, index)[k])
    decreases n - index
  {
    if k > 0 {
      OffsetsStep(step, n, index + step(index), k - 1);
    }
  }

  /** The offsets are the one chain from `index` to `n` in which every offset
      is followed by itself plus its step. */
  lemma {:induction false} OffsetsAre(step: nat -> nat, n: nat, index: nat, c: seq<nat>)
    requires index <= n && Advances(step, n)
    requires |c| > 0 && c[0] == index && c[|c| - 1] == n
    requires forall k :: 0 <= k < |c| - 1 ==> c[k] < n && c[k + 1] == c[k] + step(c[k])
    ensures Offsets(step, n, index) == c
    decreases |c|
  {
    if |c| > 1 {
      var rest := c[1..];
      assert forall k :: 0 <= k < |rest| ==> rest[k] == c[k + 1];
      OffsetsAre(step, n, index + step(index), rest);
      assert c == [index] + rest;
    }
  }

  /** Item `k` is the item emitted at offset `k`. */
  lemma {:induction false} CollectAt<T>(step: nat -> nat, item: nat -> T, n: nat, index: nat, k: nat)
    requires index <= n && Advances(step, n)
    requires k < |Collect(step, item, n, index)|
    ensures Collect(step, item, n, index)[k] == item(Offsets(step, n, index)[k])
    decreases n - index
  {
    if k > 0 {
      CollectAt(step, item, n, index + step(index), k - 1);
    }
  }

  /** The total of a sequence of counts. */
  function Sum(s: seq<nat>): nat {
    if s == [] then 0 else s[0] + Sum(s[1..])
  }

  /** The steps the scan takes from `index` add up to the distance from
      `index` to `n`: together they cover the input exactly once. */
  lemma {:induction false} StepsSum(step: nat -> nat, n: nat, index: nat)
    requires index <= n && Advances(step, n)
    ensures Sum(Collect(step, step, n, index)) == n - index
    decreases n - index
  {
    if index < n {
      var next := index + step(index);
      var s, rest := Collect(step, step, n, index), Collect(step, step, n, next);
      StepsSum(step, n, next);
      assert s == [step(index)] + rest;
      assert s[0] == step(index) && s[1..] == rest;
    }
  }
}
