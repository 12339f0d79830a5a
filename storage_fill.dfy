/**
 * Fill accounting of B+Tree nodes: the serialized size of a node's prefix and
 * the rule that picks the index at which a node may give items away.
 */
module NodeFill {

  /** Size of the fixed node header (leaf flag and item count). */
  const NodeHeaderSize: nat := 3

  /** A node item: key and value bytes. */
  datatype Item = Item(key: seq<bv8>, value: seq<bv8>)

  /** Total element size of `items`, as given by the node format's element size. */
  function ElementsSize(items: seq<Item>, elementSize: Item -> nat): nat
  {
    if items == [] then 0
    else ElementsSize(items[..|items| - 1], elementSize) + elementSize(items[|items| - 1])
  }

  /** Header plus the elements of the first `k` items. */
  function PrefixSize(items: seq<Item>, elementSize: Item -> nat, k: nat): nat
    requires k <= |items|
  {
    NodeHeaderSize + ElementsSize(items[..k], elementSize)
  }

  /**
   * `r` is the split index of a node: the least cut `r`, with both halves
   * non-empty, whose prefix exceeds the minimum threshold; or -1 when no cut
   * short of the last item exceeds it.
   */
  ghost predicate IsSplitIndex(items: seq<Item>, elementSize: Item -> nat, threshold: real, r: int)
  {
    if r == -1 then
      forall j :: 1 <= j < |items| ==> PrefixSize(items, elementSize, j) as real <= threshold
    else
      && 1 <= r < |items|
      && PrefixSize(items, elementSize, r) as real > threshold
      && forall j :: 1 <= j < r ==> PrefixSize(items, elementSize, j) as real <= threshold
  }

  /** Adding one item to a prefix adds exactly that item's element size. */
  lemma {:induction false} PrefixSizeStep(items: seq<Item>, elementSize: Item -> nat, k: nat)
    requires k < |items|
    ensures PrefixSize(items, elementSize, k + 1) == PrefixSize(items, elementSize, k) + elementSize(items[k])
  {
    assert items[..k + 1][..k] == items[..k];
  }

  /** Element sizes are non-negative, so a longer prefix is never smaller. */
  lemma {:induction false} PrefixSizeMonotone(items: seq<Item>, elementSize: Item -> nat, j: nat, k: nat)
    requires j <= k <= |items|
    ensures PrefixSize(items, elementSize, j) <= PrefixSize(items, elementSize, k)
  {
    if j < k {
      PrefixSizeMonotone(items, elementSize, j, k - 1);
      PrefixSizeStep(items, elementSize, k - 1);
    }
  }

  /** The split index is determined by the items, the element sizes and the threshold. */
  lemma SplitIndexUnique(items: seq<Item>, elementSize: Item -> nat, threshold: real, r1: int, r2: int)
    requires IsSplitIndex(items, elementSize, threshold, r1)
    requires IsSplitIndex(items, elementSize, threshold, r2)
    ensures r1 == r2
  {
  }

  /** Every cut from the split index up to the last item also exceeds the threshold. */
  lemma SplitIndexUpwardClosed(items: seq<Item>, elementSize: Item -> nat, threshold: real, r: int, k: nat)
    requires IsSplitIndex(items, elementSize, threshold, r) && r != -1
    requires r <= k < |items|
    ensures PrefixSize(items, elementSize, k) as real > threshold
  {
    PrefixSizeMonotone(items, elementSize, r, k);
  }
}
