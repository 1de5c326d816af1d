/** What `System.Array.Sort(keys, items)` does to the command's two arrays:
    it sorts the key array in place and moves each item along with its key. */
module ArraySort {
  import opened Models
  import opened Permutations

  /** Moves the item at index `j` to index `order[j]`, for every `j`. */
  method MoveItems(order: seq<int>, items: array<Point>)
    requires |order| == items.Length && Distinct(order)
    requires forall j :: 0 <= j < |order| ==> 0 <= order[j] < items.Length
    modifies items
    ensures forall j :: 0 <= j < |order| ==> items[order[j]] == old(items[j])
  {
    var was := items[..];
    forall j | 0 <= j < |order| {
      items[order[j]] := was[j];
    }
  }

  /** The key array once sorted: 0, 1, ..., n - 1. */
  method ResetKeys(keys: array<int>)
    modifies keys
    ensures forall i :: 0 <= i < keys.Length ==> keys[i] == i
  {
    for i := 0 to keys.Length
      invariant forall j :: 0 <= j < i ==> keys[j] == j
    {
      keys[i] := i;
    }
  }

  /** For keys that are a permutation of 0..n-1: afterwards the keys read
      0, 1, ..., n-1 and the item that stood beside key `k` is at index `k`. */
  method SortKeysAndItems(keys: array<int>, items: array<Point>)
    requires keys.Length == items.Length
    requires Distinct(keys[..])
    requires forall i :: 0 <= i < keys.Length ==> 0 <= keys[i] < keys.Length
    modifies keys, items
    ensures forall i :: 0 <= i < keys.Length ==> keys[i] == i
    ensures forall i :: 0 <= i < keys.Length ==> items[old(keys[i])] == old(items[i])
  {
    var order := keys[..];
    MoveItems(order, items);
    ResetKeys(keys);
  }
}
