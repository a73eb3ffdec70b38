/**
 * The storage growth of libjson.h: every mutator calls `realloc` with the exact new
 * element count. Dafny arrays cannot grow in place, so this model's `realloc`
 * always hands back a fresh block holding the old prefix.
 */
module Buffers {

  /**
   * realloc(a, size): a fresh block of `size` slots whose first min(|a|, size) slots
   * hold the old contents; the slots past the old contents (uninitialised in C)
   * hold `fill`.
   */
  method Realloc<T>(a: array<T>, size: nat, fill: T) returns (b: array<T>)
    ensures fresh(b) && b.Length == size
    ensures size <= a.Length ==> b[..] == a[..size]
    ensures a.Length <= size ==> b[..a.Length] == a[..]
    ensures forall j :: a.Length <= j < size ==> b[j] == fill
  {
    b := new T[size](_ => fill);
    var keep := if size < a.Length then size else a.Length;
    var i := 0;
    while i < keep
      invariant 0 <= i <= keep
      invariant forall j :: 0 <= j < i ==> b[j] == a[j]
      invariant forall j :: keep <= j < size ==> b[j] == fill
    {
      b[i] := a[i];
      i := i + 1;
    }
  }

  /**
   * The removal loop of o_remove and a_remove: every slot after `index` among
   * the first `n` moves one slot down; the last of them keeps its old value.
   */
  method ShiftDown<T>(a: array<T>, index: nat, n: nat)
    requires index < n <= a.Length
    modifies a
    ensures a[..n - 1] == old(a[..index]) + old(a[index + 1..n])
    ensures a[n - 1..] == old(a[n - 1..])
  {
    ghost var before := a[..];
    var k := index;
    while k < n - 1
      invariant index <= k <= n - 1
      invariant forall j :: 0 <= j < index ==> a[j] == before[j]
      invariant forall j :: index <= j < k ==> a[j] == before[j + 1]
      invariant forall j :: k <= j < a.Length ==> a[j] == before[j]
    {
      a[k] := a[k + 1];
      k := k + 1;
    }
    assert a[..n - 1] == before[..index] + before[index + 1..n];
    assert a[n - 1..] == before[n - 1..];
  }

  /**
   * The insertion loop of a_setJSONElement: every slot from `k` on moves one slot
   * up, the last slot's old value dropping out; slot `k` keeps its old value.
   */
  method ShiftUp<T>(a: array<T>, k: nat)
    requires k < a.Length
    modifies a
    ensures a[..k + 1] == old(a[..k + 1])
    ensures a[k + 1..] == old(a[k..a.Length - 1])
  {
    ghost var before := a[..];
    var i := a.Length - 1;
    while i > k
      invariant k <= i < a.Length
      invariant forall j :: 0 <= j <= i ==> a[j] == before[j]
      invariant forall j :: i < j < a.Length ==> a[j] == before[j - 1]
    {
      a[i] := a[i - 1];
      i := i - 1;
    }
    assert a[k + 1..] == before[k..a.Length - 1];
  }
}
