/** Slices of concatenations. */
module Slices {
  lemma InTail<T>(front: seq<T>, back: seq<T>, i: nat, j: nat)
    requires i <= j <= |back|
    ensures (front + back)[|front| + i..|front| + j] == back[i..j]
  {
    var slice := (front + back)[|front| + i..|front| + j];
    assert forall k :: 0 <= k < j - i ==> slice[k] == back[i + k];
  }

  lemma Across<T>(front: seq<T>, back: seq<T>, p: nat, i: nat)
    requires p <= |front| && i <= |back|
    ensures (front + back)[p..|front| + i] == front[p..] + back[..i]
  {
  }

  lemma Nested<T>(all: seq<T>, o: nat, size: nat, i: nat, j: nat)
    requires o + size <= |all| && i <= j <= size
    ensures all[o..o + size][i..j] == all[o + i..o + j]
  {
    var slice := all[o..o + size];
    assert forall k :: 0 <= k < j - i ==> slice[i..j][k] == slice[i + k] == all[o + i..o + j][k];
  }

  lemma Adjacent<T>(all: seq<T>, a: nat, b: nat, c: nat)
    requires a <= b <= c <= |all|
    ensures all[a..b] + all[b..c] == all[a..c]
  {
  }
}
