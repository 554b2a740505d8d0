/** Equalities between slices, each proved on its own so that callers need not search for them. */
module Sequences {

  lemma SplitConcat<T>(s: seq<T>, k: nat, more: seq<T>)
    requires k <= |s|
    ensures (s + more)[..k] == s[..k] && (s + more)[k..] == s[k..] + more
  {
  }

  lemma DropConcat<T>(s: seq<T>, more: seq<T>, k: nat)
    requires k <= |more|
    ensures (s + more)[|s| + k..] == more[k..]
  {
  }

  lemma DropTwice<T>(s: seq<T>, k: nat, n: nat)
    requires k <= n <= |s|
    ensures s[k..][n - k..] == s[n..]
  {
  }

  lemma DropOfTake<T>(s: seq<T>, k: nat, n: nat)
    requires k <= n <= |s|
    ensures s[..n][k..] == s[k..n] && s[k..][..n - k] == s[k..n] && s[..n][..k] == s[..k]
  {
  }

  lemma TakeDrop<T>(s: seq<T>, k: nat)
    requires k <= |s|
    ensures s[..k] + s[k..] == s
  {
  }

  lemma Associative<T>(a: seq<T>, b: seq<T>, c: seq<T>)
    ensures a + (b + c) == a + b + c
  {
  }

  lemma TakeMore<T>(s: seq<T>, k: nat, n: nat)
    requires k <= n <= |s|
    ensures s[..k] + s[k..n] == s[..n]
  {
  }

  lemma SliceJoin<T>(s: seq<T>, i: nat, j: nat, k: nat)
    requires i <= j <= k <= |s|
    ensures s[i..k] == s[i..j] + s[j..k]
  {
  }

  lemma SliceSnoc<T>(s: seq<T>, i: nat, j: nat)
    requires i <= j < |s|
    ensures s[i..j] + [s[j]] == s[i..j + 1] && s[j..j] == []
  {
  }

  lemma Regroup<T>(a: seq<T>, b: seq<T>, c: seq<T>, d: seq<T>)
    ensures a + b + (c + d) == a + (b + c) + d
  {
  }

  lemma Replaced<T>(a: seq<T>, b: seq<T>, c: seq<T>, replacement: seq<T>, rest: seq<T>, nothing: seq<T>)
    requires nothing == []
    ensures a + b + (c + (replacement + rest)) == a + (b + c) + replacement + nothing + rest
  {
    Regroup(a, b, c, replacement + rest);
    Associative(a + (b + c), replacement, rest);
    assert a + (b + c) + replacement + nothing == a + (b + c) + replacement;
  }

  lemma SliceOfSlice<T>(s: seq<T>, j: nat, n: nat, i: nat, k: nat)
    requires j <= n <= |s| && i <= k <= n - j
    ensures s[j..n][i..k] == s[j + i..j + k]
  {
    var left, right := s[j..n][i..k], s[j + i..j + k];
    forall x | 0 <= x < k - i ensures left[x] == right[x] {
      assert left[x] == s[j..n][i + x] == s[j + i + x];
      assert right[x] == s[j + i + x];
    }
    assert |left| == |right| == k - i;
  }
}
