/** The operations of the engine's `List<T>` that the components use, on sequences. */
module Lists {

  /** `List.RemoveAt(i)`: drop position i, keep every other entry in order. */
  function RemoveAt<T>(s: seq<T>, i: nat): (r: seq<T>)
    requires i < |s|
    ensures |r| == |s| - 1
  {
    s[..i] + s[i + 1..]
  }

  /** The entries before i keep their positions; those after it move down by one. */
  lemma RemoveAtIndices<T>(s: seq<T>, i: nat)
    requires i < |s|
    ensures forall j :: 0 <= j < i ==> RemoveAt(s, i)[j] == s[j]
    ensures forall j :: i <= j < |s| - 1 ==> RemoveAt(s, i)[j] == s[j + 1]
  {
  }

  /** `if (list.Count > i) list.RemoveAt(i)`: the removal guarded by the length. */
  function RemoveAtIfPresent<T>(s: seq<T>, i: nat): (r: seq<T>)
    ensures i < |s| ==> |r| == |s| - 1 && r[..i] == s[..i] && r[i..] == s[i + 1..]
    ensures |s| <= i ==> r == s
  {
    if i < |s| then RemoveAt(s, i) else s
  }

  /** Removing two entries at `m` shifts every later entry down by two. */
  lemma RemoveTwoShift<T>(s: seq<T>, m: nat)
    requires m + 1 < |s|
    ensures |RemoveAt(RemoveAt(s, m), m)| == |s| - 2
    ensures forall k :: 0 <= k < |s| - 2 ==> RemoveAt(RemoveAt(s, m), m)[k] == s[if k < m then k else k + 2]
  {
  }

  lemma RemoveAtMultiset<T>(s: seq<T>, i: nat)
    requires i < |s|
    ensures multiset(RemoveAt(s, i)) == multiset(s) - multiset{s[i]}
  {
    assert s == s[..i] + [s[i]] + s[i + 1..];
  }

  /** The first index of x in s (`List.IndexOf`, and the search loops written by hand), or -1. */
  function IndexOf<T(==)>(s: seq<T>, x: T): (r: int)
    ensures -1 <= r < |s|
    ensures r == -1 <==> x !in s
    ensures 0 <= r ==> s[r] == x && x !in s[..r]
  {
    if |s| == 0 then -1
    else if s[0] == x then 0
    else
      var k := IndexOf(s[1..], x);
      assert s[1..][..(if k < 0 then 0 else k)] == s[1..(if k < 0 then 0 else k) + 1];
      if k == -1 then -1 else k + 1
  }

  /** An occurrence with none before it is the one IndexOf finds. */
  lemma IndexOfFirst<T>(s: seq<T>, x: T, k: nat)
    requires k < |s| && s[k] == x && x !in s[..k]
    ensures IndexOf(s, x) == k
  {
    var r := IndexOf(s, x);
    assert forall j :: 0 <= j < k ==> s[..k][j] == s[j];
    assert 0 <= r ==> forall j :: 0 <= j < r ==> s[..r][j] == s[j];
  }

  /** `List.Remove(x)`: remove the first occurrence of x, if there is one. */
  function RemoveFirst<T(==)>(s: seq<T>, x: T): (r: seq<T>)
    ensures x !in s ==> r == s
    ensures x in s ==> |r| == |s| - 1
    ensures x in s ==> exists k :: 0 <= k < |s| && s[k] == x && x !in s[..k] && r == s[..k] + s[k + 1..]
    ensures multiset(r) == multiset(s) - multiset{x}
  {
    var k := IndexOf(s, x);
    if k < 0 then s else RemoveAtMultiset(s, k); RemoveAt(s, k)
  }

  /** No entry occurs twice. */
  predicate Distinct<T(==)>(s: seq<T>)
  {
    forall i, j :: 0 <= i < j < |s| ==> s[i] != s[j]
  }

  lemma DistinctRemoveAt<T>(s: seq<T>, i: nat)
    requires i < |s| && Distinct(s)
    ensures Distinct(RemoveAt(s, i))
    ensures s[i] !in RemoveAt(s, i)
  {
    var r := RemoveAt(s, i);
    forall a, b | 0 <= a < b < |r| ensures r[a] != r[b] {
      var a' := if a < i then a else a + 1;
      var b' := if b < i then b else b + 1;
      assert r[a] == s[a'] && r[b] == s[b'];
    }
    forall k | 0 <= k < |r| ensures r[k] != s[i] {
      if k < i { assert r[k] == s[k]; } else { assert r[k] == s[k + 1]; }
    }
  }
}
