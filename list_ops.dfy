/** The JavaScript array operations that both question editors rely on,
    stated over sequences: `slice`, an inserting `splice`, `filter` on the
    element position, and an indexed read that may miss. */
module ListOps {

  import opened Wrappers

  /** How `slice` and `splice` resolve a relative index against an array of
      length `len`: a negative index counts back from the end, and the result
      is clamped to the range [0, len]. */
  function RelativeIndex(k: int, len: nat): (p: nat)
    ensures p <= len
    ensures 0 <= k <= len ==> p == k
    ensures k >= len ==> p == len
    ensures k < 0 && len + k >= 0 ==> p == len + k
    ensures len + k < 0 ==> p == 0
  {
    if k < 0 then (if len + k < 0 then 0 else len + k)
    else if k < len then k
    else len
  }

  /** `s.slice(start, end)`. */
  function Slice<T>(s: seq<T>, start: int, end: int): seq<T>
  {
    var from := RelativeIndex(start, |s|);
    var to := RelativeIndex(end, |s|);
    if from < to then s[from..to] else []
  }

  /** `[...s.slice(0, k), x, ...s.slice(k)]`: a copy of `s` with `x` placed
      in front of position `k`. */
  function InsertBySlices<T>(s: seq<T>, k: int, x: T): seq<T>
  {
    Slice(s, 0, k) + [x] + Slice(s, k, |s|)
  }

  /** The array that `const c = [...s]; c.splice(start, 0, x);` leaves in `c`.
      The element lands at the resolved index; the elements before it stay
      where they were and the ones from there on move one place right. */
  function SpliceInsert<T>(s: seq<T>, start: int, x: T): (r: seq<T>)
    ensures |r| == |s| + 1
    ensures r[RelativeIndex(start, |s|)] == x
    ensures forall j :: 0 <= j < RelativeIndex(start, |s|) ==> r[j] == s[j]
    ensures forall j :: RelativeIndex(start, |s|) < j < |r| ==> r[j] == s[j - 1]
    ensures multiset(r) == multiset(s) + multiset{x}
  {
    var p := RelativeIndex(start, |s|);
    assert s == s[..p] + s[p..];
    s[..p] + [x] + s[p..]
  }

  /** Inserting by two slices and inserting by `splice` build the same array,
      for every index, in range or not. */
  lemma SlicesMatchSplice<T>(s: seq<T>, k: int, x: T)
    ensures InsertBySlices(s, k, x) == SpliceInsert(s, k, x)
  {
    var p := RelativeIndex(k, |s|);
    assert Slice(s, 0, k) == s[..p];
    assert Slice(s, k, |s|) == s[p..];
  }

  /** `s.filter((_, i) => i !== index)`, visiting the positions from `i` on. */
  function KeepOthers<T>(s: seq<T>, index: int, i: nat): seq<T>
    requires i <= |s|
    decreases |s| - i
  {
    if i == |s| then []
    else (if i != index then [s[i]] else []) + KeepOthers(s, index, i + 1)
  }

  /** `s.filter((_, i) => i !== index)`. */
  function FilterOutIndex<T>(s: seq<T>, index: int): seq<T>
  {
    KeepOthers(s, index, 0)
  }

  lemma {:induction false} KeepOthersSlices<T>(s: seq<T>, index: int, i: nat)
    requires i <= |s|
    ensures KeepOthers(s, index, i) ==
            if i <= index < |s| then s[i..index] + s[index + 1..] else s[i..]
    decreases |s| - i
  {
    if i < |s| {
      KeepOthersSlices(s, index, i + 1);
      if i == index {
        assert s[i..index] == [];
      } else if i < index < |s| {
        assert [s[i]] + (s[i + 1..index] + s[index + 1..]) == s[i..index] + s[index + 1..];
      } else {
        assert [s[i]] + s[i + 1..] == s[i..];
      }
    }
  }

  /** The filter removes exactly the element at an in-range `index`, keeping
      the others in their order, and leaves the array as it was otherwise. */
  lemma FilterOutIndexRemovesOne<T>(s: seq<T>, index: int)
    ensures 0 <= index < |s| ==> FilterOutIndex(s, index) == s[..index] + s[index + 1..]
    ensures 0 <= index < |s| ==> |FilterOutIndex(s, index)| == |s| - 1
    ensures !(0 <= index < |s|) ==> FilterOutIndex(s, index) == s
  {
    KeepOthersSlices(s, index, 0);
    assert s[0..] == s;
    if 0 <= index < |s| {
      assert s[0..index] == s[..index];
    }
  }

  /** Every element the filter keeps was in the array. */
  lemma FilterOutIndexSubset<T>(s: seq<T>, index: int)
    ensures forall x :: x in FilterOutIndex(s, index) ==> x in s
  {
    FilterOutIndexRemovesOne(s, index);
    if 0 <= index < |s| {
      assert s == s[..index] + [s[index]] + s[index + 1..];
    }
  }

  /** Removing the element that was just spliced in gives back the array. */
  lemma FilterUndoesSplice<T>(s: seq<T>, k: int, x: T)
    ensures FilterOutIndex(SpliceInsert(s, k, x), RelativeIndex(k, |s|)) == s
  {
    var r := SpliceInsert(s, k, x);
    var p := RelativeIndex(k, |s|);
    FilterOutIndexRemovesOne(r, p);
    assert r[..p] + r[p + 1..] == s;
  }

  /** `s[i]`: the element, or `undefined` when `i` is not a position of `s`. */
  function At<T>(s: seq<T>, i: int): (r: Option<T>)
    ensures r.Some? <==> 0 <= i < |s|
    ensures 0 <= i < |s| ==> r.value == s[i]
  {
    if 0 <= i < |s| then Some(s[i]) else None
  }
}
