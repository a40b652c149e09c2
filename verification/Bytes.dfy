/** Bytes, C strings and the small sequence vocabulary shared by the models. */
module Bytes {
  datatype Option<+T> = None | Some(value: T)

  newtype Byte = b: int | 0 <= b < 256

  /** What `std::string(const char *)` keeps of a byte array: everything before the first NUL. */
  function CutAtNul(bs: seq<Byte>): (r: seq<Byte>)
    ensures r <= bs
    ensures 0 !in r
    ensures |r| < |bs| ==> bs[|r|] == 0
    ensures r == bs <==> 0 !in bs
  {
    if bs == [] || bs[0] == 0 then [] else [bs[0]] + CutAtNul(bs[1..])
  }

  predicate NulFree(bs: seq<Byte>) {
    0 !in bs
  }

  function Zeros(n: nat): (r: seq<Byte>)
    ensures |r| == n
    ensures forall k :: 0 <= k < n ==> r[k] == 0
  {
    seq(n, _ => 0)
  }
}

/** Lists without repetition, and the two C++ standard-library searches the sources use. */
module Lists {
  ghost predicate NoDup<T>(s: seq<T>) {
    forall i, j :: 0 <= i < j < |s| ==> s[i] != s[j]
  }

  ghost function Elems<T>(s: seq<T>): set<T> {
    set x | x in s
  }

  /** `std::find`: the first index holding x, or the length of the sequence. */
  function IndexOf<T(==)>(s: seq<T>, x: T): (k: nat)
    ensures k <= |s|
    ensures k < |s| ==> s[k] == x
    ensures x !in s[..k]
    ensures k < |s| <==> x in s
  {
    if s == [] || s[0] == x then 0 else 1 + IndexOf(s[1..], x)
  }

  /** `vector::erase` of the element at index k. */
  function EraseAt<T>(s: seq<T>, k: nat): (r: seq<T>)
    requires k < |s|
    ensures |r| == |s| - 1
    ensures multiset(s) == multiset(r) + multiset{s[k]}
  {
    assert s == s[..k] + [s[k]] + s[k + 1..];
    s[..k] + s[k + 1..]
  }

  function Flatten<T>(lists: seq<seq<T>>): seq<T> {
    if lists == [] then [] else lists[0] + Flatten(lists[1..])
  }

  lemma {:induction false} FlattenAppend<T>(lists: seq<seq<T>>, last: seq<T>)
    ensures Flatten(lists + [last]) == Flatten(lists) + last
  {
    if lists == [] {
      assert lists + [last] == [last];
    } else {
      assert (lists + [last])[1..] == lists[1..] + [last];
      FlattenAppend(lists[1..], last);
    }
  }

  lemma MultisetSplit<T>(s: seq<T>)
    requires s != []
    ensures multiset(s) == multiset{s[0]} + multiset(s[1..])
  {
    assert s == [s[0]] + s[1..];
  }

  lemma ErasePreservesNoDup<T>(s: seq<T>, k: nat)
    requires NoDup(s) && k < |s|
    ensures NoDup(EraseAt(s, k)) && Elems(EraseAt(s, k)) == Elems(s) - {s[k]}
  {
    var r := EraseAt(s, k);
    forall x | x in s && x != s[k]
      ensures x in r
    {
      var j :| 0 <= j < |s| && s[j] == x;
      assert r[if j < k then j else j - 1] == x;
    }
  }
}
