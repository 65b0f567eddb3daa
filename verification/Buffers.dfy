/** Stores into buffers, stated on the whole contents. */
module Buffers {

  /** s with t written over it from position i on. */
  function Splice<T>(s: seq<T>, i: nat, t: seq<T>): (r: seq<T>)
    requires i + |t| <= |s|
    ensures |r| == |s|
    ensures forall j :: 0 <= j < |t| ==> r[i + j] == t[j]
    ensures forall j :: 0 <= j < |s| && !(i <= j < i + |t|) ==> r[j] == s[j]
  {
    s[..i] + t + s[i + |t|..]
  }

  lemma SpliceAppends<T>(s: seq<T>, i: nat, t: seq<T>, u: seq<T>)
    requires i + |t| + |u| <= |s|
    ensures Splice(Splice(s, i, t), i + |t|, u) == Splice(s, i, t + u)
  {}

  lemma SpliceOverwrites<T>(s: seq<T>, i: nat, t: seq<T>, u: seq<T>)
    requires |t| == |u| && i + |t| <= |s|
    ensures Splice(Splice(s, i, t), i, u) == Splice(s, i, u)
  {}

  method StorePair<T>(a: array<T>, i: nat, x: T, y: T)
    requires i + 2 <= a.Length
    modifies a
    ensures a[..] == Splice(old(a[..]), i, [x, y])
  {
    a[i] := x;
    a[i + 1] := y;
  }

  method StoreAll<T>(a: array<T>, i: nat, t: seq<T>)
    requires i + |t| <= a.Length
    modifies a
    ensures a[..] == Splice(old(a[..]), i, t)
  {
    for j := 0 to |t|
      invariant a[..] == Splice(old(a[..]), i, t[..j])
    {
      SpliceAppends(old(a[..]), i, t[..j], [t[j]]);
      assert t[..j] + [t[j]] == t[..j + 1];
      a[i + j] := t[j];
    }
    assert t[..|t|] == t;
  }
}
