/** Types and sequence functions shared by the cache, ring and cluster modules. */
module Basics {
  newtype byte = x: int | 0 <= x < 0x100
  newtype uint16 = x: int | 0 <= x < 0x1_0000

  // A Go string is a sequence of bytes.
  type Key = seq<byte>

  // The interface Value: a nil interface or a ByteView.
  datatype Value = Nil | Bytes(data: seq<byte>)

  datatype Option<+T> = None | Some(value: T)

  /** The sequence s without its element at i. */
  function Without<T>(s: seq<T>, i: nat): (r: seq<T>)
    requires i < |s|
    ensures |r| == |s| - 1
  {
    s[..i] + s[i + 1..]
  }

  /** The sequence s with its element at i moved to the front. */
  function ToFront<T>(s: seq<T>, i: nat): (r: seq<T>)
    requires i < |s|
    ensures |r| == |s|
  {
    [s[i]] + Without(s, i)
  }

  lemma FrontAt<T>(s: seq<T>, i: nat)
    requires i < |s|
    ensures ToFront(s, i)[0] == s[i]
    ensures forall j | 0 < j <= i :: ToFront(s, i)[j] == s[j - 1]
    ensures forall j | i < j < |s| :: ToFront(s, i)[j] == s[j]
  {
  }

  /** The sequence s with its element at i moved to the back. */
  function ToBack<T>(s: seq<T>, i: nat): (r: seq<T>)
    requires i < |s|
    ensures |r| == |s|
  {
    Without(s, i) + [s[i]]
  }

  lemma BackAt<T>(s: seq<T>, i: nat)
    requires i < |s|
    ensures ToBack(s, i)[|s| - 1] == s[i]
    ensures forall j | 0 <= j < i :: ToBack(s, i)[j] == s[j]
    ensures forall j | i <= j < |s| - 1 :: ToBack(s, i)[j] == s[j + 1]
  {
  }

  function Reverse<T>(s: seq<T>): (r: seq<T>)
    ensures |r| == |s|
    ensures forall j | 0 <= j < |s| :: r[j] == s[|s| - 1 - j]
  {
    if s == [] then [] else Reverse(s[1..]) + [s[0]]
  }

  /** No element occurs twice. */
  predicate Unrepeated<T(==)>(s: seq<T>) {
    forall i, j | 0 <= i < j < |s| :: s[i] != s[j]
  }

  lemma NothingRepeated<T>()
    ensures Unrepeated<T>([])
  {
  }

  lemma UnrepeatedSnoc<T>(s: seq<T>, x: T)
    ensures Unrepeated(s + [x]) <==> Unrepeated(s) && x !in s
  {
    var r := s + [x];
    if Unrepeated(r) {
      assert forall i | 0 <= i < |s| :: s[i] == r[i];
      assert r[|s|] == x;
    }
  }

  lemma RepeatedTwice<T>(s: seq<T>) returns (x: T)
    requires !Unrepeated(s)
    ensures multiset(s)[x] >= 2
  {
    var i, j :| 0 <= i < j < |s| && s[i] == s[j];
    x := s[i];
    assert s == s[..j] + s[j..];
    assert multiset(s) == multiset(s[..j]) + multiset(s[j..]);
    assert s[..j][i] in multiset(s[..j]) && s[j..][0] in multiset(s[j..]);
  }

  /** Moving to the front of the reversed sequence is moving to the back. */
  lemma ReverseToFront<T>(s: seq<T>, i: nat)
    requires i < |s|
    ensures Reverse(ToFront(Reverse(s), |s| - 1 - i)) == ToBack(s, i)
  {
    var r := ToFront(Reverse(s), |s| - 1 - i);
    FrontAt(Reverse(s), |s| - 1 - i);
    BackAt(s, i);
    assert forall j | 0 <= j < |s| :: Reverse(r)[j] == ToBack(s, i)[j];
  }

  lemma FrontMembers<T>(s: seq<T>, i: nat)
    requires i < |s|
    ensures forall x :: x in ToFront(s, i) <==> x in s
  {
    var r := ToFront(s, i);
    FrontAt(s, i);
    assert forall j | 0 <= j < |s| :: s[j] == r[if j == i then 0 else if j < i then j + 1 else j];
  }

  lemma BackMembers<T>(s: seq<T>, i: nat)
    requires i < |s|
    ensures forall x :: x in ToBack(s, i) <==> x in s
  {
    var r := ToBack(s, i);
    BackAt(s, i);
    assert forall j | 0 <= j < |s| :: s[j] == r[if j == i then |s| - 1 else if j < i then j else j - 1];
  }
}
