/** The descriptor bookkeeping of FD_Set (src/Socket.cpp): beside the OS
    fd_set bitmask it keeps `_sock`, a std::set<int> of every descriptor
    added, which `size` counts and `getMax` reads from the top (select needs
    the largest descriptor plus one). A std::set is an ordered set without
    duplicates, so it is modelled as a strictly ascending sequence. */
module FdSet {

  predicate Ascending(s: seq<int>)
  {
    forall i, j :: 0 <= i < j < |s| ==> s[i] < s[j]
  }

  function Elems(s: seq<int>): set<int>
  {
    set x | x in s
  }

  /** std::set::insert: the element goes in its place; an element already
      present leaves the set as it was. */
  function Insert(s: seq<int>, x: int): seq<int>
  {
    if s == [] then [x]
    else if x < s[0] then [x] + s
    else if x == s[0] then s
    else [s[0]] + Insert(s[1..], x)
  }

  /** std::set::erase by key: only that element leaves. */
  function Erase(s: seq<int>, x: int): seq<int>
  {
    if s == [] then []
    else if x == s[0] then s[1..]
    else [s[0]] + Erase(s[1..], x)
  }

  /** Prepending an element below every element keeps a sequence ascending. */
  lemma AscendingCons(h: int, t: seq<int>)
    requires Ascending(t) && forall k :: 0 <= k < |t| ==> h < t[k]
    ensures Ascending([h] + t)
  {
    var r := [h] + t;
    forall i, j | 0 <= i < j < |r|
      ensures r[i] < r[j]
    {
      if i > 0 {
        assert r[i] == t[i - 1] && r[j] == t[j - 1];
      }
    }
  }

  /** Insert adds exactly x to the elements. */
  lemma {:induction false} InsertMembers(s: seq<int>, x: int)
    ensures forall y :: y in Insert(s, x) <==> y in s || y == x
  {
    if s != [] && x > s[0] {
      InsertMembers(s[1..], x);
      assert s == [s[0]] + s[1..];
    }
  }

  /** Insert grows the sequence by one exactly when x was absent. */
  lemma {:induction false} InsertLength(s: seq<int>, x: int)
    requires Ascending(s)
    ensures x in s ==> Insert(s, x) == s
    ensures x !in s ==> |Insert(s, x)| == |s| + 1
  {
    if s != [] && x > s[0] {
      InsertLength(s[1..], x);
      assert s == [s[0]] + s[1..];
    }
  }

  /** Insert keeps the sequence ascending. */
  lemma {:induction false} InsertAscending(s: seq<int>, x: int)
    requires Ascending(s)
    ensures Ascending(Insert(s, x))
  {
    if s != [] && x > s[0] {
      var t := Insert(s[1..], x);
      InsertAscending(s[1..], x);
      InsertMembers(s[1..], x);
      assert forall k :: 0 <= k < |t| ==> t[k] in t;
      assert forall k :: 0 <= k < |t| ==> s[0] < t[k];
      AscendingCons(s[0], t);
    }
  }

  /** Erase removes exactly x from the elements. */
  lemma {:induction false} EraseMembers(s: seq<int>, x: int)
    requires Ascending(s)
    ensures forall y :: y in Erase(s, x) <==> y in s && y != x
  {
    if s != [] {
      assert s == [s[0]] + s[1..];
      if x == s[0] {
        assert forall k :: 1 <= k < |s| ==> s[k] != x;
      } else {
        EraseMembers(s[1..], x);
      }
    }
  }

  /** Erase shrinks the sequence by one exactly when x was present. */
  lemma {:induction false} EraseLength(s: seq<int>, x: int)
    requires Ascending(s)
    ensures x !in s ==> Erase(s, x) == s
    ensures x in s ==> |Erase(s, x)| == |s| - 1
  {
    if s != [] {
      assert s == [s[0]] + s[1..];
      if x != s[0] {
        EraseLength(s[1..], x);
      }
    }
  }

  /** Erase keeps the sequence ascending. */
  lemma {:induction false} EraseAscending(s: seq<int>, x: int)
    requires Ascending(s)
    ensures Ascending(Erase(s, x))
  {
    if s != [] && x != s[0] {
      var t := Erase(s[1..], x);
      EraseAscending(s[1..], x);
      EraseMembers(s[1..], x);
      assert forall k :: 0 <= k < |t| ==> t[k] in t;
      assert forall k :: 0 <= k < |t| ==> s[0] < t[k];
      AscendingCons(s[0], t);
    }
  }

  /** Without duplicates, the length of the sequence is the number of
      distinct descriptors: what std::set::size reports. */
  lemma {:induction false} AscendingSize(s: seq<int>)
    requires Ascending(s)
    ensures |Elems(s)| == |s|
  {
    if s != [] {
      AscendingSize(s[1..]);
      assert s[0] !in s[1..];
      assert Elems(s) == {s[0]} + Elems(s[1..]);
    }
  }

  /** Adding a descriptor twice has the effect of adding it once. */
  lemma InsertIdempotent(s: seq<int>, x: int)
    requires Ascending(s)
    ensures Insert(Insert(s, x), x) == Insert(s, x)
  {
    InsertMembers(s, x);
    InsertAscending(s, x);
    InsertLength(Insert(s, x), x);
  }

  /** The last element of an ascending sequence is its maximum. */
  lemma LastIsMax(s: seq<int>)
    requires Ascending(s) && s != []
    ensures s[|s| - 1] in Elems(s)
    ensures forall x :: x in Elems(s) ==> x <= s[|s| - 1]
  {
  }

  class FdSet {
    /** `_sock`: the tracked descriptors, in ascending order. */
    var sock: seq<int>

    ghost predicate Valid()
      reads this
    {
      Ascending(sock)
    }

    /** The set of descriptors currently tracked. */
    function Tracked(): set<int>
      reads this
    {
      Elems(sock)
    }

    constructor ()
      ensures Valid() && sock == [] && Tracked() == {}
    {
      sock := [];
    }

    /** set(sock): `_sock.insert(sock.port())`. */
    method Set(fd: int)
      requires Valid()
      modifies this
      ensures Valid()
      ensures sock == Insert(old(sock), fd)
      ensures Tracked() == old(Tracked()) + {fd}
      ensures fd in old(Tracked()) ==> sock == old(sock)
    {
      InsertMembers(sock, fd);
      InsertAscending(sock, fd);
      InsertLength(sock, fd);
      sock := Insert(sock, fd);
      assert Elems(sock) == Elems(old(sock)) + {fd};
    }

    /** clr(sock): `_sock.erase(sock.port())`. */
    method Clr(fd: int)
      requires Valid()
      modifies this
      ensures Valid()
      ensures sock == Erase(old(sock), fd)
      ensures Tracked() == old(Tracked()) - {fd}
    {
      EraseMembers(sock, fd);
      EraseAscending(sock, fd);
      ghost var before := sock;
      sock := Erase(sock, fd);
      forall y
        ensures y in Elems(sock) <==> y in Elems(before) - {fd}
      {
        assert y in Elems(sock) <==> y in sock;
      }
    }

    /** zero(): `_sock.clear()`. */
    method Zero()
      modifies this
      ensures Valid() && sock == [] && Tracked() == {}
    {
      sock := [];
    }

    /** size(): the number of distinct descriptors tracked. */
    method Size() returns (n: nat)
      requires Valid()
      ensures n == |Tracked()|
    {
      AscendingSize(sock);
      n := |sock|;
    }

    /** getMax(): `*_sock.rbegin()`, the largest tracked descriptor; on an
        empty set the dereference is undefined, hence the precondition. */
    method GetMax() returns (m: int)
      requires Valid() && sock != []
      ensures m in Tracked()
      ensures forall x :: x in Tracked() ==> x <= m
    {
      LastIsMax(sock);
      m := sock[|sock| - 1];
    }
  }
}
