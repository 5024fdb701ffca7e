/** Insertion-ordered dicts as Python keeps them: keys in order of first appearance, values overwritten in place. */
module Dicts {
  import opened Orders

  /** The keys of a dict that is filled from `s`, in order of first appearance. */
  function FirstSeen<T, U(==)>(s: seq<T>, key: T -> U): seq<U>
  {
    if s == [] then []
    else
      var n := |s| - 1;
      var order := FirstSeen(s[..n], key);
      if key(s[n]) in order then order else order + [key(s[n])]
  }

  lemma FirstSeenNext<T, U>(s: seq<T>, x: T, key: T -> U)
    ensures FirstSeen(s + [x], key) == if key(x) in FirstSeen(s, key) then FirstSeen(s, key) else FirstSeen(s, key) + [key(x)]
  {
    assert (s + [x])[..|s|] == s;
  }

  lemma {:induction false} FirstSeenFacts<T(!new), U(!new)>(s: seq<T>, key: T -> U)
    ensures Distinct(FirstSeen(s, key))
    ensures forall y :: y in FirstSeen(s, key) <==> exists x :: x in s && key(x) == y
  {
    if s != [] {
      var n := |s| - 1;
      FirstSeenFacts(s[..n], key);
      assert s == s[..n] + [s[n]];
      forall y ensures y in FirstSeen(s, key) <==> exists x :: x in s && key(x) == y {
        if y in FirstSeen(s[..n], key) {
          var x :| x in s[..n] && key(x) == y;
          assert x in s;
        } else if y == key(s[n]) {
          assert s[n] in s;
        }
      }
    }
  }

  /** `d[key(row)] = row`: the row of the key is replaced in its place, a new key goes last. */
  function Put<T, K(==)>(rows: seq<T>, row: T, key: T -> K): (r: seq<T>)
    ensures |rows| <= |r| <= |rows| + 1
  {
    if rows == [] then [row]
    else if key(rows[0]) == key(row) then [row] + rows[1..]
    else [rows[0]] + Put(rows[1..], row, key)
  }

  function PutAll<T, K(==)>(rows: seq<T>, added: seq<T>, key: T -> K): seq<T>
  {
    if added == [] then rows else Put(PutAll(rows, added[..|added| - 1], key), added[|added| - 1], key)
  }

  ghost predicate OnePerKey<T, K>(rows: seq<T>, key: T -> K)
  {
    forall i, j :: 0 <= i < j < |rows| ==> key(rows[i]) != key(rows[j])
  }

  lemma {:induction false} PutMembers<T(!new), K>(rows: seq<T>, row: T, key: T -> K)
    requires OnePerKey(rows, key)
    ensures forall x :: x in Put(rows, row, key) <==> x == row || (x in rows && key(x) != key(row))
    ensures OnePerKey(Put(rows, row, key), key)
  {
    if rows != [] {
      assert rows == [rows[0]] + rows[1..];
      if key(rows[0]) != key(row) {
        PutMembers(rows[1..], row, key);
        forall x | x in Put(rows[1..], row, key) ensures key(x) != key(rows[0]) {
          assert x == row || x in rows[1..];
        }
      }
    }
  }

  lemma {:induction false} PutAllOnePerKey<T(!new), K>(added: seq<T>, key: T -> K)
    ensures OnePerKey(PutAll([], added, key), key)
  {
    if added != [] {
      var n := |added| - 1;
      PutAllOnePerKey(added[..n], key);
      PutMembers(PutAll([], added[..n], key), added[n], key);
    }
  }

  lemma {:induction false} PutAllAppend<T, K>(rows: seq<T>, added: seq<T>, key: T -> K)
    ensures PutAll(PutAll([], rows, key), added, key) == PutAll([], rows + added, key)
  {
    if added == [] {
      assert rows + added == rows;
    } else {
      var k := |added| - 1;
      PutAllAppend(rows, added[..k], key);
      assert (rows + added)[..|rows| + k] == rows + added[..k];
    }
  }

  lemma {:induction false} PutLast<T(!new), K>(rows: seq<T>, row: T, key: T -> K)
    requires forall x :: x in rows ==> key(x) != key(row)
    ensures Put(rows, row, key) == rows + [row]
  {
    if rows != [] {
      assert rows[0] in rows;
      forall x | x in rows[1..] ensures x in rows {}
      PutLast(rows[1..], row, key);
    }
  }

  lemma {:induction false} PutAllDistinct<T(!new), K>(rows: seq<T>, key: T -> K)
    requires OnePerKey(rows, key)
    ensures PutAll([], rows, key) == rows
  {
    if rows != [] {
      var k := |rows| - 1;
      PutAllDistinct(rows[..k], key);
      PutLast(rows[..k], rows[k], key);
    }
  }
}
