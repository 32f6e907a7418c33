/** The list algebra behind the favorite toggle: `indexOf`, the one-element
    `splice`, and the toggle they implement, with its properties. */
module FavoriteList {

  /** No element appears twice. The schema does not demand it of `favoritedBy`; the routes keep it. */
  predicate NoDup<T(==)>(s: seq<T>) {
    forall i, j :: 0 <= i < j < |s| ==> s[i] != s[j]
  }

  /** `Array.prototype.indexOf`: the first position of `x`, or -1. */
  function IndexOf<T(==)>(s: seq<T>, x: T): (i: int)
    ensures -1 <= i < |s|
    ensures i == -1 <==> x !in s
    ensures 0 <= i ==> s[i] == x && x !in s[..i]
  {
    if s == [] then -1
    else if s[0] == x then 0
    else
      var j := IndexOf(s[1..], x);
      assert s[1..][..if j < 0 then 0 else j] == s[1..1 + if j < 0 then 0 else j];
      if j == -1 then -1 else j + 1
  }

  /** Reference definition: drop the first occurrence of `x`, if any. */
  function RemoveFirst<T(==)>(s: seq<T>, x: T): (r: seq<T>)
    ensures multiset(r) == multiset(s) - multiset{x}
    ensures |r| == if x in s then |s| - 1 else |s|
  {
    if s == [] then []
    else if s[0] == x then
      assert s == [s[0]] + s[1..];
      s[1..]
    else
      assert s == [s[0]] + s[1..];
      [s[0]] + RemoveFirst(s[1..], x)
  }

  /** What the favorite route does to `favoritedBy` for caller `u`:
      remove u's first occurrence if present, otherwise append u. */
  function Toggle<T(==)>(s: seq<T>, u: T): seq<T> {
    if u in s then RemoveFirst(s, u) else s + [u]
  }

  /** `splice(indexOf(x), 1)` removes exactly the first occurrence. */
  lemma {:induction false} SpliceIsRemoveFirst<T>(s: seq<T>, x: T)
    requires x in s
    ensures 0 <= IndexOf(s, x) < |s|
    ensures s[..IndexOf(s, x)] + s[IndexOf(s, x) + 1..] == RemoveFirst(s, x)
  {
    var i := IndexOf(s, x);
    if s[0] == x {
      assert i == 0 && RemoveFirst(s, x) == s[1..];
      assert s[..i] + s[i + 1..] == s[1..];
    } else {
      var t := s[1..];
      SpliceIsRemoveFirst(t, x);
      var j := IndexOf(t, x);
      var rest := RemoveFirst(t, x);
      assert i == j + 1;
      assert RemoveFirst(s, x) == [s[0]] + rest;
      SpliceOfTail(s, j);
      calc {
        s[..i] + s[i + 1..];
        s[..j + 1] + s[j + 2..];
        [s[0]] + (t[..j] + t[j + 1..]);
        [s[0]] + rest;
      }
    }
  }

  /** Removing position j + 1 of s is removing position j of its tail. */
  lemma SpliceOfTail<T>(s: seq<T>, j: int)
    requires 0 <= j && j + 1 < |s|
    ensures s[..j + 1] + s[j + 2..] == [s[0]] + (s[1..][..j] + s[1..][j + 1..])
  {
    assert s[..j + 1] == [s[0]] + s[1..][..j];
    assert s[j + 2..] == s[1..][j + 1..];
  }

  /** The toggle's effect as a bag, and its length. */
  lemma ToggleCounts<T>(s: seq<T>, u: T)
    ensures u in s ==> multiset(Toggle(s, u)) == multiset(s) - multiset{u} && |Toggle(s, u)| == |s| - 1
    ensures u !in s ==> multiset(Toggle(s, u)) == multiset(s) + multiset{u} && |Toggle(s, u)| == |s| + 1
  {
  }

  /** Removing one position keeps the remaining elements distinct. */
  lemma SpliceKeepsNoDup<T>(s: seq<T>, i: int)
    requires NoDup(s) && 0 <= i < |s|
    ensures NoDup(s[..i] + s[i + 1..])
    ensures s[i] !in s[..i] + s[i + 1..]
  {
    var t := s[..i] + s[i + 1..];
    forall a, b | 0 <= a < b < |t|
      ensures t[a] != t[b]
    {
      var a' := if a < i then a else a + 1;
      var b' := if b < i then b else b + 1;
      assert t[a] == s[a'] && t[b] == s[b'];
    }
    forall a | 0 <= a < |t|
      ensures t[a] != s[i]
    {
      var a' := if a < i then a else a + 1;
      assert t[a] == s[a'];
    }
  }

  /** A toggle never introduces a duplicate, and after it `u` is a member
      exactly when it was not one before. */
  lemma ToggleKeepsNoDup<T>(s: seq<T>, u: T)
    requires NoDup(s)
    ensures NoDup(Toggle(s, u))
    ensures u in Toggle(s, u) <==> u !in s
  {
    if u in s {
      SpliceIsRemoveFirst(s, u);
      SpliceKeepsNoDup(s, IndexOf(s, u));
    } else {
      assert (s + [u])[|s|] == u;
    }
  }

  /** Appending an absent element and removing it again gives back the list. */
  lemma {:induction false} RemoveFirstAfterAppend<T>(s: seq<T>, u: T)
    requires u !in s
    ensures RemoveFirst(s + [u], u) == s
  {
    if s != [] {
      assert (s + [u])[1..] == s[1..] + [u];
      RemoveFirstAfterAppend(s[1..], u);
    }
  }

  /** Toggling twice by the same user restores the membership and the
      length; when the user was absent the list itself comes back. */
  lemma ToggleTwice<T>(s: seq<T>, u: T)
    requires NoDup(s)
    ensures multiset(Toggle(Toggle(s, u), u)) == multiset(s)
    ensures |Toggle(Toggle(s, u), u)| == |s|
    ensures forall x :: x in Toggle(Toggle(s, u), u) <==> x in s
    ensures u !in s ==> Toggle(Toggle(s, u), u) == s
  {
    if u in s {
      ToggleKeepsNoDup(s, u);
      var t := Toggle(s, u);
      assert Toggle(t, u) == t + [u];
      assert multiset(t + [u]) == multiset(s);
    } else {
      assert u in s + [u];
      RemoveFirstAfterAppend(s, u);
    }
    var r := Toggle(Toggle(s, u), u);
    forall x ensures x in r <==> x in s {
      assert x in r <==> x in multiset(r);
      assert x in s <==> x in multiset(s);
    }
  }

  /** Without distinctness the restoring property fails: two copies of the
      caller lose both after two toggles. */
  lemma ToggleTwiceNeedsNoDup<T>(u: T)
    ensures Toggle(Toggle([u, u], u), u) == []
  {
    assert Toggle([u, u], u) == [u];
    assert Toggle([u], u) == [];
  }
}
