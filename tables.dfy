/** Generic facts about tables keyed by generated ids: the ascending order in
    which listings return rows, and filtering a listing. */
module Tables {

  /** Every key of `m` lies below `bound`, the next id the table hands out. */
  predicate KeysBelow<V>(m: map<nat, V>, bound: nat) {
    forall k :: k in m ==> k < bound
  }

  /** A sequence whose keys strictly increase; in particular no key repeats. */
  predicate StrictlyAscending<T>(s: seq<T>, key: T -> nat) {
    forall i, j :: 0 <= i < j < |s| ==> key(s[i]) < key(s[j])
  }

  /** `m` is the smallest element of `s`. */
  predicate IsLeast(m: nat, s: set<nat>) {
    m in s && forall k :: k in s ==> m <= k
  }

  lemma {:induction false} LeastExists(s: set<nat>)
    requires s != {}
    ensures exists m :: IsLeast(m, s)
  {
    var x :| x in s;
    var rest := s - {x};
    if rest == {} {
      assert s == {x};
      assert IsLeast(x, s);
    } else {
      LeastExists(rest);
      var m :| IsLeast(m, rest);
      var least := if x < m then x else m;
      assert IsLeast(least, s) by {
        forall k | k in s ensures least <= k {
          if k != x {
            assert k in rest;
          }
        }
      }
    }
  }

  /** The smallest element of a non-empty set of ids. */
  function Least(s: set<nat>): (m: nat)
    requires s != {}
    ensures m in s && forall k :: k in s ==> m <= k
  {
    LeastExists(s);
    var m :| IsLeast(m, s); m
  }

  /** Putting the least key in front of an ascending listing of the other
      keys lists all of them in ascending order. */
  lemma LeastInFront(keys: set<nat>, m: nat, rest: seq<nat>)
    requires m in keys && forall k :: k in keys ==> m <= k
    requires |rest| == |keys - {m}|
    requires forall k :: k in rest <==> k in keys - {m}
    requires forall i, j :: 0 <= i < j < |rest| ==> rest[i] < rest[j]
    ensures |[m] + rest| == |keys|
    ensures forall k :: k in [m] + rest <==> k in keys
    ensures forall i, j :: 0 <= i < j < |[m] + rest| ==> ([m] + rest)[i] < ([m] + rest)[j]
  {
    var r := [m] + rest;
    forall j | 0 <= j < |rest| ensures m < rest[j] {
      assert rest[j] in keys - {m};
    }
    forall i, j | 0 <= i < j < |r| ensures r[i] < r[j] {
      assert r[j] == rest[j - 1];
      if i > 0 {
        assert r[i] == rest[i - 1];
      }
    }
  }

  /** The keys of a table in ascending order, each exactly once. */
  function Ascending(keys: set<nat>): (r: seq<nat>)
    ensures |r| == |keys|
    ensures forall k :: k in r <==> k in keys
    ensures forall i, j :: 0 <= i < j < |r| ==> r[i] < r[j]
    decreases keys
  {
    if keys == {} then []
    else
      var m := Least(keys);
      var rest := Ascending(keys - {m});
      LeastInFront(keys, m, rest);
      [m] + rest
  }

  /** A listing of table `m`: `f` applied to each row, in ascending key order. */
  function Listing<V, D>(m: map<nat, V>, f: V -> D): seq<D> {
    var ids := Ascending(m.Keys);
    seq(|ids|, i requires 0 <= i < |ids| => f(m[ids[i]]))
  }

  /** `key` recovers from `f` of each row the row's own key. */
  predicate KeyedBy<V, D>(m: map<nat, V>, f: V -> D, key: D -> nat) {
    forall k :: k in m ==> key(f(m[k])) == k
  }

  lemma ListingSize<V, D>(m: map<nat, V>, f: V -> D)
    ensures |Listing(m, f)| == |m|
  {
  }

  /** Each listed element is `f` of the row its key names. */
  lemma ListingAt<V, D>(m: map<nat, V>, f: V -> D, key: D -> nat)
    requires KeyedBy(m, f, key)
    ensures var r := Listing(m, f);
      forall i :: 0 <= i < |r| ==> key(r[i]) in m && r[i] == f(m[key(r[i])])
  {
    var ids := Ascending(m.Keys);
    var r := Listing(m, f);
    assert forall i :: 0 <= i < |r| ==> r[i] == f(m[ids[i]]) && key(r[i]) == ids[i];
  }

  /** Every row's key is the key of some listed element. */
  lemma ListingCovers<V, D>(m: map<nat, V>, f: V -> D, key: D -> nat)
    requires KeyedBy(m, f, key)
    ensures var r := Listing(m, f);
      forall k :: k in m ==> exists i :: 0 <= i < |r| && key(r[i]) == k
  {
    var ids := Ascending(m.Keys);
    var r := Listing(m, f);
    forall k | k in m ensures exists i :: 0 <= i < |r| && key(r[i]) == k {
      assert k in ids;
      var i :| 0 <= i < |ids| && ids[i] == k;
      assert key(r[i]) == k;
    }
  }

  /** The listing is in strictly ascending key order. */
  lemma ListingAscending<V, D>(m: map<nat, V>, f: V -> D, key: D -> nat)
    requires KeyedBy(m, f, key)
    ensures StrictlyAscending(Listing(m, f), key)
  {
    var ids := Ascending(m.Keys);
    var r := Listing(m, f);
    assert forall i :: 0 <= i < |r| ==> key(r[i]) == ids[i];
  }

  /** The elements of `s` that `keep` accepts, in their original order. */
  function Filter<T>(s: seq<T>, keep: T -> bool): (r: seq<T>)
    ensures forall i :: 0 <= i < |r| ==> r[i] in s && keep(r[i])
    ensures forall i :: 0 <= i < |s| && keep(s[i]) ==> s[i] in r
    ensures |r| <= |s|
  {
    if s == [] then []
    else if keep(s[0]) then [s[0]] + Filter(s[1..], keep)
    else Filter(s[1..], keep)
  }

  /** Filtering keeps a strictly ascending sequence strictly ascending. */
  lemma {:induction false} FilterAscending<T>(s: seq<T>, keep: T -> bool, key: T -> nat)
    requires StrictlyAscending(s, key)
    ensures StrictlyAscending(Filter(s, keep), key)
  {
    if s != [] {
      assert StrictlyAscending(s[1..], key);
      FilterAscending(s[1..], keep, key);
      var rest := Filter(s[1..], keep);
      forall j | 0 <= j < |rest| ensures key(s[0]) < key(rest[j]) {
        assert rest[j] in s[1..];
      }
    }
  }

  /** Two non-empty strictly ascending sequences with the same elements
      start with the same element. */
  lemma SameHead<T>(a: seq<T>, b: seq<T>, key: T -> nat)
    requires StrictlyAscending(a, key) && StrictlyAscending(b, key)
    requires a != [] && b != []
    requires forall x :: x in a <==> x in b
    ensures a[0] == b[0]
  {
    assert a[0] in b;
    assert b[0] in a;
    var i :| 0 <= i < |a| && a[i] == b[0];
    var j :| 0 <= j < |b| && b[j] == a[0];
    assert forall k :: 0 <= k < |a| ==> key(a[0]) <= key(a[k]);
    assert forall k :: 0 <= k < |b| ==> key(b[0]) <= key(b[k]);
    assert key(a[0]) == key(b[0]);
  }

  /** Dropping the shared first element leaves the same elements. */
  lemma SameTail<T>(a: seq<T>, b: seq<T>, key: T -> nat)
    requires StrictlyAscending(a, key) && StrictlyAscending(b, key)
    requires a != [] && b != [] && a[0] == b[0]
    requires forall x :: x in a <==> x in b
    ensures forall x :: x in a[1..] <==> x in b[1..]
  {
    forall x ensures x in a[1..] <==> x in b[1..] {
      if x in a[1..] {
        var i :| 1 <= i < |a| && a[i] == x;
        assert key(a[0]) < key(x);
        assert x in b;
      }
      if x in b[1..] {
        var j :| 1 <= j < |b| && b[j] == x;
        assert key(b[0]) < key(x);
        assert x in a;
      }
    }
  }

  /** Two strictly ascending sequences with the same elements are equal: the
      order of a listing is fixed by what it lists. */
  lemma {:induction false} AscendingUnique<T>(a: seq<T>, b: seq<T>, key: T -> nat)
    requires StrictlyAscending(a, key) && StrictlyAscending(b, key)
    requires forall x :: x in a <==> x in b
    ensures a == b
  {
    if a == [] {
      assert forall i :: 0 <= i < |b| ==> b[i] in a;
    } else {
      assert b != [] by { assert a[0] in b; }
      SameHead(a, b, key);
      SameTail(a, b, key);
      assert StrictlyAscending(a[1..], key);
      assert StrictlyAscending(b[1..], key);
      AscendingUnique(a[1..], b[1..], key);
      assert a == [a[0]] + a[1..];
      assert b == [b[0]] + b[1..];
    }
  }
}
