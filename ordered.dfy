/**
 * The ordered multisets of sched_test/scheduller.cpp (`EventQueue`, `ReadyQueue`) as sequences kept
 * in key order. `std::multiset::insert` places a new element after every element whose key is not
 * greater than its own, so duplicates are kept and equal keys leave in insertion order.
 */
module Ordered {

  /** A sort key: primary and secondary component, compared lexicographically. */
  type Key = (nat, nat)

  predicate Less(a: Key, b: Key) {
    a.0 < b.0 || (a.0 == b.0 && a.1 < b.1)
  }

  /** No element is followed by one with a smaller key. */
  ghost predicate Sorted<T>(s: seq<T>, key: T -> Key) {
    forall i, j :: 0 <= i < j < |s| ==> !Less(key(s[j]), key(s[i]))
  }

  /** `std::multiset::upper_bound`: the first position whose key is greater than that of `x`. */
  function UpperBound<T>(s: seq<T>, x: T, key: T -> Key): (p: nat)
    ensures p <= |s|
    ensures forall i :: 0 <= i < p ==> !Less(key(x), key(s[i]))
    ensures p < |s| ==> Less(key(x), key(s[p]))
  {
    if s == [] || Less(key(x), key(s[0])) then 0 else 1 + UpperBound(s[1..], x, key)
  }

  /** `std::multiset::insert`: `x` goes after every element whose key is not greater than its own. */
  function Insert<T>(s: seq<T>, x: T, key: T -> Key): (r: seq<T>)
    ensures |r| == |s| + 1
    ensures multiset(r) == multiset(s) + multiset{x}
    ensures Sorted(s, key) ==> Sorted(r, key)
    ensures Sorted(s, key) ==> r[0] == x || (s != [] && r[0] == s[0])
  {
    var p := UpperBound(s, x, key);
    InsertSorted(s, x, key, p);
    InsertCounts(s, x, p);
    s[..p] + [x] + s[p..]
  }

  lemma InsertCounts<T>(s: seq<T>, x: T, p: nat)
    requires p <= |s|
    ensures multiset(s[..p] + [x] + s[p..]) == multiset(s) + multiset{x}
  {
    assert s == s[..p] + s[p..];
  }

  lemma {:induction false} InsertSorted<T>(s: seq<T>, x: T, key: T -> Key, p: nat)
    requires p == UpperBound(s, x, key)
    ensures Sorted(s, key) ==> Sorted(s[..p] + [x] + s[p..], key)
  {
    if Sorted(s, key) {
      var r := s[..p] + [x] + s[p..];
      forall i, j | 0 <= i < j < |r| ensures !Less(key(r[j]), key(r[i])) {
        if j < p || i > p {
        } else if i == p {
          assert r[j] == s[j - 1];
          assert p < |s| && Less(key(x), key(s[p]));
        } else {
          assert r[i] == s[i];
        }
      }
    }
  }

  /** Insertion is stable: the new element lands after every element whose key is not greater
      than its own and before every element whose key is, and the others keep their order. */
  lemma {:induction false} InsertStable<T>(s: seq<T>, x: T, key: T -> Key)
    requires Sorted(s, key)
    ensures var r := Insert(s, x, key); var p := UpperBound(s, x, key);
      && r[p] == x && r[..p] == s[..p] && r[p + 1..] == s[p..]
      && (forall i :: 0 <= i < p ==> !Less(key(x), key(s[i])))
      && (forall i :: p <= i < |s| ==> Less(key(x), key(s[i])))
  {
    var p := UpperBound(s, x, key);
    var r := s[..p] + [x] + s[p..];
    assert r[..p] == s[..p] && r[p + 1..] == s[p..];
    forall i | p <= i < |s| ensures Less(key(x), key(s[i])) {
      if i > p {
        assert !Less(key(s[i]), key(s[p]));
      }
    }
  }

  /** Inserting an element no smaller than everything present appends it. */
  lemma InsertLast<T>(s: seq<T>, x: T, key: T -> Key)
    requires forall y :: y in s ==> !Less(key(x), key(y))
    ensures Insert(s, x, key) == s + [x]
  {
  }

  /** Removing one element keeps the order. */
  lemma RemoveSorted<T>(s: seq<T>, k: nat, key: T -> Key)
    requires k < |s| && Sorted(s, key)
    ensures Sorted(s[..k] + s[k + 1..], key)
  {
    var r := s[..k] + s[k + 1..];
    forall i, j | 0 <= i < j < |r| ensures !Less(key(r[j]), key(r[i])) {
      var i' := if i < k then i else i + 1;
      var j' := if j < k then j else j + 1;
      assert r[i] == s[i'] && r[j] == s[j'];
    }
  }
}
