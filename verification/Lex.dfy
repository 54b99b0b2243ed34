/** The lexicographic order Python gives to strings (by code point) and to tuples that
    start with a number, together with `sorted` over a set of such keys. */
module Lex {

  type Key = seq<int>

  predicate Less(a: Key, b: Key) {
    |b| > 0 && (|a| == 0 || a[0] < b[0] || (a[0] == b[0] && Less(a[1..], b[1..])))
  }

  lemma {:induction false} Irreflexive(a: Key)
    ensures !Less(a, a)
  {
    if |a| > 0 {
      Irreflexive(a[1..]);
    }
  }

  lemma {:induction false} Transitive(a: Key, b: Key, c: Key)
    requires Less(a, b) && Less(b, c)
    ensures Less(a, c)
  {
    if |a| > 0 && a[0] == b[0] && b[0] == c[0] {
      Transitive(a[1..], b[1..], c[1..]);
    }
  }

  lemma {:induction false} Total(a: Key, b: Key)
    ensures Less(a, b) || a == b || Less(b, a)
  {
    if |a| > 0 && |b| > 0 && a[0] == b[0] {
      Total(a[1..], b[1..]);
      assert a == [a[0]] + a[1..] && b == [b[0]] + b[1..];
    }
  }

  predicate IsLeast(k: Key, s: set<Key>) {
    k in s && forall j :: j in s && j != k ==> Less(k, j)
  }

  lemma {:induction false} LeastExists(s: set<Key>)
    requires s != {}
    ensures exists k :: IsLeast(k, s)
    decreases |s|
  {
    var x :| x in s;
    if s == {x} {
      assert IsLeast(x, s);
    } else {
      LeastExists(s - {x});
      var m :| IsLeast(m, s - {x});
      Total(x, m);
      if Less(x, m) {
        forall j | j in s && j != x ensures Less(x, j) {
          if j != m {
            Transitive(x, m, j);
          }
        }
        assert IsLeast(x, s);
      } else {
        assert IsLeast(m, s);
      }
    }
  }

  lemma LeastUnique(a: Key, b: Key, s: set<Key>)
    requires IsLeast(a, s) && IsLeast(b, s)
    ensures a == b
  {
    if a != b {
      Transitive(a, b, a);
      Irreflexive(a);
    }
  }

  function Least(s: set<Key>): (k: Key)
    requires s != {}
    ensures IsLeast(k, s)
  {
    LeastExists(s);
    assert forall a, b | IsLeast(a, s) && IsLeast(b, s) :: a == b by {
      forall a, b | IsLeast(a, s) && IsLeast(b, s) ensures a == b {
        LeastUnique(a, b, s);
      }
    }
    var k :| k in s && IsLeast(k, s);
    k
  }

  /** `sorted(s)`. */
  function Sorted(s: set<Key>): (r: seq<Key>)
    ensures |r| == |s| && forall k :: k in r <==> k in s
    decreases |s|
  {
    if s == {} then [] else
      var k := Least(s);
      assert s == {k} + (s - {k});
      [k] + Sorted(s - {k})
  }

  lemma NothingSorted()
    ensures Sorted({}) == []
  {
  }

  lemma SortedStep(s: set<Key>)
    requires s != {}
    ensures Sorted(s) == [Least(s)] + Sorted(s - {Least(s)})
  {
  }

  predicate Ascending(r: seq<Key>) {
    forall i, j :: 0 <= i < j < |r| ==> Less(r[i], r[j])
  }

  lemma {:induction false} SortedAscends(s: set<Key>)
    ensures Ascending(Sorted(s))
    decreases |s|
  {
    hide Less;
    if s != {} {
      SortedAscends(s - {Least(s)});
      LeastFirst(s, Least(s), Sorted(s - {Least(s)}));
    }
  }

  lemma LeastFirst(s: set<Key>, k: Key, rest: seq<Key>)
    requires IsLeast(k, s) && Ascending(rest) && forall j :: j in rest ==> j in s && j != k
    ensures Ascending([k] + rest)
  {
    hide Less;
    forall j | 0 <= j < |rest| ensures Less(k, rest[j]) {
      assert rest[j] in rest;
    }
  }

  /** Of the keys in `sub`, the one that comes first in order is the least. */
  lemma FirstIsLeast(all: set<Key>, sub: set<Key>, i: nat)
    requires sub <= all && i < |Sorted(all)| && Sorted(all)[i] in sub
    requires forall j :: 0 <= j < i ==> Sorted(all)[j] !in sub
    ensures Least(sub) == Sorted(all)[i]
  {
    SortedAscends(all);
    hide Sorted, Less;
    var order := Sorted(all);
    forall k | k in sub && k != order[i] ensures Less(order[i], k) {
      var j :| 0 <= j < |order| && order[j] == k;
    }
    LeastUnique(order[i], Least(sub), sub);
  }

  function Elements(r: seq<Key>): (s: set<Key>) {
    set k | k in r
  }

  /** `sorted` is determined by its two laws: the only ascending listing of a set is `Sorted`. */
  lemma {:induction false} SortedIsOnlyAscending(r: seq<Key>)
    requires Ascending(r)
    ensures Sorted(Elements(r)) == r
  {
    hide Less, Elements, Sorted;
    if |r| > 0 {
      FirstAndRest(r);
      LeastUnique(r[0], Least(Elements(r)), Elements(r));
      SortedStep(Elements(r));
      SortedIsOnlyAscending(r[1..]);
      assert r == [r[0]] + r[1..];
    } else {
      NoElements(r);
    }
  }

  lemma NoElements(r: seq<Key>)
    requires r == []
    ensures Elements(r) == {} && Sorted({}) == r
  {
  }

  /** An ascending listing starts with its least key, and the rest lists the others. */
  lemma FirstAndRest(r: seq<Key>)
    requires Ascending(r) && |r| > 0
    ensures IsLeast(r[0], Elements(r)) && Elements(r[1..]) == Elements(r) - {r[0]}
  {
    hide Less;
    forall k | k in r && k != r[0] ensures Less(r[0], k) && k in r[1..] {
      var i :| 0 <= i < |r| && r[i] == k;
      assert r[1..][i - 1] == k;
    }
    forall k | k in r[1..] ensures k != r[0] && k in r {
      var i :| 0 <= i < |r[1..]| && r[1..][i] == k;
      Irreflexive(k);
      assert r[i + 1] == k && Less(r[0], r[i + 1]);
    }
  }

  lemma ElementsExtend(s: set<Key>, r: seq<Key>, k: Key)
    requires forall j :: j in r <==> j in s
    ensures Elements(r + [k]) == s + {k}
  {
  }

  lemma AscendingExtends(r: seq<Key>, k: Key)
    requires Ascending(r) && forall j :: j in r ==> Less(j, k)
    ensures Ascending(r + [k])
  {
    hide Less;
  }

  /** A key after all the others sorts last. */
  lemma GreatestSortsLast(all: set<Key>, k: Key)
    requires k !in all && forall j :: j in all ==> Less(j, k)
    ensures Sorted(all + {k}) == Sorted(all) + [k]
  {
    hide *;
    var order := Sorted(all);
    SortedAscends(all);
    AscendingExtends(order, k);
    ElementsExtend(all, order, k);
    SortedIsOnlyAscending(order + [k]);
  }

  // ---------------------------------------------------------------- names ordered by a number

  /** The sort key of a named thing: its number, then its name. */
  function Place(number: int, name: Key): (k: Key)
    ensures Name(k) == name
  {
    [number] + name
  }

  function Name(k: Key): (name: Key) {
    if k == [] then [] else k[1..]
  }

  function Places(numbers: map<Key, int>): (ks: set<Key>) {
    set name | name in numbers :: Place(numbers[name], name)
  }

  lemma PlacesNamed(numbers: map<Key, int>)
    ensures forall k :: k in Places(numbers) ==> Name(k) in numbers && Place(numbers[Name(k)], Name(k)) == k
    ensures forall name :: name in numbers ==> Place(numbers[name], name) in Places(numbers)
    ensures Places(numbers) == {} <==> numbers == map[]
  {
    if numbers != map[] {
      var name :| name in numbers;
      assert Place(numbers[name], name) in Places(numbers);
    }
  }
}
