/**
 * The array idioms the three file-backed services share, over records
 * identified by an integer key: `findIndex`, `find`, `Math.max(...ids) + 1`
 * and `splice(index, 1)`.
 */
module IdList {
  import opened Wrappers

  /** No two records share a key. */
  ghost predicate UniqueKeys<T>(s: seq<T>, key: T -> int) {
    forall i, j :: 0 <= i < j < |s| ==> key(s[i]) != key(s[j])
  }

  /** `s.findIndex(x => key(x) === id)`, with -1 as `None`. */
  function IndexOf<T>(s: seq<T>, key: T -> int, id: int): (r: Option<nat>)
    ensures r.Some? ==> r.value < |s| && key(s[r.value]) == id
    ensures r.Some? ==> forall j :: 0 <= j < r.value ==> key(s[j]) != id
    ensures r.None? <==> forall j :: 0 <= j < |s| ==> key(s[j]) != id
  {
    if s == [] then None
    else if key(s[0]) == id then Some(0)
    else
      match IndexOf(s[1..], key, id)
      case None => None
      case Some(i) => Some(i + 1)
  }

  /** `s.find(x => key(x) === id)`: the first record with that key. */
  function Find<T>(s: seq<T>, key: T -> int, id: int): (r: Option<T>)
    ensures r.Some? ==> r.value in s && key(r.value) == id
    ensures r.None? <==> forall i :: 0 <= i < |s| ==> key(s[i]) != id
  {
    match IndexOf(s, key, id)
    case None => None
    case Some(i) => Some(s[i])
  }

  /** `Math.max(...s.map(key))` on a non-empty list. */
  function MaxKey<T>(s: seq<T>, key: T -> int): (m: int)
    requires |s| > 0
    ensures forall i :: 0 <= i < |s| ==> key(s[i]) <= m
    ensures exists i :: 0 <= i < |s| && key(s[i]) == m
  {
    if |s| == 1 then key(s[0])
    else
      var rest := MaxKey(s[1..], key);
      assert forall i :: 1 <= i < |s| ==> key(s[i]) == key(s[1..][i - 1]);
      if key(s[0]) >= rest then key(s[0]) else rest
  }

  /** The id a service gives a new record: the largest id plus one, or 1 for an empty list. */
  function NextId<T>(s: seq<T>, key: T -> int): (r: int)
    ensures |s| == 0 ==> r == 1
    ensures forall i :: 0 <= i < |s| ==> key(s[i]) < r
    ensures |s| > 0 ==> exists i :: 0 <= i < |s| && key(s[i]) == r - 1
  {
    if |s| == 0 then 1 else MaxKey(s, key) + 1
  }

  /** `s.splice(i, 1)`. */
  function RemoveAt<T>(s: seq<T>, i: nat): (r: seq<T>)
    requires i < |s|
    ensures |r| == |s| - 1
    ensures forall j :: 0 <= j < i ==> r[j] == s[j]
    ensures forall j :: i <= j < |r| ==> r[j] == s[j + 1]
  {
    s[..i] + s[i + 1..]
  }

  /** `s[i] = x`. */
  function ReplaceAt<T>(s: seq<T>, i: nat, x: T): (r: seq<T>)
    requires i < |s|
    ensures |r| == |s| && r[i] == x
    ensures forall j :: 0 <= j < |s| && j != i ==> r[j] == s[j]
  {
    s[i := x]
  }

  /** Appending a record keyed by NextId keeps the keys unique. */
  lemma AppendFreshKeepsUnique<T>(s: seq<T>, key: T -> int, x: T)
    requires UniqueKeys(s, key)
    requires key(x) == NextId(s, key)
    ensures UniqueKeys(s + [x], key)
  {
    forall i, j | 0 <= i < j < |s + [x]|
      ensures key((s + [x])[i]) != key((s + [x])[j])
    {
      if j == |s| {
        assert key(s[i]) < NextId(s, key);
      }
    }
  }

  /** Removing one record keeps the keys unique. */
  lemma RemoveKeepsUnique<T>(s: seq<T>, key: T -> int, i: nat)
    requires UniqueKeys(s, key) && i < |s|
    ensures UniqueKeys(RemoveAt(s, i), key)
  {
    var r := RemoveAt(s, i);
    forall a, b | 0 <= a < b < |r| ensures key(r[a]) != key(r[b]) {
      var a' := if a < i then a else a + 1;
      var b' := if b < i then b else b + 1;
      assert r[a] == s[a'] && r[b] == s[b'];
    }
  }

  /** `s.filter(x => key(x) !== id)`. */
  function WithoutKey<T>(s: seq<T>, key: T -> int, id: int): (r: seq<T>)
    ensures forall i :: 0 <= i < |r| ==> r[i] in s && key(r[i]) != id
    ensures forall i :: 0 <= i < |s| && key(s[i]) != id ==> s[i] in r
    ensures |r| <= |s|
  {
    if s == [] then []
    else if key(s[0]) == id then WithoutKey(s[1..], key, id)
    else [s[0]] + WithoutKey(s[1..], key, id)
  }

  /**
   * Filtering distributes over appending, whatever the keys: the records
   * kept stay in their original order, and an appended record is kept, last,
   * exactly when its key differs.
   */
  lemma {:induction false} WithoutKeyAppend<T>(s: seq<T>, x: T, key: T -> int, id: int)
    ensures WithoutKey(s + [x], key, id) == WithoutKey(s, key, id) + (if key(x) != id then [x] else [])
  {
    if s == [] {
      assert s + [x] == [x];
    } else {
      assert (s + [x])[1..] == s[1..] + [x];
      WithoutKeyAppend(s[1..], x, key, id);
    }
  }

  /**
   * With unique keys, filtering a key out and splicing out its first match
   * (or leaving the list alone when nothing matches) give the same list.
   */
  lemma WithoutKeyIsRemoveFirst<T>(s: seq<T>, key: T -> int, id: int)
    requires UniqueKeys(s, key)
    ensures WithoutKey(s, key, id) ==
      match IndexOf(s, key, id)
      case None => s
      case Some(i) => RemoveAt(s, i)
  {
    match IndexOf(s, key, id)
    case None => WithoutAbsentKey(s, key, id);
    case Some(i) => WithoutKeyRemovesFirst(s, key, id);
  }

  /** Filtering out a key no record has changes nothing. */
  lemma {:induction false} WithoutAbsentKey<T>(s: seq<T>, key: T -> int, id: int)
    requires forall j :: 0 <= j < |s| ==> key(s[j]) != id
    ensures WithoutKey(s, key, id) == s
  {
    if s != [] {
      assert forall j :: 0 <= j < |s[1..]| ==> key(s[1..][j]) != id by {
        forall j | 0 <= j < |s[1..]| ensures key(s[1..][j]) != id {
          assert s[1..][j] == s[j + 1];
        }
      }
      WithoutAbsentKey(s[1..], key, id);
      assert s == [s[0]] + s[1..];
    }
  }

  /** With unique keys, filtering out a present key splices out its one record. */
  lemma {:induction false} WithoutKeyRemovesFirst<T>(s: seq<T>, key: T -> int, id: int)
    requires UniqueKeys(s, key)
    requires IndexOf(s, key, id).Some?
    ensures WithoutKey(s, key, id) == RemoveAt(s, IndexOf(s, key, id).value)
  {
    UniqueKeysTail(s, key);
    if key(s[0]) == id {
      assert IndexOf(s, key, id) == Some(0);
      assert WithoutKey(s, key, id) == WithoutKey(s[1..], key, id);
      WithoutAbsentKey(s[1..], key, id);
      assert s[1..] == RemoveAt(s, 0);
    } else {
      var i := IndexOf(s[1..], key, id).value;
      assert IndexOf(s, key, id) == Some(i + 1);
      assert WithoutKey(s, key, id) == [s[0]] + WithoutKey(s[1..], key, id);
      WithoutKeyRemovesFirst(s[1..], key, id);
      RemoveAtTail(s, i);
    }
  }

  /** Splicing from the tail and putting the head back is splicing one place later. */
  lemma RemoveAtTail<T>(s: seq<T>, i: nat)
    requires i + 1 < |s|
    ensures [s[0]] + RemoveAt(s[1..], i) == RemoveAt(s, i + 1)
  {
    assert s[1..][..i] == s[1..i + 1];
    assert s[1..][i + 1..] == s[i + 2..];
    assert [s[0]] + s[1..i + 1] == s[..i + 1];
  }

  /** The tail of a list with unique keys has unique keys, none of them the head's. */
  lemma UniqueKeysTail<T>(s: seq<T>, key: T -> int)
    requires UniqueKeys(s, key) && s != []
    ensures UniqueKeys(s[1..], key)
    ensures forall j :: 0 <= j < |s[1..]| ==> key(s[1..][j]) != key(s[0])
  {
    forall i, j | 0 <= i < j < |s[1..]| ensures key(s[1..][i]) != key(s[1..][j]) {
      assert s[1..][i] == s[i + 1] && s[1..][j] == s[j + 1];
    }
    forall j | 0 <= j < |s[1..]| ensures key(s[1..][j]) != key(s[0]) {
      assert s[1..][j] == s[j + 1];
    }
  }

  /** `s.map(key)`. */
  function Keys<T>(s: seq<T>, key: T -> int): (r: seq<int>)
    ensures |r| == |s|
    ensures forall i :: 0 <= i < |s| ==> r[i] == key(s[i])
  {
    if s == [] then [] else [key(s[0])] + Keys(s[1..], key)
  }

  /** No value occurs twice. */
  ghost predicate Distinct<T>(s: seq<T>) {
    forall i, j :: 0 <= i < j < |s| ==> s[i] != s[j]
  }

  /** In a duplicate-free list every member occurs exactly once. */
  lemma {:induction false} DistinctOnce<T>(s: seq<T>, x: T)
    requires Distinct(s)
    ensures multiset(s)[x] == if x in s then 1 else 0
  {
    if s != [] {
      assert Distinct(s[1..]) by {
        forall i, j | 0 <= i < j < |s[1..]| ensures s[1..][i] != s[1..][j] {
          assert s[1..][i] == s[i + 1] && s[1..][j] == s[j + 1];
        }
      }
      DistinctOnce(s[1..], x);
      assert s == [s[0]] + s[1..];
      assert multiset(s) == multiset([s[0]]) + multiset(s[1..]);
      if x == s[0] {
        assert x !in s[1..] by {
          forall i | 0 <= i < |s[1..]| ensures s[1..][i] != x {
            assert s[1..][i] == s[i + 1];
          }
        }
      }
    }
  }

  /** Two duplicate-free lists with the same members are permutations of each other. */
  lemma DistinctSameMembers<T>(a: seq<T>, b: seq<T>)
    requires Distinct(a) && Distinct(b)
    requires forall x :: x in a <==> x in b
    ensures multiset(a) == multiset(b)
  {
    forall x ensures multiset(a)[x] == multiset(b)[x] {
      DistinctOnce(a, x);
      DistinctOnce(b, x);
    }
  }

  /** A record appended under NextId is what a lookup of its key finds. */
  lemma AppendFreshThenFind<T>(s: seq<T>, key: T -> int, x: T)
    requires key(x) == NextId(s, key)
    ensures Find(s + [x], key, key(x)) == Some(x)
  {
    var t := s + [x];
    forall j | 0 <= j < |s| ensures key(t[j]) != key(x) {
      assert t[j] == s[j];
    }
    assert t[|s|] == x;
    assert IndexOf(t, key, key(x)).Some?;
  }

  /** After replacing the first match of a key by a record with that key, a lookup finds the new record. */
  lemma ReplaceThenFind<T>(s: seq<T>, key: T -> int, id: int, x: T)
    requires IndexOf(s, key, id).Some? && key(x) == id
    ensures Find(ReplaceAt(s, IndexOf(s, key, id).value, x), key, id) == Some(x)
  {
    var i := IndexOf(s, key, id).value;
    var t := ReplaceAt(s, i, x);
    assert IndexOf(t, key, id) == Some(i);
  }

  /** With unique keys, once the match of a key is spliced out nothing has that key. */
  lemma RemoveThenFind<T>(s: seq<T>, key: T -> int, id: int)
    requires UniqueKeys(s, key) && IndexOf(s, key, id).Some?
    ensures Find(RemoveAt(s, IndexOf(s, key, id).value), key, id).None?
  {
    var i := IndexOf(s, key, id).value;
    var t := RemoveAt(s, i);
    forall j | 0 <= j < |t| ensures key(t[j]) != id {
      if j < i {
        assert t[j] == s[j];
      } else {
        assert t[j] == s[j + 1];
      }
    }
  }
}
