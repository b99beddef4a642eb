/**
 Go's `slices.SortStableFunc` as a function: the two facts the model relies on are that the result is
 ordered and that rows with equal keys keep their order, and these two facts determine the result.
 */
module Sorting {
  /** A two-part sort key, compared lexicographically. */
  type Key = (int, int)

  predicate KeyLe(a: Key, b: Key) {
    a.0 < b.0 || (a.0 == b.0 && a.1 <= b.1)
  }

  ghost predicate Sorted<T>(s: seq<T>, key: T -> Key) {
    forall i, j :: 0 <= i < j < |s| ==> KeyLe(key(s[i]), key(s[j]))
  }

  /** The rows carrying key `k`, in order. */
  function Select<T>(s: seq<T>, key: T -> Key, k: Key): seq<T> {
    if s == [] then []
    else if key(s[0]) == k then [s[0]] + Select(s[1..], key, k)
    else Select(s[1..], key, k)
  }

  function Insert<T>(x: T, s: seq<T>, key: T -> Key): (r: seq<T>)
    ensures |r| == |s| + 1
    ensures multiset(r) == multiset(s) + multiset{x}
  {
    if s == [] then [x]
    else if KeyLe(key(x), key(s[0])) then [x] + s
    else
      assert s == [s[0]] + s[1..];
      [s[0]] + Insert(x, s[1..], key)
  }

  function StableSort<T>(s: seq<T>, key: T -> Key): (r: seq<T>)
    ensures |r| == |s|
    ensures multiset(r) == multiset(s)
  {
    if s == [] then []
    else
      assert s == [s[0]] + s[1..];
      Insert(s[0], StableSort(s[1..], key), key)
  }

  lemma {:induction false} SelectAppend<T>(a: seq<T>, b: seq<T>, key: T -> Key, k: Key)
    ensures Select(a + b, key, k) == Select(a, key, k) + Select(b, key, k)
  {
    if a == [] {
      assert a + b == b;
    } else {
      assert (a + b)[1..] == a[1..] + b;
      SelectAppend(a[1..], b, key, k);
    }
  }

  lemma {:induction false} InsertSorted<T>(x: T, s: seq<T>, key: T -> Key)
    requires Sorted(s, key)
    ensures Sorted(Insert(x, s, key), key)
  {
    if s != [] && !KeyLe(key(x), key(s[0])) {
      InsertSorted(x, s[1..], key);
      var rest := Insert(x, s[1..], key);
      forall i | 0 <= i < |rest| ensures KeyLe(key(s[0]), key(rest[i])) {
        assert rest[i] in multiset(rest);
        assert rest[i] in multiset(s[1..]) || rest[i] == x;
      }
    }
  }

  lemma {:induction false} InsertSelect<T>(x: T, s: seq<T>, key: T -> Key, k: Key)
    requires Sorted(s, key)
    ensures Select(Insert(x, s, key), key, k) == Select([x] + s, key, k)
  {
    if s != [] && !KeyLe(key(x), key(s[0])) {
      InsertSelect(x, s[1..], key, k);
      var r := Insert(x, s, key);
      assert r[1..] == Insert(x, s[1..], key);
      assert ([x] + s)[1..] == s;
      assert ([x] + s[1..])[1..] == s[1..];
      if key(s[0]) == k && key(x) == k {
        assert false;
      }
    }
  }

  /** The library sort orders the rows and keeps the order of rows with equal keys. */
  lemma {:induction false} StableSortCorrect<T>(s: seq<T>, key: T -> Key)
    ensures Sorted(StableSort(s, key), key)
    ensures forall k :: Select(StableSort(s, key), key, k) == Select(s, key, k)
  {
    if s != [] {
      StableSortCorrect(s[1..], key);
      var rest := StableSort(s[1..], key);
      InsertSorted(s[0], rest, key);
      forall k ensures Select(StableSort(s, key), key, k) == Select(s, key, k) {
        InsertSelect(s[0], rest, key, k);
        assert ([s[0]] + rest)[1..] == rest;
      }
    }
  }

  lemma {:induction false} SelectSound<T>(s: seq<T>, key: T -> Key, k: Key)
    ensures Select(s, key, k) != [] ==> exists i :: 0 <= i < |s| && key(s[i]) == k && s[i] == Select(s, key, k)[0]
    ensures forall i :: 0 <= i < |s| && key(s[i]) == k ==> Select(s, key, k) != []
  {
    if s != [] {
      SelectSound(s[1..], key, k);
      if key(s[0]) == k {
        assert s[0] == Select(s, key, k)[0];
      } else if Select(s, key, k) != [] {
        var i :| 0 <= i < |s[1..]| && key(s[1..][i]) == k && s[1..][i] == Select(s[1..], key, k)[0];
        assert s[i + 1] == Select(s, key, k)[0];
      }
    }
  }

  /** Ordering and stability leave exactly one result, so nothing depends on how the library sorts. */
  lemma {:induction false} StableOrderUnique<T>(u: seq<T>, v: seq<T>, key: T -> Key)
    requires Sorted(u, key) && Sorted(v, key)
    requires forall k :: Select(u, key, k) == Select(v, key, k)
    ensures u == v
  {
    if |u| + |v| > 0 {
      var first := if u != [] then u[0] else v[0];
      SelectSound(u, key, key(first));
      SelectSound(v, key, key(first));
      assert u != [] && v != [];
      var a, b := key(u[0]), key(v[0]);
      SelectSound(v, key, a);
      SelectSound(u, key, b);
      assert Select(u, key, a) != [] && Select(v, key, b) != [];
      assert KeyLe(a, b) && KeyLe(b, a);
      assert u[0] == Select(u, key, a)[0] == v[0];
      forall k ensures Select(u[1..], key, k) == Select(v[1..], key, k) {
        assert Select(u, key, k) == Select(v, key, k);
        if k == a {
          assert Select(u, key, k)[1..] == Select(u[1..], key, k);
          assert Select(v, key, k)[1..] == Select(v[1..], key, k);
        }
      }
      StableOrderUnique(u[1..], v[1..], key);
    }
  }

  /** Sorting a concatenation whose left half never exceeds its right half sorts the halves apart. */
  lemma {:induction false} SortAppend<T>(a: seq<T>, b: seq<T>, key: T -> Key)
    requires forall i, j :: 0 <= i < |a| && 0 <= j < |b| ==> KeyLe(key(a[i]), key(b[j]))
    ensures StableSort(a + b, key) == StableSort(a, key) + StableSort(b, key)
  {
    var u, v := StableSort(a, key), StableSort(b, key);
    StableSortCorrect(a, key);
    StableSortCorrect(b, key);
    StableSortCorrect(a + b, key);
    forall i, j | 0 <= i < |u| && 0 <= j < |v| ensures KeyLe(key(u[i]), key(v[j])) {
      assert u[i] in multiset(u) && v[j] in multiset(v);
      assert u[i] in a && v[j] in b;
    }
    forall k ensures Select(u + v, key, k) == Select(StableSort(a + b, key), key, k) {
      SelectAppend(u, v, key, k);
      SelectAppend(a, b, key, k);
    }
    StableOrderUnique(StableSort(a + b, key), u + v, key);
  }

  lemma HeadInOther<T>(u: seq<T>, v: seq<T>)
    requires multiset(u) == multiset(v) && u != []
    ensures v != [] && u[0] in v && v[0] in u
  {
    assert u[0] in multiset(u);
    assert u[0] in multiset(v);
    assert v[0] in multiset(v);
  }

  lemma TailMultiset<T>(u: seq<T>, v: seq<T>)
    requires u != [] && v != [] && u[0] == v[0] && multiset(u) == multiset(v)
    ensures multiset(u[1..]) == multiset(v[1..])
  {
    assert u == [u[0]] + u[1..] && v == [v[0]] + v[1..];
    assert multiset(u[1..]) == multiset(u) - multiset{u[0]};
    assert multiset(v[1..]) == multiset(v) - multiset{v[0]};
  }

  /** When the keys of a sorted sequence rise strictly, every sorted permutation of it is that sequence. */
  lemma {:induction false} DistinctOrderUnique<T>(u: seq<T>, v: seq<T>, key: T -> Key)
    requires Sorted(u, key) && Sorted(v, key) && multiset(u) == multiset(v)
    requires forall i, j :: 0 <= i < j < |u| ==> key(u[i]) != key(u[j])
    ensures u == v
  {
    if u == [] {
      assert |multiset(u)| == |u| && |multiset(v)| == |v|;
    } else {
      HeadInOther(u, v);
      var i :| 0 <= i < |v| && v[i] == u[0];
      var j :| 0 <= j < |u| && u[j] == v[0];
      assert KeyLe(key(v[0]), key(v[i])) by { if i != 0 {} }
      assert KeyLe(key(u[0]), key(u[j])) by { if j != 0 {} }
      assert key(u[0]) == key(u[j]);
      TailMultiset(u, v);
      DistinctOrderUnique(u[1..], v[1..], key);
      assert u == [u[0]] + u[1..] && v == [v[0]] + v[1..];
    }
  }

  // ----- two rows that sort next to each other

  predicate KeyLt(a: Key, b: Key) {
    KeyLe(a, b) && a != b
  }

  /** The rows whose key passes. */
  function Keep<T>(s: seq<T>, key: T -> Key, pass: Key -> bool): (r: seq<T>)
    ensures forall i :: 0 <= i < |r| ==> pass(key(r[i]))
  {
    if s == [] then [] else (if pass(key(s[0])) then [s[0]] else []) + Keep(s[1..], key, pass)
  }

  lemma {:induction false} SelectKeep<T>(s: seq<T>, key: T -> Key, pass: Key -> bool, k: Key)
    ensures Select(Keep(s, key, pass), key, k) == if pass(k) then Select(s, key, k) else []
  {
    if s != [] {
      SelectKeep(s[1..], key, pass, k);
      var rest := Keep(s[1..], key, pass);
      if pass(key(s[0])) {
        assert ([s[0]] + rest)[1..] == rest;
      } else {
        assert [] + rest == rest;
      }
    }
  }

  lemma {:induction false} SelectNone<T>(s: seq<T>, key: T -> Key, k: Key)
    requires forall i :: 0 <= i < |s| ==> key(s[i]) != k
    ensures Select(s, key, k) == []
  {
    if s != [] { SelectNone(s[1..], key, k); }
  }

  /** No row standing before, between or after two inserted rows sorts between their keys. */
  ghost predicate NoneBetween<T>(x: seq<T>, y: seq<T>, z: seq<T>, key: T -> Key, low: Key, high: Key) {
    && KeyLe(low, high)
    && (forall i :: 0 <= i < |x| ==> KeyLe(key(x[i]), low) || KeyLt(high, key(x[i])))
    && (forall i :: 0 <= i < |y| ==> KeyLt(key(y[i]), low) || KeyLt(high, key(y[i])))
    && (forall i :: 0 <= i < |z| ==> KeyLt(key(z[i]), low) || KeyLe(high, key(z[i])))
  }

  /** The rows that sort before the first inserted row. */
  function Front<T>(x: seq<T>, y: seq<T>, z: seq<T>, key: T -> Key, low: Key): seq<T> {
    Keep(x, key, k => KeyLe(k, low)) + Keep(y, key, k => KeyLt(k, low)) + Keep(z, key, k => KeyLt(k, low))
  }

  /** The rows that sort after the second inserted row. */
  function Rear<T>(x: seq<T>, y: seq<T>, z: seq<T>, key: T -> Key, high: Key): seq<T> {
    Keep(x, key, k => KeyLt(high, k)) + Keep(y, key, k => KeyLt(high, k)) + Keep(z, key, k => KeyLe(high, k))
  }

  lemma {:induction false} SelectThree<T>(a: seq<T>, b: seq<T>, c: seq<T>, key: T -> Key, k: Key)
    ensures Select(a + b + c, key, k) == Select(a, key, k) + Select(b, key, k) + Select(c, key, k)
  {
    SelectAppend(a + b, c, key, k);
    SelectAppend(a, b, key, k);
  }

  lemma {:induction false} SelectFront<T>(x: seq<T>, y: seq<T>, z: seq<T>, key: T -> Key, low: Key, k: Key)
    ensures Select(Front(x, y, z, key, low), key, k) ==
            if KeyLt(k, low) then Select(x, key, k) + Select(y, key, k) + Select(z, key, k)
            else if k == low then Select(x, key, k) else []
  {
    var upTo, below := (j: Key) => KeyLe(j, low), (j: Key) => KeyLt(j, low);
    SelectThree(Keep(x, key, upTo), Keep(y, key, below), Keep(z, key, below), key, k);
    SelectKeep(x, key, upTo, k);
    SelectKeep(y, key, below, k);
    SelectKeep(z, key, below, k);
  }

  lemma {:induction false} SelectRear<T>(x: seq<T>, y: seq<T>, z: seq<T>, key: T -> Key, high: Key, k: Key)
    ensures Select(Rear(x, y, z, key, high), key, k) ==
            if KeyLt(high, k) then Select(x, key, k) + Select(y, key, k) + Select(z, key, k)
            else if k == high then Select(z, key, k) else []
  {
    var above, from := (j: Key) => KeyLt(high, j), (j: Key) => KeyLe(high, j);
    SelectThree(Keep(x, key, above), Keep(y, key, above), Keep(z, key, from), key, k);
    SelectKeep(x, key, above, k);
    SelectKeep(y, key, above, k);
    SelectKeep(z, key, from, k);
  }

  /** Which rows of key `k` there are, when none lies between. */
  lemma {:induction false} SelectBeside<T>(x: seq<T>, y: seq<T>, z: seq<T>, key: T -> Key, low: Key, high: Key, k: Key)
    requires NoneBetween(x, y, z, key, low, high)
    ensures KeyLe(low, k) && KeyLe(k, high) ==> Select(y, key, k) == []
    ensures KeyLt(low, k) && KeyLe(k, high) ==> Select(x, key, k) == []
    ensures KeyLe(low, k) && KeyLt(k, high) ==> Select(z, key, k) == []
  {
    if KeyLe(low, k) && KeyLe(k, high) { SelectNone(y, key, k); }
    if KeyLt(low, k) && KeyLe(k, high) { SelectNone(x, key, k); }
    if KeyLe(low, k) && KeyLt(k, high) { SelectNone(z, key, k); }
  }

  lemma {:induction false} SelectPair<T>(p: T, n: T, key: T -> Key, k: Key)
    ensures Select([p, n], key, k) == Select([p], key, k) + Select([n], key, k)
    ensures Select([p], key, k) == if key(p) == k then [p] else []
    ensures Select([n], key, k) == if key(n) == k then [n] else []
  {
    assert [p, n] == [p] + [n] && [p][1..] == [] && [n][1..] == [];
    SelectAppend([p], [n], key, k);
  }

  lemma {:induction false} SelectFive<T>(x: seq<T>, p: T, y: seq<T>, n: T, z: seq<T>, key: T -> Key, k: Key)
    ensures Select(x + [p] + y + [n] + z, key, k) ==
            Select(x, key, k) + Select([p], key, k) + Select(y, key, k) + Select([n], key, k) + Select(z, key, k)
  {
    SelectAppend(x + [p] + y + [n], z, key, k);
    SelectAppend(x + [p] + y, [n], key, k);
    SelectThree(x, [p], y, key, k);
  }

  ghost predicate SplitsAt<T>(x: seq<T>, p: T, y: seq<T>, n: T, z: seq<T>, key: T -> Key, k: Key) {
    var front, rear := Select(Front(x, y, z, key, key(p)), key, k), Select(Rear(x, y, z, key, key(n)), key, k);
    && Select(x + y + z, key, k) == front + rear
    && Select(x + [p] + y + [n] + z, key, k) == front + Select([p, n], key, k) + rear
  }

  /** The same rows, put together in the order of the list and in the order of front and rear. */
  ghost predicate Recombine<T>(x: seq<T>, p: seq<T>, y: seq<T>, n: seq<T>, z: seq<T>, front: seq<T>, rear: seq<T>) {
    x + y + z == front + rear && x + p + y + n + z == front + (p + n) + rear
  }

  lemma RecombineOutside<T>(x: seq<T>, y: seq<T>, z: seq<T>)
    ensures Recombine(x, [], y, [], z, x + y + z, []) && Recombine(x, [], y, [], z, [], x + y + z)
  {
    var none: seq<T>, all := [], x + y + z;
    assert x + none + y + none + z == all;
    assert all + (none + none) + none == all && none + (none + none) + all == all && all + none == none + all == all;
  }

  lemma RecombineInside<T>(x: seq<T>, p: seq<T>, y: seq<T>, n: seq<T>, z: seq<T>)
    requires y == []
    ensures Recombine(x, p, y, n, z, x, z)
  {
    assert x + y + z == x + z;
    assert x + p + y + n + z == x + (p + n) + z;
  }

  lemma {:induction false} SelectParts<T>(x: seq<T>, p: T, y: seq<T>, n: T, z: seq<T>, key: T -> Key, k: Key)
    requires Recombine(Select(x, key, k), Select([p], key, k), Select(y, key, k), Select([n], key, k),
             Select(z, key, k),
                       Select(Front(x, y, z, key, key(p)), key, k), Select(Rear(x, y, z, key, key(n)), key, k))
    ensures SplitsAt(x, p, y, n, z, key, k)
  {
    SelectThree(x, y, z, key, k);
    SelectFive(x, p, y, n, z, key, k);
    SelectPair(p, n, key, k);
  }

  /** With or without the pair, rows of one key stand in the order the split into front and rear gives them. */
  lemma SelectSplit<T>(x: seq<T>, p: T, y: seq<T>, n: T, z: seq<T>, key: T -> Key, k: Key)
    requires NoneBetween(x, y, z, key, key(p), key(n))
    ensures SplitsAt(x, p, y, n, z, key, k)
  {
    if KeyLt(k, key(p)) || KeyLt(key(n), k) {
      SplitsOutside(x, p, y, n, z, key, k);
    } else {
      SplitsInside(x, p, y, n, z, key, k);
    }
  }

  lemma SplitsOutside<T>(x: seq<T>, p: T, y: seq<T>, n: T, z: seq<T>, key: T -> Key, k: Key)
    requires KeyLe(key(p), key(n)) && (KeyLt(k, key(p)) || KeyLt(key(n), k))
    ensures SplitsAt(x, p, y, n, z, key, k)
  {
    FrontOutside(x, y, z, key, key(p), key(n), k);
    SelectPair(p, n, key, k);
    assert Select([p], key, k) == [] && Select([n], key, k) == [];
    RecombineOutside(Select(x, key, k), Select(y, key, k), Select(z, key, k));
    SelectParts(x, p, y, n, z, key, k);
  }

  /** Below the lower key all rows sort to the front, above the higher one to the rear. */
  lemma {:induction false} FrontOutside<T>(x: seq<T>, y: seq<T>, z: seq<T>, key: T -> Key, low: Key, high: Key, k: Key)
    requires KeyLe(low, high) && (KeyLt(k, low) || KeyLt(high, k))
    ensures var all := Select(x, key, k) + Select(y, key, k) + Select(z, key, k);
      && Select(Front(x, y, z, key, low), key, k) == (if KeyLt(k, low) then all else [])
      && Select(Rear(x, y, z, key, high), key, k) == (if KeyLt(k, low) then [] else all)
  {
    SelectFront(x, y, z, key, low, k);
    SelectRear(x, y, z, key, high, k);
  }

  lemma SplitsInside<T>(x: seq<T>, p: T, y: seq<T>, n: T, z: seq<T>, key: T -> Key, k: Key)
    requires NoneBetween(x, y, z, key, key(p), key(n)) && KeyLe(key(p), k) && KeyLe(k, key(n))
    ensures SplitsAt(x, p, y, n, z, key, k)
  {
    FrontInside(x, y, z, key, key(p), key(n), k);
    SelectPair(p, n, key, k);
    RecombineInside(Select(x, key, k), Select([p], key, k), Select(y, key, k), Select([n], key, k), Select(z, key, k));
    SelectParts(x, p, y, n, z, key, k);
  }

  /** Between the keys, only rows standing before the pair sort before it, and only rows standing behind it after it. */
  lemma {:induction false} FrontInside<T>(x: seq<T>, y: seq<T>, z: seq<T>, key: T -> Key, low: Key, high: Key, k: Key)
    requires NoneBetween(x, y, z, key, low, high) && KeyLe(low, k) && KeyLe(k, high)
    ensures Select(Front(x, y, z, key, low), key, k) == Select(x, key, k) && Select(y, key, k) == []
    ensures Select(Rear(x, y, z, key, high), key, k) == Select(z, key, k)
  {
    SelectFront(x, y, z, key, low, k);
    SelectRear(x, y, z, key, high, k);
    SelectBeside(x, y, z, key, low, high, k);
  }

  lemma {:induction false} SortKeeps<T>(s: seq<T>, key: T -> Key, pass: Key -> bool)
    requires forall i :: 0 <= i < |s| ==> pass(key(s[i]))
    ensures forall i :: 0 <= i < |StableSort(s, key)| ==> pass(key(StableSort(s, key)[i]))
  {
    var u := StableSort(s, key);
    forall i | 0 <= i < |u| ensures pass(key(u[i])) {
      assert u[i] in multiset(u);
      assert u[i] in s;
    }
  }

  lemma FrontKeys<T>(x: seq<T>, y: seq<T>, z: seq<T>, key: T -> Key, low: Key)
    ensures var front := StableSort(Front(x, y, z, key, low), key);
      Sorted(front, key) && forall i :: 0 <= i < |front| ==> KeyLe(key(front[i]), low)
  {
    SortKeeps(Front(x, y, z, key, low), key, k => KeyLe(k, low));
    StableSortCorrect(Front(x, y, z, key, low), key);
  }

  lemma RearKeys<T>(x: seq<T>, y: seq<T>, z: seq<T>, key: T -> Key, high: Key)
    ensures var rear := StableSort(Rear(x, y, z, key, high), key);
      Sorted(rear, key) && forall i :: 0 <= i < |rear| ==> KeyLe(high, key(rear[i]))
  {
    SortKeeps(Rear(x, y, z, key, high), key, k => KeyLe(high, k));
    StableSortCorrect(Rear(x, y, z, key, high), key);
  }

  lemma SortedJoin<T>(a: seq<T>, b: seq<T>, key: T -> Key)
    requires Sorted(a, key) && Sorted(b, key)
    requires forall i, j :: 0 <= i < |a| && 0 <= j < |b| ==> KeyLe(key(a[i]), key(b[j]))
    ensures Sorted(a + b, key)
  {
  }

  lemma SortedAround<T>(front: seq<T>, p: T, n: T, rear: seq<T>, key: T -> Key)
    requires Sorted(front, key) && Sorted(rear, key) && KeyLe(key(p), key(n))
    requires forall i :: 0 <= i < |front| ==> KeyLe(key(front[i]), key(p))
    requires forall i :: 0 <= i < |rear| ==> KeyLe(key(n), key(rear[i]))
    ensures Sorted(front + [p, n] + rear, key)
  {
    SortedJoin([p, n], rear, key);
    SortedJoin(front, [p, n] + rear, key);
    assert front + [p, n] + rear == front + ([p, n] + rear);
  }

  lemma {:induction false} SortIs<T>(s: seq<T>, u: seq<T>, key: T -> Key)
    requires Sorted(u, key) && forall k :: Select(u, key, k) == Select(s, key, k)
    ensures StableSort(s, key) == u
  {
    StableSortCorrect(s, key);
    StableOrderUnique(StableSort(s, key), u, key);
  }

  lemma {:induction false} SelectSorted<T>(s: seq<T>, key: T -> Key, k: Key)
    ensures Select(StableSort(s, key), key, k) == Select(s, key, k)
  {
    StableSortCorrect(s, key);
  }

  /** Two rows inserted anywhere, with no key between theirs, end up side by side in the sorted list. */
  lemma {:induction false} PairSortsTogether<T>(x: seq<T>, p: T, y: seq<T>, n: T, z: seq<T>, key: T -> Key)
    requires NoneBetween(x, y, z, key, key(p), key(n))
    ensures StableSort(x + [p] + y + [n] + z, key) ==
            StableSort(Front(x, y, z, key, key(p)), key) + [p, n] + StableSort(Rear(x, y, z, key, key(n)), key)
  {
    var f, r := Front(x, y, z, key, key(p)), Rear(x, y, z, key, key(n));
    var front, rear := StableSort(f, key), StableSort(r, key);
    FrontKeys(x, y, z, key, key(p));
    RearKeys(x, y, z, key, key(n));
    SortedAround(front, p, n, rear, key);
    forall k ensures Select(front + [p, n] + rear, key, k) == Select(x + [p] + y + [n] + z, key, k) {
      PairSelected(x, p, y, n, z, key, k);
    }
    SortIs(x + [p] + y + [n] + z, front + [p, n] + rear, key);
  }

  lemma {:induction false} PairSelected<T>(x: seq<T>, p: T, y: seq<T>, n: T, z: seq<T>, key: T -> Key, k: Key)
    requires NoneBetween(x, y, z, key, key(p), key(n))
    ensures Select(StableSort(Front(x, y, z, key, key(p)), key) + [p, n] + StableSort(Rear(x, y, z, key, key(n)), key),
            key, k) ==
            Select(x + [p] + y + [n] + z, key, k)
  {
    var f, r := Front(x, y, z, key, key(p)), Rear(x, y, z, key, key(n));
    SelectSplit(x, p, y, n, z, key, k);
    SelectThree(StableSort(f, key), [p, n], StableSort(r, key), key, k);
    SelectSorted(f, key, k);
    SelectSorted(r, key, k);
  }

  /** Without them, the same rows stand before and after that place. */
  lemma {:induction false} RestSortsAround<T>(x: seq<T>, p: T, y: seq<T>, n: T, z: seq<T>, key: T -> Key)
    requires NoneBetween(x, y, z, key, key(p), key(n))
    ensures StableSort(x + y + z, key) ==
            StableSort(Front(x, y, z, key, key(p)), key) + StableSort(Rear(x, y, z, key, key(n)), key)
  {
    var f, r := Front(x, y, z, key, key(p)), Rear(x, y, z, key, key(n));
    var front, rear := StableSort(f, key), StableSort(r, key);
    FrontKeys(x, y, z, key, key(p));
    RearKeys(x, y, z, key, key(n));
    SortedJoin(front, rear, key);
    forall k ensures Select(front + rear, key, k) == Select(x + y + z, key, k) {
      SelectSplit(x, p, y, n, z, key, k);
      SelectAppend(front, rear, key, k);
      SelectSorted(f, key, k);
      SelectSorted(r, key, k);
    }
    SortIs(x + y + z, front + rear, key);
  }
}
