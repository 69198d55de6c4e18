/**
 The timer as a plain bag of deadlines: entries in the order in which they were inserted, an armed kernel timer,
 and the steps by which events are added, deleted, cancelled and fired. `E` identifies a timer event.
 */
module TimerSpec {

  /** What the timer knows of an event: `task` says whether it still has one to run. */
  datatype Event = Event(arrive: int, interval: int, repeats: bool, canceled: bool, task: bool)

  datatype Entry<E> = Entry(key: int, event: E)

  // ---- Sorting the bag ----

  /** Behind all entries whose key is not greater, as `multimap::emplace` does. */
  function Insert<E>(s: seq<Entry<E>>, x: Entry<E>): seq<Entry<E>> {
    if s == [] || x.key < s[0].key then [x] + s else [s[0]] + Insert(s[1..], x)
  }

  function Sort<E>(bag: seq<Entry<E>>): seq<Entry<E>> {
    if bag == [] then [] else Insert(Sort(bag[..|bag| - 1]), bag[|bag| - 1])
  }

  predicate Sorted<E>(s: seq<Entry<E>>) {
    forall i, j :: 0 <= i < j < |s| ==> s[i].key <= s[j].key
  }

  /** The entries of which `p` holds, in order. */
  function Filter<E>(s: seq<Entry<E>>, p: Entry<E> -> bool): seq<Entry<E>> {
    if s == [] then [] else (if p(s[0]) then [s[0]] else []) + Filter(s[1..], p)
  }

  lemma {:induction false} FilterAppend<E>(s: seq<Entry<E>>, t: seq<Entry<E>>, p: Entry<E> -> bool)
    ensures Filter(s + t, p) == Filter(s, p) + Filter(t, p)
  {
    if s == [] {
      assert s + t == t;
    } else {
      FilterAppend(s[1..], t, p);
      var first := if p(s[0]) then [s[0]] else [];
      assert (s + t)[0] == s[0] && (s + t)[1..] == s[1..] + t;
      assert first + (Filter(s[1..], p) + Filter(t, p)) == (first + Filter(s[1..], p)) + Filter(t, p);
    }
  }

  lemma FilterSnoc<E>(s: seq<Entry<E>>, x: Entry<E>, p: Entry<E> -> bool)
    ensures Filter(s + [x], p) == Filter(s, p) + if p(x) then [x] else []
  {
    FilterAppend(s, [x], p);
    assert [x][1..] == [];
  }

  lemma {:induction false} InsertPermutes<E>(s: seq<Entry<E>>, x: Entry<E>)
    ensures |Insert(s, x)| == |s| + 1 && multiset(Insert(s, x)) == multiset(s) + multiset{x}
  {
    if s == [] || x.key < s[0].key {
    } else {
      InsertPermutes(s[1..], x);
      assert s == [s[0]] + s[1..];
    }
  }

  lemma InsertMember<E>(s: seq<Entry<E>>, x: Entry<E>, y: Entry<E>)
    ensures y in Insert(s, x) <==> y in s || y == x
  {
    InsertPermutes(s, x);
    assert y in Insert(s, x) <==> y in multiset(Insert(s, x));
  }

  lemma {:induction false} InsertSorted<E>(s: seq<Entry<E>>, x: Entry<E>)
    requires Sorted(s)
    ensures Sorted(Insert(s, x))
  {
    if s == [] || x.key < s[0].key {
    } else {
      InsertSorted(s[1..], x);
      var t := Insert(s[1..], x);
      forall i | 0 <= i < |t|
        ensures s[0].key <= t[i].key
      {
        InsertMember(s[1..], x, t[i]);
      }
    }
  }

  /** Sorting permutes the bag. */
  lemma {:induction false} SortSorted<E>(bag: seq<Entry<E>>)
    ensures Sorted(Sort(bag)) && |Sort(bag)| == |bag| && multiset(Sort(bag)) == multiset(bag)
  {
    if bag != [] {
      SortSorted(bag[..|bag| - 1]);
      InsertSorted(Sort(bag[..|bag| - 1]), bag[|bag| - 1]);
      InsertPermutes(Sort(bag[..|bag| - 1]), bag[|bag| - 1]);
      assert bag == bag[..|bag| - 1] + [bag[|bag| - 1]];
    }
  }

  /** Inserting and then selecting is inserting into the selection. */
  lemma {:induction false} FilterInsert<E>(s: seq<Entry<E>>, x: Entry<E>, p: Entry<E> -> bool)
    requires Sorted(s)
    ensures Filter(Insert(s, x), p) == if p(x) then Insert(Filter(s, p), x) else Filter(s, p)
  {
    if s == [] || x.key < s[0].key {
      assert ([x] + s)[1..] == s;
      if p(x) {
        FilterKeys(s, p, x.key);
        InsertFront(Filter(s, p), x);
      }
    } else {
      FilterInsert(s[1..], x, p);
      assert ([s[0]] + Insert(s[1..], x))[1..] == Insert(s[1..], x);
      var rest := Filter(s[1..], p);
      assert Filter(s, p) == (if p(s[0]) then [s[0]] else []) + rest;
      assert ([s[0]] + rest)[1..] == rest;
      if !p(s[0]) {
        assert [] + rest == rest && [] + Insert(rest, x) == Insert(rest, x);
      }
    }
  }

  lemma InsertFront<E>(s: seq<Entry<E>>, x: Entry<E>)
    requires forall i :: 0 <= i < |s| ==> x.key < s[i].key
    ensures Insert(s, x) == [x] + s
  {
  }

  lemma {:induction false} FilterKeys<E>(s: seq<Entry<E>>, p: Entry<E> -> bool, below: int)
    requires forall i :: 0 <= i < |s| ==> below < s[i].key
    ensures forall i :: 0 <= i < |Filter(s, p)| ==> below < Filter(s, p)[i].key
  {
    if s != [] {
      FilterKeys(s[1..], p, below);
    }
  }

  /** Selecting from the sorted bag is sorting the selection. */
  lemma {:induction false} FilterSort<E>(bag: seq<Entry<E>>, p: Entry<E> -> bool)
    ensures Filter(Sort(bag), p) == Sort(Filter(bag, p))
  {
    if bag != [] {
      var init, x := bag[..|bag| - 1], bag[|bag| - 1];
      assert bag == init + [x];
      hide Insert, Sorted;
      FilterSort(init, p);
      FilterSnoc(init, x, p);
      SortSorted(init);
      FilterInsert(Sort(init), x, p);
      if p(x) {
        SortSnoc(Filter(init, p), x);
      } else {
        assert Filter(bag, p) == Filter(init, p);
      }
    }
  }

  lemma SortSnoc<E>(bag: seq<Entry<E>>, x: Entry<E>)
    ensures Sort(bag + [x]) == Insert(Sort(bag), x)
  {
    assert (bag + [x])[..|bag + [x]| - 1] == bag;
  }

  /** Sorting is stable: entries with the same key stay in the order in which they were inserted. */
  lemma SortStable<E>(bag: seq<Entry<E>>, key: int)
    ensures Filter(Sort(bag), (x: Entry<E>) => x.key == key) == Filter(bag, (x: Entry<E>) => x.key == key)
  {
    var p := (x: Entry<E>) => x.key == key;
    FilterSort(bag, p);
    FilterHolds(bag, p);
    SortSame(Filter(bag, p), key);
  }

  lemma {:induction false} FilterHolds<E>(s: seq<Entry<E>>, p: Entry<E> -> bool)
    ensures forall i :: 0 <= i < |Filter(s, p)| ==> p(Filter(s, p)[i])
  {
    if s != [] {
      FilterHolds(s[1..], p);
    }
  }

  lemma {:induction false} SortSame<E>(s: seq<Entry<E>>, key: int)
    requires forall i :: 0 <= i < |s| ==> s[i].key == key
    ensures Sort(s) == s
  {
    if s != [] {
      SortSame(s[..|s| - 1], key);
      InsertBack(s[..|s| - 1], s[|s| - 1]);
      assert s == s[..|s| - 1] + [s[|s| - 1]];
    }
  }

  lemma {:induction false} InsertBack<E>(s: seq<Entry<E>>, x: Entry<E>)
    requires forall i :: 0 <= i < |s| ==> s[i].key <= x.key
    ensures Insert(s, x) == s + [x]
  {
    if s != [] {
      InsertBack(s[1..], x);
      assert s == [s[0]] + s[1..];
    }
  }
}
