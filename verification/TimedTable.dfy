/** An insertion-ordered table of entries that carry a time: a Python dict or a JavaScript Map.
    Dropping the oldest entries means sorting by time and popping keys, as both sources do.
*/
module TimedTable {
  import opened Text

  datatype Item = Item(key: string, value: string, stamp: real)

  type Table = seq<Item>

  predicate DistinctKeys(t: Table)
  {
    forall i, j :: 0 <= i < j < |t| ==> t[i].key != t[j].key
  }

  function Lookup(t: Table, key: string): Option<Item>
  {
    if t == [] then None
    else if t[0].key == key then Some(t[0])
    else Lookup(t[1..], key)
  }

  /** Assignment: an existing key keeps its position. */
  function Put(t: Table, e: Item): Table
  {
    if t == [] then [e]
    else if t[0].key == e.key then [e] + t[1..]
    else [t[0]] + Put(t[1..], e)
  }

  /** Deletion of a key that may be missing. */
  function Pop(t: Table, key: string): Table
  {
    if t == [] then []
    else if t[0].key == key then t[1..]
    else [t[0]] + Pop(t[1..], key)
  }

  function PopAll(t: Table, victims: seq<Item>): Table
    decreases |victims|
  {
    if victims == [] then t else PopAll(Pop(t, victims[0].key), victims[1..])
  }

  /** A stable sort by time, oldest first. */
  function SortByStamp(t: Table): (r: Table)
    ensures |r| == |t|
  {
    if t == [] then [] else InsertByStamp(t[0], SortByStamp(t[1..]))
  }

  function InsertByStamp(e: Item, t: Table): (r: Table)
    ensures |r| == |t| + 1
  {
    if t == [] || e.stamp <= t[0].stamp then [e] + t
    else [t[0]] + InsertByStamp(e, t[1..])
  }

  // ----- The operations keep keys distinct -----

  lemma {:induction false} PopMiddle(a: Table, e: Item, b: Table)
    requires forall x :: x in a ==> x.key != e.key
    ensures Pop(a + [e] + b, e.key) == a + b
  {
    if a == [] {
      assert [] + [e] + b == [e] + b;
    } else {
      PopMiddle(a[1..], e, b);
      assert a + [e] + b == [a[0]] + (a[1..] + [e] + b);
      assert a[0] in a;
    }
  }

  lemma DistinctCons(e: Item, t: Table)
    requires DistinctKeys(t) && forall x :: x in t ==> x.key != e.key
    ensures DistinctKeys([e] + t)
  {
    forall i, j | 0 <= i < j < |[e] + t| ensures ([e] + t)[i].key != ([e] + t)[j].key {
      assert t[j-1] in t;
    }
  }

  lemma {:induction false} PopMember(t: Table, key: string)
    ensures forall x :: x in Pop(t, key) ==> x in t
  {
    if t != [] { PopMember(t[1..], key); }
  }

  lemma {:induction false} PopDistinct(t: Table, key: string)
    requires DistinctKeys(t)
    ensures DistinctKeys(Pop(t, key))
  {
    if t != [] && t[0].key != key {
      PopDistinct(t[1..], key);
      PopMember(t[1..], key);
      DistinctCons(t[0], Pop(t[1..], key));
    }
  }

  lemma {:induction false} PutMember(t: Table, e: Item)
    ensures forall x :: x in Put(t, e) ==> x == e || x in t
  {
    if t != [] && t[0].key != e.key { PutMember(t[1..], e); }
  }

  lemma {:induction false} PutDistinct(t: Table, e: Item)
    requires DistinctKeys(t)
    ensures DistinctKeys(Put(t, e))
  {
    if t != [] {
      if t[0].key == e.key {
        assert forall i :: 0 < i < |t| ==> t[i].key != t[0].key;
      } else {
        PutDistinct(t[1..], e);
        PutMember(t[1..], e);
        DistinctCons(t[0], Put(t[1..], e));
      }
    }
  }

  ghost predicate Ascending(t: Table)
  {
    forall i, j :: 0 <= i < j < |t| ==> t[i].stamp <= t[j].stamp
  }

  lemma {:induction false} SortAscending(t: Table)
    requires Ascending(t)
    ensures SortByStamp(t) == t
  {
    if t != [] { SortAscending(t[1..]); }
  }

  lemma {:induction false} PopPrefix(t: Table, k: nat)
    requires k <= |t|
    ensures PopAll(t, t[..k]) == t[k..]
  {
    if k > 0 {
      assert t[..k][1..] == t[1..][..k-1];
      PopPrefix(t[1..], k - 1);
    }
  }

  lemma {:induction false} PutFresh(t: Table, e: Item)
    requires forall x :: x in t ==> x.key != e.key
    ensures Put(t, e) == t + [e]
  {
    if t != [] {
      assert t[0] in t;
      PutFresh(t[1..], e);
    }
  }

  lemma SuffixAscending(t: Table, k: nat)
    requires Ascending(t) && k <= |t|
    ensures Ascending(t[k..])
  {
    forall i, j | 0 <= i < j < |t[k..]| ensures t[k..][i].stamp <= t[k..][j].stamp {
      assert t[k..][i] == t[k + i] && t[k..][j] == t[k + j];
    }
  }

  lemma PrefixAscending(h: Table, e: Item)
    requires Ascending(h + [e])
    ensures Ascending(h)
  {
    forall i, j | 0 <= i < j < |h| ensures h[i].stamp <= h[j].stamp {
      assert (h + [e])[i] == h[i] && (h + [e])[j] == h[j];
    }
  }

  lemma {:induction false} LookupDistinct(t: Table, key: string)
    requires DistinctKeys(t)
    ensures Lookup(t, key).None? ==> forall x :: x in t ==> x.key != key
    ensures Lookup(t, key).Some? ==> Lookup(t, key).value in t && Lookup(t, key).value.key == key
    ensures forall x :: x in t && x.key == key ==> Lookup(t, key) == Some(x)
  {
    if t != [] {
      LookupDistinct(t[1..], key);
      assert forall i :: 0 < i < |t| ==> t[i].key != t[0].key;
    }
  }

  // ----- Sorting and the operations -----

  lemma {:induction false} InsertMember(e: Item, t: Table)
    ensures forall x :: x in InsertByStamp(e, t) <==> x == e || x in t
  {
    if t != [] && !(e.stamp <= t[0].stamp) { InsertMember(e, t[1..]); }
  }

  lemma {:induction false} SortMember(t: Table)
    ensures forall x :: x in SortByStamp(t) <==> x in t
  {
    if t != [] {
      SortMember(t[1..]);
      InsertMember(t[0], SortByStamp(t[1..]));
    }
  }

  lemma {:induction false} PopAbsent(t: Table, key: string)
    requires forall x :: x in t ==> x.key != key
    ensures Pop(t, key) == t
  {
    if t != [] {
      assert t[0] in t;
      PopAbsent(t[1..], key);
    }
  }

  lemma {:induction false} PopInserted(e: Item, t: Table)
    requires forall x :: x in t ==> x.key != e.key
    ensures Pop(InsertByStamp(e, t), e.key) == t
  {
    if t != [] && !(e.stamp <= t[0].stamp) {
      assert t[0] in t;
      PopInserted(e, t[1..]);
      assert InsertByStamp(e, t)[1..] == InsertByStamp(e, t[1..]);
    }
  }

  lemma {:induction false} InsertAscending(e: Item, t: Table)
    requires Ascending(t)
    ensures Ascending(InsertByStamp(e, t))
  {
    if t != [] && !(e.stamp <= t[0].stamp) {
      SuffixAscending(t, 1);
      InsertAscending(e, t[1..]);
      InsertMember(e, t[1..]);
      AscendingCons(t[0], InsertByStamp(e, t[1..]));
    } else {
      AscendingCons(e, t);
    }
  }

  lemma AscendingCons(e: Item, t: Table)
    requires Ascending(t) && forall x :: x in t ==> e.stamp <= x.stamp
    ensures Ascending([e] + t)
  {
    forall i, j | 0 <= i < j < |[e] + t| ensures ([e] + t)[i].stamp <= ([e] + t)[j].stamp {
      assert t[j-1] in t;
    }
  }

  lemma {:induction false} SortIsAscending(t: Table)
    ensures Ascending(SortByStamp(t))
  {
    if t != [] {
      SortIsAscending(t[1..]);
      InsertAscending(t[0], SortByStamp(t[1..]));
    }
  }

  /** Deleting before or after inserting another key is the same. */
  lemma {:induction false} PopInsertOther(e: Item, t: Table, key: string)
    requires e.key != key && Ascending(t)
    ensures Pop(InsertByStamp(e, t), key) == InsertByStamp(e, Pop(t, key))
  {
    if t != [] {
      var inserted := InsertByStamp(e, t);
      if e.stamp <= t[0].stamp {
        assert inserted[1..] == t;
        if t[0].key == key {
          if |t| > 1 { assert t[1..][0] == t[1]; }
        }
      } else {
        assert inserted[0] == t[0] && inserted[1..] == InsertByStamp(e, t[1..]);
        SuffixAscending(t, 1);
        if t[0].key != key { PopInsertOther(e, t[1..], key); }
      }
    }
  }

  /** Deleting before or after sorting is the same. */
  lemma {:induction false} SortPop(t: Table, key: string)
    requires DistinctKeys(t)
    ensures SortByStamp(Pop(t, key)) == Pop(SortByStamp(t), key)
  {
    if t != [] {
      var rest := SortByStamp(t[1..]);
      SortMember(t[1..]);
      if t[0].key == key {
        assert forall i :: 0 < i < |t| ==> t[i].key != t[0].key;
        PopInserted(t[0], rest);
      } else {
        SortPop(t[1..], key);
        SortIsAscending(t[1..]);
        PopInsertOther(t[0], rest, key);
        assert ([t[0]] + Pop(t[1..], key))[1..] == Pop(t[1..], key);
      }
    }
  }

  lemma {:induction false} InsertBeforeNewest(e: Item, t: Table, w: Item)
    requires e.stamp <= w.stamp
    ensures InsertByStamp(e, t + [w]) == InsertByStamp(e, t) + [w]
  {
    if t == [] {
      assert [] + [w] == [w];
    } else {
      assert (t + [w])[1..] == t[1..] + [w];
      if !(e.stamp <= t[0].stamp) { InsertBeforeNewest(e, t[1..], w); }
    }
  }

  /** A new key with the newest time is sorted last. */
  lemma {:induction false} SortAppend(t: Table, w: Item)
    requires forall x :: x in t ==> x.stamp <= w.stamp
    ensures SortByStamp(t + [w]) == SortByStamp(t) + [w]
  {
    if t == [] {
      assert [] + [w] == [w];
    } else {
      assert (t + [w])[1..] == t[1..] + [w];
      SortAppend(t[1..], w);
      InsertBeforeNewest(t[0], SortByStamp(t[1..]), w);
    }
  }

  /** Deleting the oldest few leaves the rest of the sorted order. */
  lemma {:induction false} SortPopOldest(t: Table, k: nat)
    requires DistinctKeys(t) && k <= |t|
    ensures SortByStamp(PopAll(t, SortByStamp(t)[..k])) == SortByStamp(t)[k..]
    decreases k
  {
    if k > 0 {
      var sorted := SortByStamp(t);
      var rest := Pop(t, sorted[0].key);
      SortPop(t, sorted[0].key);
      assert Pop(sorted, sorted[0].key) == sorted[1..];
      PopDistinct(t, sorted[0].key);
      SortPopOldest(rest, k - 1);
      assert sorted[..k][1..] == sorted[1..][..k-1];
    }
  }
}
