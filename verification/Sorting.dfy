/** Sorting encoded entries by key: what the sort at the end of a buffered map guarantees. */
module Sorting {
  import opened Bytes
  import opened WriterSpec

  predicate KeyIn(k: seq<byte>, s: seq<Slice>) {
    s != [] && (s[0].key == k || KeyIn(k, s[1..]))
  }

  /** Two entries with one key. */
  predicate HasDuplicate(s: seq<Slice>) {
    s != [] && (KeyIn(s[0].key, s[1..]) || HasDuplicate(s[1..]))
  }

  lemma {:induction false} KeyInIndex(k: seq<byte>, s: seq<Slice>)
    ensures KeyIn(k, s) <==> exists i :: 0 <= i < |s| && s[i].key == k
    decreases |s|
  {
    if s != [] {
      KeyInIndex(k, s[1..]);
      if i :| 0 <= i < |s| && s[i].key == k {
        assert i > 0 ==> s[1..][i - 1].key == k;
      }
      if i :| 0 <= i < |s[1..]| && s[1..][i].key == k {
        assert s[i + 1].key == k;
      }
    }
  }

  /** `HasDuplicate` is what it says. */
  lemma {:induction false} DuplicateIndices(s: seq<Slice>)
    ensures HasDuplicate(s) <==> exists i, j :: 0 <= i < j < |s| && s[i].key == s[j].key
    decreases |s|
  {
    if s != [] {
      DuplicateIndices(s[1..]);
      KeyInIndex(s[0].key, s[1..]);
      if i, j :| 0 <= i < j < |s| && s[i].key == s[j].key {
        assert s[1..][j - 1].key == s[j].key;
        assert i > 0 ==> s[1..][i - 1].key == s[i].key;
      }
      if KeyIn(s[0].key, s[1..]) {
        var j :| 0 <= j < |s[1..]| && s[1..][j].key == s[0].key;
        assert s[0].key == s[j + 1].key;
      } else if HasDuplicate(s[1..]) {
        var i, j :| 0 <= i < j < |s[1..]| && s[1..][i].key == s[1..][j].key;
        assert s[i + 1].key == s[j + 1].key;
      }
    }
  }

  /** No entry sorts before its predecessor. */
  predicate Sorted(s: seq<Slice>) {
    |s| < 2 || (!Less(s[1].key, s[0].key) && Sorted(s[1..]))
  }

  /** Keys strictly increase. */
  predicate Strictly(s: seq<Slice>) {
    |s| < 2 || (Less(s[0].key, s[1].key) && Strictly(s[1..]))
  }

  lemma {:induction false} InsertContents(e: Slice, s: seq<Slice>)
    ensures multiset(Insert(e, s)) == multiset{e} + multiset(s) && |Insert(e, s)| == |s| + 1
    decreases |s|
  {
    if s != [] && Less(s[0].key, e.key) {
      InsertContents(e, s[1..]);
      assert s == [s[0]] + s[1..];
    }
  }

  lemma {:induction false} SortContents(s: seq<Slice>)
    ensures multiset(Sort(s)) == multiset(s) && |Sort(s)| == |s|
    decreases |s|
  {
    if s != [] {
      SortContents(s[1..]);
      InsertContents(s[0], Sort(s[1..]));
      assert s == [s[0]] + s[1..];
    }
  }

  lemma {:induction false} InsertSorted(e: Slice, s: seq<Slice>)
    requires Sorted(s)
    ensures Sorted(Insert(e, s))
    ensures Insert(e, s)[0] == if s == [] || !Less(s[0].key, e.key) then e else s[0]
    decreases |s|
  {
    if s != [] && Less(s[0].key, e.key) {
      InsertSorted(e, s[1..]);
      var t := Insert(e, s);
      assert t[1..] == Insert(e, s[1..]);
      if Less(e.key, s[0].key) {
        LessTransitive(e.key, s[0].key, e.key);
        LessIrreflexive(e.key);
      }
    } else {
      var t := Insert(e, s);
      assert t[1..] == s;
    }
  }

  lemma {:induction false} SortSorted(s: seq<Slice>)
    ensures Sorted(Sort(s))
    decreases |s|
  {
    if s != [] {
      SortSorted(s[1..]);
      InsertSorted(s[0], Sort(s[1..]));
    }
  }

  lemma {:induction false} KeyInInsert(k: seq<byte>, e: Slice, s: seq<Slice>)
    ensures KeyIn(k, Insert(e, s)) <==> k == e.key || KeyIn(k, s)
    decreases |s|
  {
    var t := Insert(e, s);
    if s != [] && Less(s[0].key, e.key) {
      KeyInInsert(k, e, s[1..]);
      assert t[1..] == Insert(e, s[1..]);
    } else {
      assert t[1..] == s;
    }
  }

  lemma {:induction false} KeyInSort(k: seq<byte>, s: seq<Slice>)
    ensures KeyIn(k, Sort(s)) <==> KeyIn(k, s)
    decreases |s|
  {
    if s != [] {
      KeyInSort(k, s[1..]);
      KeyInInsert(k, s[0], Sort(s[1..]));
    }
  }

  /** In sorted order a key can only repeat at the front. */
  lemma {:induction false} KeyAtFront(k: seq<byte>, s: seq<Slice>)
    requires Sorted(s) && s != [] && !Less(s[0].key, k) && KeyIn(k, s)
    ensures s[0].key == k
    decreases |s|
  {
    if s[0].key != k {
      assert !Less(s[1].key, s[0].key);
      LessTotal(s[0].key, k);
      LessTotal(s[0].key, s[1].key);
      if Less(s[1].key, k) {
        if Less(s[0].key, s[1].key) {
          LessTransitive(s[0].key, s[1].key, k);
        }
      }
      KeyAtFront(k, s[1..]);
    }
  }

  lemma {:induction false} AdjacentInsert(e: Slice, s: seq<Slice>)
    requires Sorted(s)
    ensures AdjacentEqual(Insert(e, s)) <==> KeyIn(e.key, s) || AdjacentEqual(s)
    decreases |s|
  {
    var t := Insert(e, s);
    if s == [] {
    } else if Less(s[0].key, e.key) {
      AdjacentInsert(e, s[1..]);
      InsertSorted(e, s[1..]);
      LessIrreflexive(e.key);
      assert t[1..] == Insert(e, s[1..]);
    } else {
      assert t[1..] == s;
      if KeyIn(e.key, s) {
        KeyAtFront(e.key, s);
      }
    }
  }

  /** Comparing neighbours after sorting finds a duplicate exactly when there is one. */
  lemma {:induction false} AdjacentIsDuplicate(s: seq<Slice>)
    ensures AdjacentEqual(Sort(s)) <==> HasDuplicate(s)
    decreases |s|
  {
    if s != [] {
      AdjacentIsDuplicate(s[1..]);
      SortSorted(s[1..]);
      AdjacentInsert(s[0], Sort(s[1..]));
      KeyInSort(s[0].key, s[1..]);
    }
  }

  lemma {:induction false} SortedIsStrict(s: seq<Slice>)
    requires Sorted(s) && !AdjacentEqual(s)
    ensures Strictly(s)
    decreases |s|
  {
    if |s| > 1 {
      LessTotal(s[0].key, s[1].key);
      SortedIsStrict(s[1..]);
    }
  }

  lemma {:induction false} StrictBelow(s: seq<Slice>, i: nat)
    requires Strictly(s) && 0 < i < |s|
    ensures Less(s[0].key, s[i].key)
    decreases |s|
  {
    if i > 1 {
      StrictBelow(s[1..], i - 1);
      LessTransitive(s[0].key, s[1].key, s[i].key);
    }
  }

  lemma FirstIsLeast(s: seq<Slice>, t: seq<Slice>)
    requires Strictly(s) && Strictly(t) && multiset(s) == multiset(t) && s != [] && t != []
    ensures s[0] == t[0]
  {
    hide Strictly, Less;
    assert s[0] in multiset(t) && t[0] in multiset(s);
    var i :| 0 <= i < |t| && t[i] == s[0];
    var j :| 0 <= j < |s| && s[j] == t[0];
    if i > 0 && j > 0 {
      StrictBelow(t, i);
      StrictBelow(s, j);
      LessTransitive(s[0].key, t[0].key, s[0].key);
      LessIrreflexive(s[0].key);
    }
  }

  /** A strictly increasing arrangement of given entries is unique. */
  lemma {:induction false} StrictUnique(s: seq<Slice>, t: seq<Slice>)
    requires Strictly(s) && Strictly(t) && multiset(s) == multiset(t)
    ensures s == t
    decreases |s|
  {
    hide Less;
    assert |s| == |multiset(s)| == |multiset(t)| == |t|;
    if s != [] {
      FirstIsLeast(s, t);
      assert s == [s[0]] + s[1..] && t == [t[0]] + t[1..];
      assert multiset(s[1..]) == multiset(s) - multiset{s[0]};
      assert multiset(t[1..]) == multiset(t) - multiset{t[0]};
      StrictUnique(s[1..], t[1..]);
    }
  }

  /** The sorted entries depend on which entries there are, not on the order they came in. */
  lemma SortPermutation(s: seq<Slice>, t: seq<Slice>)
    requires multiset(s) == multiset(t)
    ensures AdjacentEqual(Sort(s)) <==> AdjacentEqual(Sort(t))
    ensures !AdjacentEqual(Sort(s)) ==> Sort(s) == Sort(t)
  {
    SortContents(s);
    SortContents(t);
    SortSorted(s);
    SortSorted(t);
    AdjacentIsDuplicate(s);
    AdjacentIsDuplicate(t);
    DuplicatePermutation(s, t);
    if !AdjacentEqual(Sort(s)) {
      SortedIsStrict(Sort(s));
      SortedIsStrict(Sort(t));
      StrictUnique(Sort(s), Sort(t));
    }
  }

  /** The first element of one arrangement occurs in the other; the rest are arrangements of each other. */
  lemma FindFirst<T>(s: seq<T>, t: seq<T>) returns (a: seq<T>, b: seq<T>)
    requires s != [] && multiset(s) == multiset(t)
    ensures t == a + [s[0]] + b && multiset(s[1..]) == multiset(a + b)
  {
    var e := s[0];
    assert e in multiset(t);
    var i :| 0 <= i < |t| && t[i] == e;
    a, b := t[..i], t[i + 1..];
    TakeOut(t, i);
    TakeOut(s, 0);
    assert s[..0] + s[1..] == s[1..];
    Cancel(e, multiset(s[1..]), multiset(a + b));
  }

  lemma TakeOut<T>(t: seq<T>, i: nat)
    requires i < |t|
    ensures t == t[..i] + [t[i]] + t[i + 1..]
    ensures multiset(t) == multiset{t[i]} + multiset(t[..i] + t[i + 1..])
  {
    assert t == t[..i] + [t[i]] + t[i + 1..];
  }

  lemma Cancel<T>(e: T, a: multiset<T>, b: multiset<T>)
    requires multiset{e} + a == multiset{e} + b
    ensures a == b
  {
    assert a == multiset{e} + a - multiset{e};
    assert b == multiset{e} + b - multiset{e};
  }

  lemma {:induction false} DuplicatePermutation(s: seq<Slice>, t: seq<Slice>)
    requires multiset(s) == multiset(t)
    ensures HasDuplicate(s) <==> HasDuplicate(t)
    decreases |s|
  {
    if s == [] {
      assert |t| == |multiset(t)| == 0;
    } else {
      var a, b := FindFirst(s, t);
      DuplicatePermutation(s[1..], a + b);
      KeyInPermutation(s[0].key, s[1..], a + b);
      MoveToFront(a, s[0], b);
    }
  }

  lemma KeyInPermutation(k: seq<byte>, s: seq<Slice>, t: seq<Slice>)
    requires multiset(s) == multiset(t)
    ensures KeyIn(k, s) <==> KeyIn(k, t)
  {
    KeyInIndex(k, s);
    KeyInIndex(k, t);
    if i :| 0 <= i < |s| && s[i].key == k {
      assert s[i] in multiset(t);
    }
    if i :| 0 <= i < |t| && t[i].key == k {
      assert t[i] in multiset(s);
    }
  }

  lemma {:induction false} MoveToFront(a: seq<Slice>, e: Slice, b: seq<Slice>)
    ensures HasDuplicate(a + [e] + b) <==> KeyIn(e.key, a + b) || HasDuplicate(a + b)
    decreases |a|
  {
    var t := a + [e] + b;
    if a == [] {
      assert t[1..] == b && a + b == b;
    } else {
      MoveToFront(a[1..], e, b);
      assert t[1..] == a[1..] + [e] + b && (a + b)[1..] == a[1..] + b;
      KeyInMoved(a[0].key, a[1..], e, b);
    }
  }

  lemma {:induction false} KeyInMoved(k: seq<byte>, a: seq<Slice>, e: Slice, b: seq<Slice>)
    ensures KeyIn(k, a + [e] + b) <==> k == e.key || KeyIn(k, a + b)
    decreases |a|
  {
    var t := a + [e] + b;
    if a == [] {
      assert t[1..] == b && a + b == b;
    } else {
      KeyInMoved(k, a[1..], e, b);
      assert t[1..] == a[1..] + [e] + b && (a + b)[1..] == a[1..] + b;
    }
  }
}
