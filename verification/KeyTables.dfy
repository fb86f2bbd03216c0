/** Integer key to field index (dense slots or binary search), and the allocation of integer keys. */
module KeyTables {
  import opened Bytes
  import opened Utf8
  import opened RankSort

  datatype KeyEntry = KeyEntry(key: int, index: nat)

  predicate IsInt64(k: int) {
    -TWO63 <= k < TWO63
  }

  // ---- the reference: a scan ----

  function Scan(s: seq<KeyEntry>, k: int): Option<nat> {
    if s == [] then None else if s[0].key == k then Some(s[0].index) else Scan(s[1..], k)
  }

  predicate DistinctKeys(s: seq<KeyEntry>) {
    forall i, j :: 0 <= i < j < |s| ==> s[i].key != s[j].key
  }

  predicate Answers(s: seq<KeyEntry>, k: int, r: Option<nat>) {
    match r
    case Some(v) => KeyEntry(k, v) in s
    case None => forall e :: e in s ==> e.key != k
  }

  lemma {:induction false} ScanAnswers(s: seq<KeyEntry>, k: int)
    ensures Answers(s, k, Scan(s, k))
    decreases |s|
  {
    if s != [] && s[0].key != k {
      ScanAnswers(s[1..], k);
      assert forall e :: e in s <==> e == s[0] || e in s[1..];
    }
  }

  lemma OneAnswer(s: seq<KeyEntry>, t: seq<KeyEntry>, k: int, r: Option<nat>)
    requires DistinctKeys(s) && multiset(s) == multiset(t) && Answers(t, k, r)
    ensures r == Scan(s, k)
  {
    SameElements(s, t);
    ScanAnswers(s, k);
  }

  // ---- the table ----

  datatype Table = Dense(base: int, slots: seq<Option<nat>>) | Sparse(sorted: seq<KeyEntry>)

  predicate Increasing(s: seq<KeyEntry>) {
    forall i, j :: 0 <= i < j < |s| ==> s[i].key < s[j].key
  }

  /** The table holds exactly these entries. */
  ghost predicate Holds(t: Table, s: seq<KeyEntry>) {
    match t
    case Dense(base, slots) =>
      && |slots| <= 256 && IsInt64(base)
      && (forall e :: e in s ==> 0 <= e.key - base < |slots|)
      && forall i :: 0 <= i < |slots| ==> Answers(s, base + i, slots[i])
    case Sparse(sorted) => sorted == s && Increasing(s)
  }

  /** Signed overflow in the subtraction is not defined. */
  datatype KeyLookup = Overflow | Result(found: Option<nat>)

  /** key_table::find. */
  method Find(t: Table, k: int, ghost s: seq<KeyEntry>) returns (r: KeyLookup)
    requires Holds(t, s) && IsInt64(k)
    ensures r.Overflow? <==> t.Dense? && k - t.base >= TWO63
    ensures r.Result? ==> Answers(s, k, r.found)
  {
    if t.Dense? {
      if k < t.base {
        return Result(None);
      }
      if k - t.base >= TWO63 {
        return Overflow;
      }
      if k - t.base >= |t.slots| {
        return Result(None);
      }
      return Result(t.slots[k - t.base]);
    }
    var lo, hi := 0, |t.sorted|;
    while lo < hi
      invariant 0 <= lo <= hi <= |t.sorted|
      invariant forall i :: 0 <= i < lo ==> t.sorted[i].key < k
      invariant forall i :: hi <= i < |t.sorted| ==> t.sorted[i].key > k
    {
      var mid := (lo + hi) / 2;
      if t.sorted[mid].key < k {
        lo := mid + 1;
      } else if t.sorted[mid].key > k {
        hi := mid;
      } else {
        assert t.sorted[mid] in s;
        return Result(Some(t.sorted[mid].index));
      }
    }
    return Result(None);
  }

  /** Strictly increasing: ordered, and no key twice. */
  lemma SortedKeys(s: seq<KeyEntry>, t: seq<KeyEntry>)
    requires DistinctKeys(s) && multiset(s) == multiset(t) && Ranked(t, (e: KeyEntry) => e.key)
    ensures Increasing(t)
  {
    var rank := (e: KeyEntry) => e.key;
    SameElements(s, t);
    forall i, j | 0 <= i < j < |t|
      ensures t[i].key < t[j].key
    {
      assert rank(t[i]) <= rank(t[j]);
      if t[i].key == t[j].key {
        assert t[i] in s && t[j] in s;
        assert t[i] == t[j];
        TwiceIsTwice(t, i, j);
        OnceIsOnce(s, t[i]);
      }
    }
  }

  lemma TwiceIsTwice(t: seq<KeyEntry>, i: nat, j: nat)
    requires i < j < |t| && t[i] == t[j]
    ensures multiset(t)[t[i]] >= 2
  {
    assert t == t[..i] + [t[i]] + t[i + 1..j] + [t[j]] + t[j + 1..];
  }

  lemma OnceIsOnce(s: seq<KeyEntry>, e: KeyEntry)
    requires DistinctKeys(s)
    ensures multiset(s)[e] <= 1
    decreases |s|
  {
    if s != [] {
      assert s == [s[0]] + s[1..];
      OnceIsOnce(s[1..], e);
      if s[0] == e {
        forall j | 0 <= j < |s[1..]|
          ensures s[1..][j] != e
        {
          assert s[1..][j] == s[j + 1];
        }
      }
    }
  }

  datatype Built = Rejected | Built(table: Table)

  /** Two keys so far apart that their difference overflows. */
  ghost predicate TooWide(s: seq<KeyEntry>) {
    exists d, e :: d in s && e in s && e.key - d.key >= TWO63
  }

  /** All keys lie within a span of 256. */
  ghost predicate Narrow(s: seq<KeyEntry>) {
    s != [] && forall d, e :: d in s && e in s ==> e.key - d.key < 256
  }

  ghost predicate IsLeast(s: seq<KeyEntry>, k: int) {
    (exists e :: e in s && e.key == k) && forall e :: e in s ==> k <= e.key
  }

  lemma Span(s: seq<KeyEntry>, t: seq<KeyEntry>)
    requires multiset(s) == multiset(t) && Increasing(t) && t != []
    ensures forall e :: e in t ==> t[0].key <= e.key <= t[|t| - 1].key
    ensures TooWide(s) <==> t[|t| - 1].key - t[0].key >= TWO63
    ensures Narrow(s) <==> t[|t| - 1].key - t[0].key < 256
    ensures t[0] in s && IsLeast(s, t[0].key)
  {
    SameElements(s, t);
    var d, e := t[0], t[|t| - 1];
    assert d in s && e in s;
    forall x | x in t
      ensures t[0].key <= x.key <= t[|t| - 1].key
    {
      var i :| 0 <= i < |t| && t[i] == x;
    }
  }

  /** One slot per key between the smallest and the largest. */
  method FillSlots(sorted: seq<KeyEntry>, lo: int, n: nat) returns (slots: seq<Option<nat>>)
    requires Increasing(sorted) && forall e :: e in sorted ==> 0 <= e.key - lo < n
    ensures |slots| == n && forall i :: 0 <= i < n ==> Answers(sorted, lo + i, slots[i])
  {
    slots := seq(n, _ => None);
    for k := 0 to |sorted|
      invariant |slots| == n
      invariant forall i :: 0 <= i < n ==> Answers(sorted[..k], lo + i, slots[i])
    {
      assert sorted[k] in sorted;
      var filled := slots[sorted[k].key - lo := Some(sorted[k].index)];
      SlotFilled(sorted, k, lo, slots, filled);
      slots := filled;
    }
    assert sorted[..|sorted|] == sorted;
  }

  lemma SlotFilled(sorted: seq<KeyEntry>, k: nat, lo: int, slots: seq<Option<nat>>, filled: seq<Option<nat>>)
    requires k < |sorted| && 0 <= sorted[k].key - lo < |slots| && Increasing(sorted)
    requires forall i :: 0 <= i < |slots| ==> Answers(sorted[..k], lo + i, slots[i])
    requires filled == slots[sorted[k].key - lo := Some(sorted[k].index)]
    ensures forall i :: 0 <= i < |filled| ==> Answers(sorted[..k + 1], lo + i, filled[i])
  {
    assert sorted[..k + 1] == sorted[..k] + [sorted[k]];
    forall i | 0 <= i < |filled|
      ensures Answers(sorted[..k + 1], lo + i, filled[i])
    {
      assert Answers(sorted[..k], lo + i, slots[i]);
    }
  }

  /** build_key_table: slots when the keys span less than 256, else sorted entries. A span that overflows is no
      program. */
  method Build(entries: seq<KeyEntry>) returns (r: Built, ghost s: seq<KeyEntry>)
    requires DistinctKeys(entries) && forall e :: e in entries ==> IsInt64(e.key)
    ensures multiset(s) == multiset(entries)
    ensures r.Rejected? <==> TooWide(entries)
    ensures r.Built? ==>
              && Holds(r.table, s) && (r.table.Dense? <==> Narrow(entries))
              && (r.table.Dense? ==> IsLeast(entries, r.table.base))
  {
    hide TooWide, Increasing, Answers, Narrow, IsLeast;
    var sorted := Sort(entries, (e: KeyEntry) => e.key);
    s := sorted;
    SortedKeys(entries, sorted);
    if sorted == [] {
      NothingWide(entries, sorted);
      return Built(Sparse(sorted)), s;
    }
    Span(entries, sorted);
    var lo, hi := sorted[0].key, sorted[|sorted| - 1].key;
    if hi - lo >= TWO63 {
      return Rejected, s;
    }
    if hi - lo >= 256 {
      return Built(Sparse(sorted)), s;
    }
    assert sorted[|sorted| - 1] in sorted;
    var slots := FillSlots(sorted, lo, hi - lo + 1);
    return Built(Dense(lo, slots)), s;
  }

  lemma NothingWide(s: seq<KeyEntry>, t: seq<KeyEntry>)
    requires multiset(s) == multiset(t) && t == []
    ensures !TooWide(s) && !Narrow(s)
  {
    SameElements(s, t);
  }

  /** The table built from distinct keys finds exactly what a scan finds, except that the subtraction overflows
      if and only if the keys lie close together and `k` lies 2^63 or more above the least of them. */
  method Lookup(entries: seq<KeyEntry>, k: int) returns (r: KeyLookup)
    requires DistinctKeys(entries) && IsInt64(k) && (forall e :: e in entries ==> IsInt64(e.key)) && !TooWide(entries)
    ensures r.Overflow? <==> Narrow(entries) && exists low :: IsLeast(entries, low) && k - low >= TWO63
    ensures r.Result? ==> r.found == Scan(entries, k)
  {
    hide TooWide, Narrow, Holds;
    var t, s := Build(entries);
    r := Find(t.table, k, s);
    if r.Result? {
      OneAnswer(entries, s, k, r.found);
    }
  }

  /** A struct with the single key -1: looking up the largest 64-bit integer meets the condition of `Lookup`. */
  lemma OverflowExample()
    ensures var s := [KeyEntry(-1, 0)];
            DistinctKeys(s) && IsInt64(TWO63 - 1) && !TooWide(s) && Narrow(s) && IsLeast(s, -1)
              && TWO63 - 1 - (-1) >= TWO63
  {
    assert [KeyEntry(-1, 0)][0] == KeyEntry(-1, 0);
  }

  // ---- allocation of keys ----

  /** Positive integers below `x` that no explicit key uses. */
  function FreeBelow(taken: set<int>, x: nat): (n: nat)
  {
    if x <= 1 then 0 else FreeBelow(taken, x - 1) + if x - 1 in taken then 0 else 1
  }

  lemma {:induction false} FreeGrows(taken: set<int>, x: nat, y: nat)
    requires x <= y
    ensures FreeBelow(taken, x) <= FreeBelow(taken, y)
    ensures 1 <= x < y && x !in taken ==> FreeBelow(taken, x) < FreeBelow(taken, y)
    decreases y
  {
    if x < y {
      FreeGrows(taken, x, y - 1);
    }
  }

  /** `x` is the positive integer no explicit key uses that has exactly `n` such below it. */
  predicate NthFree(taken: set<int>, n: nat, x: nat) {
    x >= 1 && x !in taken && FreeBelow(taken, x) == n
  }

  /** There is only one. */
  lemma NthFreeUnique(taken: set<int>, n: nat, x: nat, y: nat)
    requires NthFree(taken, n, x) && NthFree(taken, n, y)
    ensures x == y
  {
    if x < y {
      FreeGrows(taken, x, y);
    } else if y < x {
      FreeGrows(taken, y, x);
    }
  }

  function Explicit(fields: seq<Option<int>>): set<int> {
    set i | 0 <= i < |fields| && fields[i].Some? :: fields[i].value
  }

  /** Members without an explicit key before member `i`. */
  function Unkeyed(fields: seq<Option<int>>, i: nat): nat
    requires i <= |fields|
  {
    if i == 0 then 0 else Unkeyed(fields, i - 1) + if fields[i - 1].None? then 1 else 0
  }

  /** bump: the next free integer. It passes each taken value at most once. */
  method Bump(taken: set<int>, start: nat) returns (next: nat)
    requires start >= 1
    ensures next >= start && next !in taken && FreeBelow(taken, next) == FreeBelow(taken, start)
  {
    next := start;
    ghost var ahead := taken;
    while next in taken
      invariant next >= start && FreeBelow(taken, next) == FreeBelow(taken, start)
      invariant forall x :: x in taken && x >= next ==> x in ahead
      decreases |ahead|
    {
      ahead := ahead - {next};
      next := next + 1;
    }
  }

  /** allocated_key: every member's key is found by its own run over the members. */
  method AllocatedKey(fields: seq<Option<int>>, member: nat) returns (key: nat)
    requires member < |fields| && fields[member].None?
    ensures NthFree(Explicit(fields), Unkeyed(fields, member), key)
  {
    var taken := Explicit(fields);
    var next := 1;
    for i := 0 to member
      invariant next >= 1 && FreeBelow(taken, next) == Unkeyed(fields, i)
    {
      if fields[i].None? {
        next := Bump(taken, next);
        next := next + 1;
      }
    }
    key := Bump(taken, next);
  }

  /** The key of a member: the explicit one, or the allocated one. */
  ghost predicate IsKeyOf(fields: seq<Option<int>>, i: nat, k: int)
    requires i < |fields|
  {
    if fields[i].Some? then k == fields[i].value else k >= 0 && NthFree(Explicit(fields), Unkeyed(fields, i), k)
  }

  lemma {:induction false} UnkeyedGrows(fields: seq<Option<int>>, i: nat, j: nat)
    requires i < j <= |fields| && fields[i].None?
    ensures Unkeyed(fields, i) < Unkeyed(fields, j)
    decreases j
  {
    if i < j - 1 {
      UnkeyedGrows(fields, i, j - 1);
    }
  }

  /** With distinct explicit keys, all keys are distinct. */
  lemma KeysDistinct(fields: seq<Option<int>>, i: nat, j: nat, a: int, b: int)
    requires i < j < |fields| && IsKeyOf(fields, i, a) && IsKeyOf(fields, j, b)
    requires forall x, y :: 0 <= x < y < |fields| && fields[x].Some? && fields[y].Some? ==> fields[x] != fields[y]
    ensures a != b
  {
    if fields[i].None? && fields[j].None? {
      UnkeyedGrows(fields, i, j);
    }
  }
}
