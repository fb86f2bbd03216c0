/** Wire name to field index: a seeded bucket table against a linear scan. */
module Lookup {
  import opened Bytes
  import opened Utf8
  import opened RankSort

  datatype Entry = Entry(key: seq<byte>, index: nat)

  const LINEAR_LIMIT: nat := 8

  /** Length, first and last byte, mixed in 32 bits. */
  function Hash(k: seq<byte>, seed: nat): (h: nat) {
    var h0: bv32 := (|k| % TWO32) as bv32 * 0x9E3779B1;
    var h1: bv32 := if k == [] then h0 else h0 ^ ((k[0] as bv32) * 0x85EBCA6B) ^ ((k[|k| - 1] as bv32) * 0xC2B2AE35);
    var h2: bv32 := h1 * ((seed % TWO32) as bv32 | 1);
    (h2 ^ (h2 >> 15)) as int
  }

  /** The bucket count is a power of two, so masking is the remainder. */
  function Bucket(k: seq<byte>, seed: nat, m: nat): (b: nat)
    requires m > 0
    ensures b < m
  {
    Hash(k, seed) % m
  }

  // ---- the reference: a scan ----

  function Scan(s: seq<Entry>, key: seq<byte>): Option<nat> {
    if s == [] then None else if s[0].key == key then Some(s[0].index) else Scan(s[1..], key)
  }

  predicate DistinctKeys(s: seq<Entry>) {
    forall i, j :: 0 <= i < j < |s| ==> s[i].key != s[j].key
  }

  /** `r` is the index under `key`, or nothing if no entry has that key. */
  predicate Answers(s: seq<Entry>, key: seq<byte>, r: Option<nat>) {
    match r
    case Some(v) => exists i :: 0 <= i < |s| && s[i].key == key && s[i].index == v
    case None => forall i :: 0 <= i < |s| ==> s[i].key != key
  }

  lemma {:induction false} ScanAnswers(s: seq<Entry>, key: seq<byte>)
    ensures Answers(s, key, Scan(s, key))
    decreases |s|
  {
    if s != [] && s[0].key != key {
      ScanAnswers(s[1..], key);
      var r := Scan(s[1..], key);
      if r.Some? {
        var i :| 0 <= i < |s[1..]| && s[1..][i].key == key && s[1..][i].index == r.value;
        assert s[i + 1].key == key && s[i + 1].index == r.value;
      } else {
        forall i | 0 <= i < |s|
          ensures s[i].key != key
        {
          assert i > 0 ==> s[i] == s[1..][i - 1];
        }
      }
    }
  }

  /** With distinct keys there is one answer, whatever the order of the entries. */
  lemma OneAnswer(s: seq<Entry>, t: seq<Entry>, key: seq<byte>, r: Option<nat>)
    requires DistinctKeys(s) && multiset(s) == multiset(t) && Answers(t, key, r)
    ensures r == Scan(s, key)
  {
    SameElements(s, t);
    ScanAnswers(s, key);
    var q := Scan(s, key);
    if r.Some? {
      var i :| 0 <= i < |t| && t[i].key == key && t[i].index == r.value;
      assert t[i] in s;
    } else {
      forall i | 0 <= i < |s|
        ensures s[i].key != key
      {
        assert s[i] in t;
      }
    }
  }

  // ---- counting ----

  /** Entries whose bucket lies below `b`. */
  function Below(s: seq<Entry>, seed: nat, m: nat, b: nat): (n: nat)
    requires m > 0
    ensures n <= |s|
  {
    if s == [] then 0 else Below(s[..|s| - 1], seed, m, b) + if Bucket(s[|s| - 1].key, seed, m) < b then 1 else 0
  }

  /** Entries in bucket `b`. */
  function Load(s: seq<Entry>, seed: nat, m: nat, b: nat): (n: nat)
    requires m > 0
    ensures n <= |s|
  {
    if s == [] then 0 else Load(s[..|s| - 1], seed, m, b) + if Bucket(s[|s| - 1].key, seed, m) == b then 1 else 0
  }

  lemma {:induction false} BelowSplits(s: seq<Entry>, seed: nat, m: nat, b: nat)
    requires m > 0
    ensures Below(s, seed, m, b + 1) == Below(s, seed, m, b) + Load(s, seed, m, b) && Below(s, seed, m, 0) == 0
    decreases |s|
  {
    hide Bucket;
    if s != [] {
      BelowSplits(s[..|s| - 1], seed, m, b);
    }
  }

  /** Entries ordered by bucket: those below `b` come first. */
  lemma {:induction false} BelowIsPrefix(s: seq<Entry>, seed: nat, m: nat, b: nat, i: nat)
    requires m > 0 && i < |s|
    requires forall x, y :: 0 <= x < y < |s| ==> Bucket(s[x].key, seed, m) <= Bucket(s[y].key, seed, m)
    ensures i < Below(s, seed, m, b) <==> Bucket(s[i].key, seed, m) < b
    decreases |s|
  {
    hide Bucket;
    var n := |s| - 1;
    var t := s[..n];
    if i < n {
      BelowIsPrefix(t, seed, m, b, i);
      assert t[i] == s[i];
    } else if n > 0 {
      BelowIsPrefix(t, seed, m, b, n - 1);
      assert t[n - 1] == s[n - 1];
      assert Bucket(s[n - 1].key, seed, m) <= Bucket(s[n].key, seed, m);
      if Bucket(s[n - 1].key, seed, m) < b {
        assert Below(t, seed, m, b) == n;
      }
    }
  }

  // ---- the table ----

  datatype Table = Table(entries: seq<Entry>, starts: seq<nat>, buckets: nat, seed: nat) {
    /** Without buckets any list will do; with them, bucket `b` lies between its start and the next. */
    predicate Good() {
      buckets > 0 ==>
        && |starts| == buckets + 1
        && (forall b :: 0 <= b <= buckets ==> starts[b] <= |entries|)
        && (forall b, i ::
              0 <= b <= buckets && 0 <= i < |entries| ==>
              (i < starts[b] <==> Bucket(entries[i].key, seed, buckets) < b))
    }
  }

  /** lookup_table::find. */
  method Find(t: Table, key: seq<byte>) returns (r: Option<nat>)
    requires t.Good()
    ensures Answers(t.entries, key, r)
  {
    hide Bucket;
    var from, to := 0, |t.entries|;
    if t.buckets > 0 {
      var b := Bucket(key, t.seed, t.buckets);
      from, to := t.starts[b], t.starts[b + 1];
      assert forall i :: 0 <= i < |t.entries| && t.entries[i].key == key ==> from <= i < to;
    }
    var i := from;
    while i < to
      invariant from <= i
      invariant forall k :: from <= k < i && k < to ==> t.entries[k].key != key
    {
      if t.entries[i].key == key {
        return Some(t.entries[i].index);
      }
      i := i + 1;
    }
    return None;
  }

  /** Offsets of the buckets of a list ordered by bucket: counts, then prefix sums. */
  method Starts(sorted: seq<Entry>, seed: nat, m: nat) returns (starts: array<nat>)
    requires m > 0
    ensures fresh(starts) && starts.Length == m + 1
    ensures forall b :: 0 <= b <= m ==> starts[b] == Below(sorted, seed, m, b)
  {
    hide Bucket, Below, Load;
    starts := new nat[m + 1](_ => 0);
    NoLoad(seed, m);
    for k := 0 to |sorted|
      invariant starts[0] == 0
      invariant forall b :: 1 <= b <= m ==> starts[b] == Load(sorted[..k], seed, m, b - 1)
    {
      var at := Bucket(sorted[k].key, seed, m) + 1;
      OneMore(sorted, k, seed, m);
      starts[at] := starts[at] + 1;
    }
    assert sorted[..|sorted|] == sorted;
    BelowSplits(sorted, seed, m, 0);
    for i := 1 to m + 1
      invariant forall b :: 0 <= b < i ==> starts[b] == Below(sorted, seed, m, b)
      invariant forall b :: i <= b <= m ==> starts[b] == Load(sorted, seed, m, b - 1)
    {
      BelowSplits(sorted, seed, m, i - 1);
      starts[i] := starts[i] + starts[i - 1];
    }
  }

  lemma NoLoad(seed: nat, m: nat)
    requires m > 0
    ensures forall s: seq<Entry>, b: nat :: s == [] ==> Load(s, seed, m, b) == 0
  {
  }

  lemma OneMore(s: seq<Entry>, k: nat, seed: nat, m: nat)
    requires m > 0 && k < |s|
    ensures forall b: nat :: Load(s[..k + 1], seed, m, b) == Load(s[..k], seed, m, b) + if Bucket(s[k].key, seed, m)
            == b then 1 else 0
  {
    assert s[..k + 1][..k] == s[..k];
  }

  /** The number of buckets: the first power of two that is at least twice the number of entries. */
  method BucketCount(n: nat) returns (m: nat)
    ensures m > 0 && 2 * n <= m && (m == 1 || m < 4 * n)
  {
    m := 1;
    while m < n * 2
      invariant m > 0 && (m == 1 || m < 4 * n)
      decreases n * 2 - m
    {
      m := m * 2;
    }
  }

  /** `w` is the load of the fullest bucket. */
  ghost predicate Worst(s: seq<Entry>, seed: nat, m: nat, w: nat)
    requires m > 0
  {
    (forall b: nat :: Load(s, seed, m, b) <= w) && (exists b: nat :: Load(s, seed, m, b) == w)
  }

  lemma WorseOrSame(s: seq<Entry>, k: nat, seed: nat, m: nat, w: nat, w': nat)
    requires m > 0 && k < |s| && Worst(s[..k], seed, m, w)
    requires var l := Load(s[..k + 1], seed, m, Bucket(s[k].key, seed, m)); w' == if l > w then l else w
    ensures Worst(s[..k + 1], seed, m, w') && w' >= 1
  {
    hide Load, Bucket;
    OneMore(s, k, seed, m);
    var at, t := Bucket(s[k].key, seed, m), s[..k + 1];
    var l := Load(t, seed, m, at);
    assert l == Load(s[..k], seed, m, at) + 1;
    forall b: nat
      ensures Load(t, seed, m, b) <= w'
    {
      assert Load(s[..k], seed, m, b) <= w;
    }
    if l > w {
      assert Load(t, seed, m, at) == w';
    } else {
      var b: nat :| Load(s[..k], seed, m, b) == w;
      assert Load(t, seed, m, b) == w';
    }
  }

  /** The fullest bucket under one seed. */
  method WorstLoad(s: seq<Entry>, seed: nat, m: nat) returns (w: nat)
    requires m > 0
    ensures Worst(s, seed, m, w) && (s != [] ==> w >= 1)
  {
    hide Bucket, Load;
    var load := new nat[m](_ => 0);
    w := 0;
    NoLoad(seed, m);
    assert Load(s[..0], seed, m, 0) == 0;
    for k := 0 to |s|
      invariant forall b :: 0 <= b < m ==> load[b] == Load(s[..k], seed, m, b)
      invariant Worst(s[..k], seed, m, w) && (k > 0 ==> w >= 1)
    {
      var at := Bucket(s[k].key, seed, m);
      OneMore(s, k, seed, m);
      load[at] := load[at] + 1;
      ghost var before := w;
      w := if load[at] > w then load[at] else w;
      WorseOrSame(s, k, seed, m, before, w);
    }
    assert s[..|s|] == s;
  }

  /** The seed with the shortest longest bucket among 1..63; the search stops early at a perfect one. */
  method ChooseSeed(s: seq<Entry>, m: nat) returns (best: nat, ghost least: nat)
    requires m > 0 && s != []
    ensures 1 <= best < 64 && Worst(s, best, m, least)
    ensures forall seed: nat, w: nat :: 1 <= seed < 64 && Worst(s, seed, m, w) ==> least <= w
  {
    hide Worst;
    var bestWorst := |s| + 1;
    best, least := 1, 0;
    for seed := 1 to 64
      invariant seed == 1 ==> bestWorst == |s| + 1
      invariant seed > 1 ==> 1 <= best < 64 && Worst(s, best, m, least) && bestWorst == least
      invariant forall x: nat, w: nat :: 1 <= x < seed && Worst(s, x, m, w) ==> bestWorst <= w
    {
      var worst := WorstLoad(s, seed, m);
      WorstUnique(s, seed, m, worst);
      if worst < bestWorst {
        bestWorst, best := worst, seed;
        least := worst;
      }
      if worst == 1 {
        forall x: nat, w: nat | 1 <= x < 64 && Worst(s, x, m, w)
          ensures least <= w
        {
          WorstPositive(s, x, m, w);
        }
        return;
      }
    }
  }

  lemma WorstUnique(s: seq<Entry>, seed: nat, m: nat, w: nat)
    requires m > 0 && Worst(s, seed, m, w)
    ensures w <= |s| && forall v: nat :: Worst(s, seed, m, v) ==> v == w
  {
    hide Load;
  }

  lemma WorstPositive(s: seq<Entry>, seed: nat, m: nat, w: nat)
    requires m > 0 && s != [] && Worst(s, seed, m, w)
    ensures w >= 1
  {
    var n := |s| - 1;
    assert Load(s, seed, m, Bucket(s[n].key, seed, m)) >= 1;
  }

  /** build_lookup: a scan for few names, else buckets by sort and prefix sums. */
  method Build(entries: seq<Entry>) returns (t: Table)
    ensures t.Good() && multiset(t.entries) == multiset(entries)
    ensures t.buckets == 0 <==> |entries| <= LINEAR_LIMIT
  {
    hide Bucket, Below, Load, Worst;
    if |entries| <= LINEAR_LIMIT {
      return Table(entries, [], 0, 0);
    }
    var m := BucketCount(|entries|);
    var seed, _ := ChooseSeed(entries, m);
    var sorted := Sort(entries, (e: Entry) => Bucket(e.key, seed, m));
    var starts := Starts(sorted, seed, m);
    t := Table(sorted, starts[..], m, seed);
    forall b, i | 0 <= b <= m && 0 <= i < |sorted|
      ensures i < starts[b] <==> Bucket(sorted[i].key, seed, m) < b
    {
      BelowIsPrefix(sorted, seed, m, b, i);
    }
  }

  /** The table built from distinct names finds exactly what a scan over them finds. */
  method Lookup(entries: seq<Entry>, key: seq<byte>) returns (r: Option<nat>)
    requires DistinctKeys(entries)
    ensures r == Scan(entries, key)
  {
    var t := Build(entries);
    r := Find(t, key);
    OneAnswer(entries, t.entries, key, r);
  }
}
