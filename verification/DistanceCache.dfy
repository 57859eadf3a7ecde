/** School districts and the cache of great-circle distances between them. The distance
    itself is a parameter; the cache is keyed by the ordered pair of district ids. */
module DistanceCache {
  import opened CsvImport
  import opened Domain

  datatype Point = Point(latitude: real, longitude: real)

  datatype District = District(id: DistrictId, point: Point)

  type Distance = (Point, Point) -> real

  type CacheKey = (DistrictId, DistrictId)

  datatype Entry = Entry(key: CacheKey, km: real)

  /** String order: code point by code point, a prefix first. */
  predicate LexLeq(x: string, y: string) {
    if x == [] then true
    else if y == [] then false
    else x[0] < y[0] || (x[0] == y[0] && LexLeq(x[1..], y[1..]))
  }

  lemma {:induction false} LexTotalOrder(x: string, y: string)
    ensures LexLeq(x, y) || LexLeq(y, x)
    ensures LexLeq(x, y) && LexLeq(y, x) ==> x == y
    ensures x == y ==> LexLeq(x, y)
  {
    if x != [] && y != [] {
      LexTotalOrder(x[1..], y[1..]);
      assert x == [x[0]] + x[1..] && y == [y[0]] + y[1..];
    }
  }

  function CanonicalKey(x: DistrictId, y: DistrictId): CacheKey {
    if LexLeq(x, y) then (x, y) else (y, x)
  }

  /** Both directions of a pair share one key, different pairs never do. */
  lemma CanonicalKeyIsThePair(a: DistrictId, b: DistrictId, c: DistrictId, d: DistrictId)
    ensures CanonicalKey(a, b) == CanonicalKey(c, d) <==> (a == c && b == d) || (a == d && b == c)
    ensures LexLeq(CanonicalKey(a, b).0, CanonicalKey(a, b).1)
  {
    LexTotalOrder(a, b);
    LexTotalOrder(c, d);
  }

  ghost predicate DistinctIds(ds: seq<District>) {
    forall i, j :: 0 <= i < j < |ds| ==> ds[i].id != ds[j].id
  }

  function EntryOf(ds: seq<District>, i: nat, j: nat, dist: Distance): Entry
    requires i < |ds| && j < |ds|
  {
    Entry(CanonicalKey(ds[i].id, ds[j].id), dist(ds[i].point, ds[j].point))
  }

  /** Position p of the listing holds the pair at[p]; no pair twice, i <= j throughout. */
  ghost predicate Lists(ds: seq<District>, dist: Distance, entries: seq<Entry>, at: seq<(nat, nat)>) {
    && |at| == |entries|
    && (forall p :: 0 <= p < |at| ==> at[p].0 <= at[p].1 < |ds| && entries[p] == EntryOf(ds, at[p].0, at[p].1, dist))
    && (forall p, q :: 0 <= p < q < |at| ==> at[p] != at[q])
  }

  /** Everything before row i, and row i before column j. */
  ghost predicate Covers(at: seq<(nat, nat)>, n: nat, i: nat, j: nat) {
    forall k: nat, l: nat :: k <= l < n && (k < i || (k == i && l < j)) <==> (k, l) in at
  }

  lemma RowLength(i: nat, n: nat)
    requires i < n
    ensures i * (2 * n - i + 1) + 2 * (n - i) == (i + 1) * (2 * n - (i + 1) + 1)
  {
  }

  lemma CoversNext(at: seq<(nat, nat)>, n: nat, i: nat, j: nat)
    requires i <= j < n && Covers(at, n, i, j)
    ensures (i, j) !in at && Covers(at + [(i, j)], n, i, j + 1)
  {
  }

  lemma CoversRow(at: seq<(nat, nat)>, n: nat, i: nat)
    requires i < n && Covers(at, n, i, n)
    ensures Covers(at, n, i + 1, i + 1)
  {
  }

  /** The nested triangular loop: every unordered pair once, the diagonal included. */
  method ComputeMatrix(ds: seq<District>, dist: Distance) returns (entries: seq<Entry>, ghost at: seq<(nat, nat)>)
    ensures Lists(ds, dist, entries, at) && Covers(at, |ds|, |ds|, |ds|)
    ensures 2 * |entries| == |ds| * (|ds| + 1)
  {
    entries, at := [], [];
    var n := |ds|;
    var i := 0;
    while i < n
      invariant 0 <= i <= n
      invariant Lists(ds, dist, entries, at) && Covers(at, n, i, i)
      invariant 2 * |entries| == i * (2 * n - i + 1)
    {
      ghost var before := |entries|;
      var j := i;
      while j < n
        invariant i <= j <= n
        invariant Lists(ds, dist, entries, at) && Covers(at, n, i, j)
        invariant |entries| == before + (j - i)
      {
        CoversNext(at, n, i, j);
        entries := entries + [EntryOf(ds, i, j, dist)];
        at := at + [(i, j)];
        j := j + 1;
      }
      CoversRow(at, n, i);
      RowLength(i, n);
      i := i + 1;
    }
    assert n * (2 * n - n + 1) == n * (n + 1);
  }

  ghost predicate DistinctKeys(entries: seq<Entry>) {
    forall p, q :: 0 <= p < q < |entries| ==> entries[p].key != entries[q].key
  }

  /** With distinct ids no two entries share a key, so inserting them never collides. */
  lemma MatrixKeysDistinct(ds: seq<District>, dist: Distance, entries: seq<Entry>, at: seq<(nat, nat)>)
    requires DistinctIds(ds) && Lists(ds, dist, entries, at)
    ensures DistinctKeys(entries)
    ensures forall p :: 0 <= p < |entries| ==> LexLeq(entries[p].key.0, entries[p].key.1)
  {
    forall p, q | 0 <= p < q < |entries|
      ensures entries[p].key != entries[q].key
    {
      var (i, j) := at[p];
      var (k, l) := at[q];
      CanonicalKeyIsThePair(ds[i].id, ds[j].id, ds[k].id, ds[l].id);
    }
    forall p | 0 <= p < |entries|
      ensures LexLeq(entries[p].key.0, entries[p].key.1)
    {
      var (i, j) := at[p];
      CanonicalKeyIsThePair(ds[i].id, ds[j].id, ds[i].id, ds[j].id);
    }
  }

  // ----- The cache against the master -----

  function Lookup(cache: map<CacheKey, real>, a: DistrictId, b: DistrictId): Option<real> {
    if CanonicalKey(a, b) in cache then Some(cache[CanonicalKey(a, b)]) else None
  }

  /** The cache holds exactly the pairs of the master, each measured in listing order. */
  ghost predicate Coherent(master: seq<District>, cache: map<CacheKey, real>, dist: Distance) {
    && DistinctIds(master)
    && Measured(master, cache, dist)
    && (forall k :: k in cache ==> KeyInMaster(master, k))
  }

  ghost predicate Measured(master: seq<District>, cache: map<CacheKey, real>, dist: Distance) {
    forall i, j :: 0 <= i <= j < |master| ==>
      Lookup(cache, master[i].id, master[j].id) == Some(dist(master[i].point, master[j].point))
  }

  ghost predicate KeyInMaster(master: seq<District>, k: CacheKey) {
    exists i, j :: 0 <= i <= j < |master| && k == CanonicalKey(master[i].id, master[j].id)
  }

  ghost predicate NonNegative(dist: Distance) {
    forall p, q :: dist(p, q) >= 0.0
  }

  ghost predicate Symmetric(dist: Distance) {
    forall p, q :: dist(p, q) == dist(q, p)
  }

  ghost predicate InMaster(master: seq<District>, id: DistrictId) {
    exists i :: 0 <= i < |master| && master[i].id == id
  }

  lemma MasterPairHasDistance(master: seq<District>, cache: map<CacheKey, real>, dist: Distance, i: nat, j: nat)
    requires Measured(master, cache, dist) && Symmetric(dist) && i < |master| && j < |master|
    ensures Lookup(cache, master[i].id, master[j].id) == Some(dist(master[i].point, master[j].point))
  {
    if i > j {
      CanonicalKeyIsThePair(master[i].id, master[j].id, master[j].id, master[i].id);
      assert Lookup(cache, master[j].id, master[i].id) == Some(dist(master[j].point, master[i].point));
    }
  }

  lemma HitIsMasterPair(master: seq<District>, cache: map<CacheKey, real>, dist: Distance, a: DistrictId, b: DistrictId)
    requires Coherent(master, cache, dist) && Lookup(cache, a, b).Some?
    ensures InMaster(master, a) && InMaster(master, b)
  {
    assert KeyInMaster(master, CanonicalKey(a, b));
    var i, j :| 0 <= i <= j < |master| && CanonicalKey(a, b) == CanonicalKey(master[i].id, master[j].id);
    CanonicalKeyIsThePair(a, b, master[i].id, master[j].id);
  }

  lemma PairsMeasured(master: seq<District>, cache: map<CacheKey, real>, dist: Distance, a: DistrictId, b: DistrictId)
    requires Coherent(master, cache, dist) && Symmetric(dist)
    ensures forall i, j :: 0 <= i < |master| && 0 <= j < |master| && master[i].id == a && master[j].id == b ==>
              Lookup(cache, a, b) == Some(dist(master[i].point, master[j].point))
    ensures InMaster(master, a) && InMaster(master, b) ==> Lookup(cache, a, b).Some?
  {
    forall i, j | 0 <= i < |master| && 0 <= j < |master| && master[i].id == a && master[j].id == b
      ensures Lookup(cache, a, b) == Some(dist(master[i].point, master[j].point))
    {
      MasterPairHasDistance(master, cache, dist, i, j);
    }
  }

  /** Coherence, as a caller sees it: both directions agree; they give the distance
      between the two districts if both are in the master, and nothing otherwise. */
  lemma CacheAnswers(master: seq<District>, cache: map<CacheKey, real>, dist: Distance, a: DistrictId, b: DistrictId)
    requires Coherent(master, cache, dist) && Symmetric(dist)
    ensures Lookup(cache, a, b) == Lookup(cache, b, a)
    ensures Lookup(cache, a, b).Some? <==> InMaster(master, a) && InMaster(master, b)
    ensures forall i, j :: 0 <= i < |master| && 0 <= j < |master| && master[i].id == a && master[j].id == b ==>
              Lookup(cache, a, b) == Some(dist(master[i].point, master[j].point))
  {
    hide *;
    LookupSymmetric(cache, a, b);
    PairsMeasured(master, cache, dist, a, b);
    if Lookup(cache, a, b).Some? {
      HitIsMasterPair(master, cache, dist, a, b);
    }
  }

  lemma LookupSymmetric(cache: map<CacheKey, real>, a: DistrictId, b: DistrictId)
    ensures Lookup(cache, a, b) == Lookup(cache, b, a)
  {
    CanonicalKeyIsThePair(a, b, b, a);
  }

  function CacheOf(entries: seq<Entry>): map<CacheKey, real> {
    if entries == [] then map[]
    else CacheOf(entries[..|entries| - 1])[entries[|entries| - 1].key := entries[|entries| - 1].km]
  }

  lemma {:induction false} CacheOfHolds(entries: seq<Entry>)
    requires DistinctKeys(entries)
    ensures forall p :: 0 <= p < |entries| ==>
              entries[p].key in CacheOf(entries) && CacheOf(entries)[entries[p].key] == entries[p].km
    ensures forall k :: k in CacheOf(entries) ==> exists p :: 0 <= p < |entries| && entries[p].key == k
  {
    if entries != [] {
      var rest := entries[..|entries| - 1];
      CacheOfHolds(rest);
      forall k | k in CacheOf(entries)
        ensures exists p :: 0 <= p < |entries| && entries[p].key == k
      {
        if k in CacheOf(rest) {
          var p :| 0 <= p < |rest| && rest[p].key == k;
          assert entries[p].key == k;
        } else {
          assert entries[|entries| - 1].key == k;
        }
      }
    }
  }

  /** One more entry keeps the keys distinct iff the cache so far does not hold its key. */
  lemma KeyIsNew(entries: seq<Entry>, p: nat)
    requires p < |entries| && DistinctKeys(entries[..p])
    ensures DistinctKeys(entries[..p + 1]) <==> entries[p].key !in CacheOf(entries[..p])
    ensures DistinctKeys(entries) ==> DistinctKeys(entries[..p + 1])
  {
    CacheOfHolds(entries[..p]);
    if entries[p].key in CacheOf(entries[..p]) {
      var q :| 0 <= q < p && entries[..p][q].key == entries[p].key;
      assert entries[..p + 1][q].key == entries[..p + 1][p].key;
    }
  }

  lemma EntryIsStored(ds: seq<District>, dist: Distance, entries: seq<Entry>, at: seq<(nat, nat)>, i: nat, j: nat)
    requires Lists(ds, dist, entries, at) && DistinctKeys(entries) && i <= j < |ds| && (i, j) in at
    ensures Lookup(CacheOf(entries), ds[i].id, ds[j].id) == Some(dist(ds[i].point, ds[j].point))
  {
    CacheOfHolds(entries);
    var p :| 0 <= p < |at| && at[p] == (i, j);
    hide CanonicalKey, CacheOf, LexLeq;
    assert entries[p] == EntryOf(ds, i, j, dist);
  }

  lemma KeyIsKnown(ds: seq<District>, dist: Distance, entries: seq<Entry>, at: seq<(nat, nat)>, k: CacheKey)
    requires Lists(ds, dist, entries, at) && DistinctKeys(entries) && k in CacheOf(entries)
    ensures KeyInMaster(ds, k)
  {
    CacheOfHolds(entries);
    var p :| 0 <= p < |at| && entries[p].key == k;
    hide CanonicalKey, CacheOf, LexLeq;
    assert k == CanonicalKey(ds[at[p].0].id, ds[at[p].1].id);
  }

  lemma MatrixIsCoherent(ds: seq<District>, dist: Distance, entries: seq<Entry>, at: seq<(nat, nat)>)
    requires DistinctIds(ds) && Lists(ds, dist, entries, at) && Covers(at, |ds|, |ds|, |ds|)
    ensures Coherent(ds, CacheOf(entries), dist)
  {
    hide Lists, DistinctKeys, DistinctIds, KeyInMaster, CacheOf, Lookup;
    MatrixKeysDistinct(ds, dist, entries, at);
    forall i, j | 0 <= i <= j < |ds|
      ensures Lookup(CacheOf(entries), ds[i].id, ds[j].id) == Some(dist(ds[i].point, ds[j].point))
    {
      assert (i, j) in at;
      EntryIsStored(ds, dist, entries, at, i, j);
    }
    forall k | k in CacheOf(entries)
      ensures KeyInMaster(ds, k)
    {
      KeyIsKnown(ds, dist, entries, at, k);
    }
  }

  // ----- The stored master and its import -----

  /** One CSV row; `point` is None when its coordinates do not parse or are out of range. */
  datatype DistrictRow = DistrictRow(id: DistrictId, point: Option<Point>)

  function RowId(r: DistrictRow): Option<DistrictId> { Some(r.id) }

  function BuildDistrict(r: DistrictRow): Option<District> {
    if r.point.Some? then Some(District(r.id, r.point.value)) else None
  }

  lemma BuiltDistrictsDistinct(rows: seq<DistrictRow>)
    requires GoodRows(rows, RowId, BuildDistrict)
    ensures DistinctIds(Built(rows, BuildDistrict)) && |Built(rows, BuildDistrict)| == |rows|
  {
    GoodRowsMean(rows, RowId, BuildDistrict);
    BuiltAll(rows, BuildDistrict);
    forall i, j | 0 <= i < j < |rows|
      ensures Built(rows, BuildDistrict)[i].id != Built(rows, BuildDistrict)[j].id
    {
      assert RowId(rows[i]) != RowId(rows[j]);
      assert Some(Built(rows, BuildDistrict)[i]) == BuildDistrict(rows[i])
             && Some(Built(rows, BuildDistrict)[j]) == BuildDistrict(rows[j]);
    }
  }

  predicate IdsClash(master: seq<District>, ds: seq<District>) {
    exists i, j :: 0 <= i < |master| && 0 <= j < |ds| && master[i].id == ds[j].id
  }

  lemma AppendKeepsDistinct(master: seq<District>, ds: seq<District>)
    requires DistinctIds(master) && DistinctIds(ds) && !IdsClash(master, ds)
    ensures DistinctIds(master + ds)
  {
  }

  /** Both tables. A transaction works on values and is stored only when it commits, so an
      exception, or the failure the caller injects, leaves the tables as they were. */
  class DistanceStore {
    const dist: Distance
    var master: seq<District>
    var cache: map<CacheKey, real>

    ghost predicate Valid()
      reads this
    {
      Coherent(master, cache, dist)
    }

    constructor (dist: Distance)
      ensures Valid() && master == [] && cache == map[] && this.dist == dist
    {
      this.dist, master, cache := dist, [], map[];
    }

    /** Inserting the entries one by one into the emptied cache; a key already present or
        out of order violates the table's constraints. */
    static method PutDistances(entries: seq<Entry>) returns (stored: Option<map<CacheKey, real>>)
      ensures stored.Some? <==>
                DistinctKeys(entries) && forall p :: 0 <= p < |entries| ==> LexLeq(entries[p].key.0, entries[p].key.1)
      ensures stored.Some? ==> stored.value == CacheOf(entries)
    {
      var table: map<CacheKey, real> := map[];
      var p := 0;
      while p < |entries|
        invariant 0 <= p <= |entries|
        invariant table == CacheOf(entries[..p])
        invariant DistinctKeys(entries[..p])
        invariant forall q :: 0 <= q < p ==> LexLeq(entries[q].key.0, entries[q].key.1)
      {
        hide LexLeq;
        KeyIsNew(entries, p);
        var e := entries[p];
        if e.key in table || !LexLeq(e.key.0, e.key.1) {
          return None;
        }
        assert entries[..p + 1][..p] == entries[..p];
        table := table[e.key := e.km];
        p := p + 1;
      }
      assert entries[..|entries|] == entries;
      stored := Some(table);
    }

    /** The cache for a whole master: the insertion never fails. */
    static method Recompute(all: seq<District>, dist: Distance) returns (table: Option<map<CacheKey, real>>)
      requires DistinctIds(all)
      ensures table.Some? && Coherent(all, table.value, dist)
    {
      var entries, at := ComputeMatrix(all, dist);
      MatrixKeysDistinct(all, dist, entries, at);
      MatrixIsCoherent(all, dist, entries, at);
      table := PutDistances(entries);
    }

    /** The transaction: insert the districts, recompute the cache. */
    method Commit(districts: seq<District>, fails: bool) returns (committed: bool)
      requires Valid() && DistinctIds(districts)
      modifies this`master, this`cache
      ensures Valid()
      ensures committed <==> !fails && !IdsClash(old(master), districts)
      ensures committed ==> master == old(master) + districts
      ensures !committed ==> master == old(master) && cache == old(cache)
    {
      if IdsClash(master, districts) {
        return false;
      }
      var all := master + districts;
      AppendKeepsDistinct(master, districts);
      var table := Recompute(all, dist);
      if fails {
        return false;
      }
      master, cache := all, table.value;
      committed := true;
    }

    /** `import_school_districts`: checks, then master and recomputed cache in one transaction.
        `fails` injects a failure inside it. */
    method Import(rows: seq<DistrictRow>, fails: bool) returns (outcome: Outcome)
      requires Valid()
      modifies this`master, this`cache
      ensures Valid()
      ensures outcome.Rejected? <==> !GoodRows(rows, RowId, BuildDistrict)
      ensures outcome.Rejected? ==>
                forall i :: 0 <= i < |rows| ==> (i + 2 in outcome.lines <==> !GoodRow(rows, RowId, BuildDistrict, i))
      ensures outcome.Imported? <==>
                GoodRows(rows, RowId, BuildDistrict) && !fails && !IdsClash(old(master), Built(rows, BuildDistrict))
      ensures outcome.Imported? ==> outcome.count == |rows| && master == old(master) + Built(rows, BuildDistrict)
      ensures !outcome.Imported? ==> master == old(master) && cache == old(cache)
    {
      var districts, errors := CheckRows(rows, RowId, BuildDistrict);
      if errors != [] {
        return Rejected(errors);
      }
      BuiltDistrictsDistinct(rows);
      var committed := Commit(districts, fails);
      outcome := if committed then Imported(|districts|) else RolledBack;
    }

    method GetDistance(a: DistrictId, b: DistrictId) returns (km: Option<real>)
      requires Valid()
      ensures km == Lookup(cache, a, b)
      ensures Symmetric(dist) ==> (km.Some? <==> InMaster(master, a) && InMaster(master, b))
      ensures Symmetric(dist) ==> km == Lookup(cache, b, a)
      ensures Symmetric(dist) ==>
                forall i, j :: 0 <= i < |master| && 0 <= j < |master| && master[i].id == a && master[j].id == b ==>
                km == Some(dist(master[i].point, master[j].point))
    {
      if Symmetric(dist) {
        CacheAnswers(master, cache, dist, a, b);
      }
      var key := CanonicalKey(a, b);
      km := if key in cache then Some(cache[key]) else None;
    }
  }
}
