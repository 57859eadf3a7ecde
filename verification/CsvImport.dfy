/** The two phases every CSV import shares: check every row, keeping each error with its
    line; only if there was none, store all the records in one transaction. */
module CsvImport {
  import opened Domain

  datatype Outcome = Imported(count: nat) | Rejected(lines: seq<nat>) | RolledBack

  /** Row i passes: it has a key, no earlier row has the same one, and its record builds. */
  ghost predicate GoodRow<R, K(!new), V>(rows: seq<R>, key: R -> Option<K>, build: R -> Option<V>, i: nat)
    requires i < |rows|
  {
    && key(rows[i]).Some?
    && (forall h :: 0 <= h < i ==> key(rows[h]) != key(rows[i]))
    && build(rows[i]).Some?
  }

  ghost predicate GoodRows<R, K(!new), V>(rows: seq<R>, key: R -> Option<K>, build: R -> Option<V>) {
    forall i :: 0 <= i < |rows| ==> GoodRow(rows, key, build, i)
  }

  lemma GoodRowsMean<R, K(!new), V>(rows: seq<R>, key: R -> Option<K>, build: R -> Option<V>)
    requires GoodRows(rows, key, build)
    ensures forall i :: 0 <= i < |rows| ==> key(rows[i]).Some? && build(rows[i]).Some?
    ensures forall i, j :: 0 <= i < j < |rows| ==> key(rows[i]) != key(rows[j])
  {
    forall i | 0 <= i < |rows|
      ensures key(rows[i]).Some? && build(rows[i]).Some?
    {
      assert GoodRow(rows, key, build, i);
    }
    forall i, j | 0 <= i < j < |rows|
      ensures key(rows[i]) != key(rows[j])
    {
      assert GoodRow(rows, key, build, j);
    }
  }

  /** The records of the rows, in order, skipping rows without one. */
  function Built<R, V>(rows: seq<R>, build: R -> Option<V>): seq<V> {
    if rows == [] then []
    else
      var last := build(rows[|rows| - 1]);
      Built(rows[..|rows| - 1], build) + if last.Some? then [last.value] else []
  }

  lemma {:induction false} BuiltAll<R, V>(rows: seq<R>, build: R -> Option<V>)
    requires forall i :: 0 <= i < |rows| ==> build(rows[i]).Some?
    ensures |Built(rows, build)| == |rows|
    ensures forall i :: 0 <= i < |rows| ==> Some(Built(rows, build)[i]) == build(rows[i])
  {
    if rows != [] {
      BuiltAll(rows[..|rows| - 1], build);
    }
  }

  lemma OneMoreGoodRow<R, K(!new), V>(rows: seq<R>, key: R -> Option<K>, build: R -> Option<V>, i: nat)
    requires i < |rows|
    ensures GoodRows(rows[..i + 1], key, build) <==> GoodRows(rows[..i], key, build) && GoodRow(rows, key, build, i)
  {
    var all, some := rows[..i + 1], rows[..i];
    assert forall h :: 0 <= h <= i ==> all[h] == rows[h];
    assert forall h :: 0 <= h < i ==> some[h] == rows[h];
    assert forall h: nat :: h <= i ==> (GoodRow(all, key, build, h) <==> GoodRow(rows, key, build, h));
    assert forall h: nat :: h < i ==> (GoodRow(some, key, build, h) <==> GoodRow(rows, key, build, h));
    if GoodRows(all, key, build) {
      assert forall h: nat :: h <= i ==> GoodRow(all, key, build, h);
    }
  }

  /** Exactly the lines of the bad rows are reported (line 1 is the header); with none, the
      records are those of all the rows. */
  method CheckRows<R, K(!new,==), V>(rows: seq<R>, key: R -> Option<K>, build: R -> Option<V>)
    returns (values: seq<V>, errors: seq<nat>)
    ensures errors == [] <==> GoodRows(rows, key, build)
    ensures forall i :: 0 <= i < |rows| ==> (i + 2 in errors <==> !GoodRow(rows, key, build, i))
    ensures GoodRows(rows, key, build) ==> values == Built(rows, build)
  {
    values, errors := [], [];
    var seen: set<K> := {};
    var i := 0;
    while i < |rows|
      invariant 0 <= i <= |rows|
      invariant forall k :: k in seen <==> exists h :: 0 <= h < i && key(rows[h]) == Some(k)
      invariant forall e :: e in errors ==> 2 <= e < i + 2
      invariant forall h :: 0 <= h < i ==> (h + 2 in errors <==> !GoodRow(rows, key, build, h))
      invariant errors == [] <==> GoodRows(rows[..i], key, build)
      invariant errors == [] ==> values == Built(rows[..i], build)
    {
      var row := rows[i];
      OneMoreGoodRow(rows, key, build, i);
      assert rows[..i + 1][..i] == rows[..i];
      var k := key(row);
      if k.None? || k.value in seen {
        errors := errors + [i + 2];
        assert !GoodRow(rows, key, build, i);
      } else {
        seen := seen + {k.value};
        var v := build(row);
        if v.None? {
          errors := errors + [i + 2];
          assert !GoodRow(rows, key, build, i);
        } else {
          values := values + [v.value];
        }
      }
      i := i + 1;
    }
    assert rows[..|rows|] == rows;
  }
}
