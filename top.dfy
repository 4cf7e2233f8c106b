/**
 * The ranking behind `GET /kpis/top` (api/src/routes/kpis.js):
 * `GROUP BY type ORDER BY count DESC LIMIT 5` over the scoped rows. The query
 * leaves the order of equal counts open, so `IsTopFive` describes every
 * answer the query may give and `TopFive` computes one of them.
 */
module TopTypes {
  import opened Events

  /** `LIMIT 5`. */
  const Limit: nat := 5

  datatype TypeCount = TypeCount(kind: string, count: nat)

  /** `COUNT(*)` of the rows of one kind. */
  function CountOf(rows: seq<Event>, kind: string): nat
  {
    if rows == [] then 0 else (if rows[0].kind == kind then 1 else 0) + CountOf(rows[1..], kind)
  }

  /** The distinct kinds of a log. */
  function Kinds(rows: seq<Event>): set<string>
  {
    set e | e in rows :: e.kind
  }

  function KindsOf(t: seq<TypeCount>): set<string>
  {
    set i | 0 <= i < |t| :: t[i].kind
  }

  /** No kind is listed twice. */
  ghost predicate DistinctKinds(t: seq<TypeCount>)
  {
    forall i, j :: 0 <= i < j < |t| ==> t[i].kind != t[j].kind
  }

  /** `ORDER BY count DESC`. */
  ghost predicate NonIncreasing(t: seq<TypeCount>)
  {
    forall i, j :: 0 <= i < j < |t| ==> t[i].count >= t[j].count
  }

  /**
   * Every answer `ORDER BY count DESC LIMIT 5` may give: as many groups as the
   * limit allows, distinct kinds that occur, each with its true count, counts
   * non-increasing, and no kind left out that outnumbers the last one listed.
   */
  ghost predicate IsTopFive(rows: seq<Event>, r: seq<TypeCount>)
  {
    && |r| == (if |Kinds(rows)| < Limit then |Kinds(rows)| else Limit)
    && DistinctKinds(r)
    && (forall i :: 0 <= i < |r| ==> r[i].kind in Kinds(rows) && r[i].count == CountOf(rows, r[i].kind))
    && NonIncreasing(r)
    && (forall k :: k in Kinds(rows) && k !in KindsOf(r) ==> 0 < |r| && CountOf(rows, k) <= r[|r| - 1].count)
  }

  lemma KindsOfCons(x: TypeCount, t: seq<TypeCount>)
    ensures KindsOf([x] + t) == {x.kind} + KindsOf(t)
  {
    var r := [x] + t;
    forall k | k in KindsOf(r)
      ensures k in {x.kind} + KindsOf(t)
    {
      var i :| 0 <= i < |r| && r[i].kind == k;
      if i > 0 {
        assert r[i] == t[i - 1];
      }
    }
    forall k | k in KindsOf(t)
      ensures k in KindsOf(r)
    {
      var i :| 0 <= i < |t| && t[i].kind == k;
      assert r[i + 1] == t[i];
    }
    assert r[0].kind == x.kind;
  }

  /** The count a tally records for a kind (0 when absent). */
  function Lookup(t: seq<TypeCount>, kind: string): nat
  {
    if t == [] then 0 else (if t[0].kind == kind then t[0].count else 0) + Lookup(t[1..], kind)
  }

  /** Counts one more row of `kind`, opening its group at the end if it is new. */
  function Bump(t: seq<TypeCount>, kind: string): seq<TypeCount>
  {
    if t == [] then [TypeCount(kind, 1)]
    else if t[0].kind == kind then [TypeCount(kind, t[0].count + 1)] + t[1..]
    else [t[0]] + Bump(t[1..], kind)
  }

  lemma {:induction false} BumpKinds(t: seq<TypeCount>, kind: string)
    ensures KindsOf(Bump(t, kind)) == KindsOf(t) + {kind}
    ensures |Bump(t, kind)| == if kind in KindsOf(t) then |t| else |t| + 1
  {
    if t != [] {
      KindsOfCons(t[0], t[1..]);
      assert [t[0]] + t[1..] == t;
      if t[0].kind == kind {
        KindsOfCons(TypeCount(kind, t[0].count + 1), t[1..]);
      } else {
        BumpKinds(t[1..], kind);
        KindsOfCons(t[0], Bump(t[1..], kind));
      }
    }
  }

  lemma {:induction false} BumpDistinct(t: seq<TypeCount>, kind: string)
    requires DistinctKinds(t)
    ensures DistinctKinds(Bump(t, kind))
  {
    if t != [] && t[0].kind != kind {
      var tail := t[1..];
      assert DistinctKinds(tail) by {
        assert forall k :: 0 <= k < |tail| ==> tail[k] == t[k + 1];
      }
      BumpDistinct(tail, kind);
      BumpKinds(tail, kind);
      KindsOfCons(t[0], tail);
      assert [t[0]] + tail == t;
      assert t[0].kind !in KindsOf(tail) by {
        assert forall k :: 0 <= k < |tail| ==> tail[k] == t[k + 1];
      }
      var rest := Bump(tail, kind);
      assert forall k :: 0 <= k < |rest| ==> rest[k].kind in KindsOf(rest);
      var r := [t[0]] + rest;
      assert forall k :: 0 < k < |r| ==> r[k] == rest[k - 1];
    } else if t != [] {
      var r := [TypeCount(kind, t[0].count + 1)] + t[1..];
      assert forall k :: 0 < k < |r| ==> r[k] == t[k];
    }
  }

  lemma {:induction false} BumpLookup(t: seq<TypeCount>, kind: string, x: string)
    ensures Lookup(Bump(t, kind), x) == Lookup(t, x) + (if x == kind then 1 else 0)
  {
    if t != [] && t[0].kind != kind {
      BumpLookup(t[1..], kind, x);
      assert ([t[0]] + Bump(t[1..], kind))[1..] == Bump(t[1..], kind);
    } else if t != [] {
      assert ([TypeCount(kind, t[0].count + 1)] + t[1..])[1..] == t[1..];
    }
  }

  /** `GROUP BY type` with `COUNT(*)`, groups in order of first appearance from the end of the log. */
  function Tally(rows: seq<Event>): seq<TypeCount>
  {
    if rows == [] then [] else Bump(Tally(rows[1..]), rows[0].kind)
  }

  lemma KindsCons(rows: seq<Event>)
    requires rows != []
    ensures Kinds(rows) == {rows[0].kind} + Kinds(rows[1..])
  {
    assert forall e :: e in rows <==> e == rows[0] || e in rows[1..];
  }

  /** A tally never lists a kind twice. */
  lemma {:induction false} TallyDistinct(rows: seq<Event>)
    ensures DistinctKinds(Tally(rows))
  {
    if rows != [] {
      TallyDistinct(rows[1..]);
      BumpDistinct(Tally(rows[1..]), rows[0].kind);
    }
  }

  /** A tally lists exactly the kinds of the log, so it has one group per kind. */
  lemma {:induction false} TallyKinds(rows: seq<Event>)
    ensures KindsOf(Tally(rows)) == Kinds(rows)
    ensures |Tally(rows)| == |Kinds(rows)|
  {
    if rows != [] {
      TallyKinds(rows[1..]);
      var t := Tally(rows[1..]);
      var k := rows[0].kind;
      assert Tally(rows) == Bump(t, k);
      BumpKinds(t, k);
      KindsCons(rows);
    }
  }

  /** A tally has one group per kind of the log. */
  lemma {:induction false} TallySize(rows: seq<Event>)
    ensures |Tally(rows)| == |KindsOf(Tally(rows))| == |Kinds(rows)|
  {
    TallyKinds(rows);
    if rows != [] {
      TallySize(rows[1..]);
      var t := Tally(rows[1..]);
      var k := rows[0].kind;
      assert Tally(rows) == Bump(t, k);
      BumpKinds(t, k);
      var ks := KindsOf(t);
      if k in ks {
        assert ks + {k} == ks;
      } else {
        assert |ks + {k}| == |ks| + 1;
      }
    }
  }

  /** A tally records each kind's `COUNT(*)`. */
  lemma {:induction false} TallyLookup(rows: seq<Event>, x: string)
    ensures Lookup(Tally(rows), x) == CountOf(rows, x)
  {
    if rows != [] {
      TallyLookup(rows[1..], x);
      BumpLookup(Tally(rows[1..]), rows[0].kind, x);
    }
  }

  /** In a tally without repeated kinds each entry holds the tally's count for its kind. */
  lemma {:induction false} EntryIsLookup(t: seq<TypeCount>, i: nat)
    requires DistinctKinds(t)
    requires i < |t|
    ensures t[i].count == Lookup(t, t[i].kind)
  {
    var tail := t[1..];
    assert DistinctKinds(tail) by {
      assert forall k :: 0 <= k < |tail| ==> tail[k] == t[k + 1];
    }
    if i == 0 {
      LookupAbsent(tail, t[0].kind);
    } else {
      EntryIsLookup(tail, i - 1);
      assert tail[i - 1] == t[i];
    }
  }

  lemma {:induction false} LookupAbsent(t: seq<TypeCount>, kind: string)
    requires forall k :: 0 <= k < |t| ==> t[k].kind != kind
    ensures Lookup(t, kind) == 0
  {
    if t != [] {
      LookupAbsent(t[1..], kind);
    }
  }

  /** Places one group before the first group it does not fall short of. */
  function InsertByCount(sorted: seq<TypeCount>, x: TypeCount): seq<TypeCount>
  {
    if sorted == [] || x.count >= sorted[0].count then [x] + sorted
    else [sorted[0]] + InsertByCount(sorted[1..], x)
  }

  lemma {:induction false} InsertByCountMembers(sorted: seq<TypeCount>, x: TypeCount)
    ensures |InsertByCount(sorted, x)| == |sorted| + 1
    ensures forall y :: y in InsertByCount(sorted, x) <==> y == x || y in sorted
  {
    if sorted != [] && x.count < sorted[0].count {
      InsertByCountMembers(sorted[1..], x);
      assert forall y :: y in sorted <==> y == sorted[0] || y in sorted[1..];
    }
  }

  lemma {:induction false} InsertByCountOrdered(sorted: seq<TypeCount>, x: TypeCount)
    requires NonIncreasing(sorted)
    ensures NonIncreasing(InsertByCount(sorted, x))
  {
    var r := InsertByCount(sorted, x);
    if sorted == [] || x.count >= sorted[0].count {
      assert forall k :: 0 < k < |r| ==> r[k] == sorted[k - 1];
    } else {
      var tail := sorted[1..];
      assert forall k :: 0 <= k < |tail| ==> tail[k] == sorted[k + 1];
      InsertByCountOrdered(tail, x);
      InsertByCountMembers(tail, x);
      var rest := InsertByCount(tail, x);
      assert forall k :: 0 <= k < |rest| ==> rest[k] in rest;
      assert forall y :: y in tail ==> sorted[0].count >= y.count;
      assert forall k :: 0 < k < |r| ==> r[k] == rest[k - 1];
    }
  }

  lemma {:induction false} InsertByCountKinds(sorted: seq<TypeCount>, x: TypeCount)
    requires DistinctKinds(sorted) && x.kind !in KindsOf(sorted)
    ensures DistinctKinds(InsertByCount(sorted, x))
    ensures KindsOf(InsertByCount(sorted, x)) == KindsOf(sorted) + {x.kind}
  {
    var r := InsertByCount(sorted, x);
    KindsOfCons(x, sorted);
    if sorted == [] || x.count >= sorted[0].count {
      assert forall k :: 0 < k < |r| ==> r[k] == sorted[k - 1];
      assert forall k :: 0 <= k < |sorted| ==> sorted[k].kind in KindsOf(sorted);
    } else {
      var tail := sorted[1..];
      assert forall k :: 0 <= k < |tail| ==> tail[k] == sorted[k + 1];
      KindsOfCons(sorted[0], tail);
      assert [sorted[0]] + tail == sorted;
      InsertByCountKinds(tail, x);
      var rest := InsertByCount(tail, x);
      KindsOfCons(sorted[0], rest);
      assert forall k :: 0 <= k < |rest| ==> rest[k].kind in KindsOf(rest);
      assert forall k :: 0 < k < |r| ==> r[k] == rest[k - 1];
    }
  }

  /** `ORDER BY count DESC` over a whole tally (insertion sort). */
  function SortByCount(t: seq<TypeCount>): seq<TypeCount>
  {
    if t == [] then [] else InsertByCount(SortByCount(t[1..]), t[0])
  }

  /** Sorting orders the counts and keeps exactly the same groups. */
  lemma {:induction false} SortByCountCorrect(t: seq<TypeCount>)
    requires DistinctKinds(t)
    ensures NonIncreasing(SortByCount(t))
    ensures DistinctKinds(SortByCount(t))
    ensures KindsOf(SortByCount(t)) == KindsOf(t)
    ensures |SortByCount(t)| == |t|
    ensures forall y :: y in SortByCount(t) <==> y in t
  {
    if t != [] {
      var tail := t[1..];
      assert DistinctKinds(tail) by {
        assert forall k :: 0 <= k < |tail| ==> tail[k] == t[k + 1];
      }
      assert t[0].kind !in KindsOf(tail) by {
        assert forall k :: 0 <= k < |tail| ==> tail[k] == t[k + 1];
      }
      SortByCountCorrect(tail);
      InsertByCountMembers(SortByCount(tail), t[0]);
      InsertByCountOrdered(SortByCount(tail), t[0]);
      InsertByCountKinds(SortByCount(tail), t[0]);
      KindsOfCons(t[0], tail);
      assert [t[0]] + tail == t;
      assert forall y :: y in t <==> y == t[0] || y in tail;
    }
  }

  /** `GROUP BY 1 ORDER BY count DESC LIMIT 5`, ties in the order the sort leaves them. */
  function TopFive(rows: seq<Event>): seq<TypeCount>
  {
    var sorted := SortByCount(Tally(rows));
    if |sorted| <= Limit then sorted else sorted[..Limit]
  }

  /** Every entry of a tally holds the true count of its kind. */
  lemma TallyEntryCount(rows: seq<Event>, y: TypeCount)
    requires y in Tally(rows)
    ensures y.kind in Kinds(rows) && y.count == CountOf(rows, y.kind)
  {
    var t := Tally(rows);
    TallyDistinct(rows);
    TallyKinds(rows);
    var j :| 0 <= j < |t| && t[j] == y;
    EntryIsLookup(t, j);
    TallyLookup(rows, y.kind);
  }

  /** The computed ranking is one of the answers the query may give. */
  lemma TopFiveCorrect(rows: seq<Event>)
    ensures IsTopFive(rows, TopFive(rows))
  {
    var t := Tally(rows);
    TallyDistinct(rows);
    TallySize(rows);
    SortByCountCorrect(t);
    var sorted := SortByCount(t);
    var r := TopFive(rows);
    assert forall i :: 0 <= i < |r| ==> r[i] == sorted[i];
    forall i | 0 <= i < |r|
      ensures r[i].kind in Kinds(rows) && r[i].count == CountOf(rows, r[i].kind)
    {
      assert sorted[i] in sorted;
      TallyEntryCount(rows, r[i]);
    }
    forall k | k in Kinds(rows) && k !in KindsOf(r)
      ensures 0 < |r| && CountOf(rows, k) <= r[|r| - 1].count
    {
      TallyKinds(rows);
      var j :| 0 <= j < |sorted| && sorted[j].kind == k;
      assert sorted[j] in sorted;
      TallyEntryCount(rows, sorted[j]);
      assert sorted[|r| - 1].count >= sorted[j].count;
    }
  }
}
