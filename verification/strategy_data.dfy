/** Turning downloaded archive rows into one continuous candle series, or refusing to. */
module StrategyData {
  import opened Common

  /** One candle row: its interval in epoch milliseconds and everything else it carries. */
  datatype Row = Row(open: int, close: int, values: seq<string>)

  /** A partition that is missing has no usable rows. */
  datatype Fetch = Available(rows: seq<Row>) | Unavailable

  datatype NormalizeError = NoncanonicalBoundary | ConflictingDuplicate | NotContinuous

  datatype Request = Request(start: int, end: int, duration: nat) {
    predicate Valid() { duration >= 1 }
  }

  predicate InRange(q: Request, r: Row) { q.start <= r.open < q.end }

  predicate Canonical(q: Request, r: Row)
    requires q.Valid()
  {
    r.open % q.duration == 0 && r.close == r.open + q.duration - 1
  }

  /** The rows that matter, whatever order or partition they arrived in. */
  function Relevant(q: Request, fetched: seq<Fetch>): set<Row> {
    set f, r | f in fetched && f.Available? && r in f.rows && InRange(q, r) :: r
  }

  predicate Consistent(rows: set<Row>) {
    forall a, b :: a in rows && b in rows && a.open == b.open ==> a == b
  }

  /** One row at every boundary start, start + d, ..., end - d, and nothing else. */
  ghost predicate Complete(q: Request, rows: set<Row>)
    requires q.Valid()
  {
    && q.start % q.duration == 0 && q.end % q.duration == 0 && q.start < q.end
    && (forall r :: r in rows ==> Canonical(q, r))
    && Consistent(rows)
    && forall k: int :: q.start <= k * q.duration < q.end ==> exists r :: r in rows && r.open == k * q.duration
  }

  /** out lists those rows in order. */
  ghost predicate IsSeries(q: Request, rows: set<Row>, out: seq<Row>)
    requires q.Valid()
  {
    && |out| * q.duration == q.end - q.start
    && forall k :: 0 <= k < |out| ==> out[k] in rows && out[k].open == q.start + k * q.duration
  }

  /** Only the set of relevant rows counts: neither their order, nor their duplication, nor how they were
      split over partitions can change the series. */
  lemma SeriesIsUnique(q: Request, rows: set<Row>, out: seq<Row>, out': seq<Row>)
    requires q.Valid() && Consistent(rows) && IsSeries(q, rows, out) && IsSeries(q, rows, out')
    ensures out == out'
  {
    SameFactor(|out|, |out'|, q.duration);
    forall k | 0 <= k < |out| ensures out[k] == out'[k] {
      assert out[k].open == out'[k].open;
    }
  }

  lemma FactorIsPositive(n: nat, d: nat)
    requires n * d > 0
    ensures n > 0
  {
  }

  lemma StepsAlong(k: int, d: nat)
    ensures (k + 1) * d == k * d + d
  {
  }

  /** The rows of the series tile the requested range: each begins where the one before it ends. */
  lemma SeriesTiles(q: Request, rows: set<Row>, out: seq<Row>)
    requires q.Valid() && Complete(q, rows) && IsSeries(q, rows, out)
    ensures out != [] && out[0].open == q.start && out[|out| - 1].close + 1 == q.end
    ensures forall k :: 0 < k < |out| ==> out[k - 1].close + 1 == out[k].open
  {
    var last := |out| - 1;
    FactorIsPositive(|out|, q.duration);
    StepsAlong(last, q.duration);
    assert out[last].open == q.start + last * q.duration;
    forall k | 0 < k < |out| ensures out[k - 1].close + 1 == out[k].open {
      StepsAlong(k - 1, q.duration);
      assert out[k - 1].open == q.start + (k - 1) * q.duration;
      assert Canonical(q, out[k - 1]);
    }
    assert out[0].open == q.start + 0 * q.duration;
  }

  lemma SameFactor(a: int, b: int, d: int)
    requires d >= 1 && a * d == b * d
    ensures a == b
  {
    assert (a - b) * d == 0;
  }

  // ---------- the checks on the sorted boundaries ----------

  ghost predicate StrictlyAscending(xs: seq<int>) {
    forall i, j :: 0 <= i < j < |xs| ==> xs[i] < xs[j]
  }

  predicate OnGrid(q: Request, xs: seq<int>)
    requires q.Valid()
  {
    forall i :: 0 <= i < |xs| ==> q.start <= xs[i] < q.end && xs[i] % q.duration == 0
  }

  lemma GridStep(a: int, b: int, d: nat)
    requires d >= 1 && a < b && a % d == 0 && b % d == 0
    ensures a + d <= b
  {
    DivisionRest(a, d);
    DivisionRest(b, d);
    if b / d <= a / d {
      ProductsFollow(b / d, a / d, d);
    } else {
      ProductsFollow(a / d, a / d, d);
      ProductsFollow(a / d + 1, b / d, d);
    }
  }

  lemma {:induction false} GridFromBelow(q: Request, xs: seq<int>, k: nat)
    requires q.Valid() && StrictlyAscending(xs) && OnGrid(q, xs) && k < |xs| && q.start % q.duration == 0
    ensures xs[k] >= q.start + k * q.duration
  {
    if k > 0 {
      GridFromBelow(q, xs, k - 1);
      GridStep(xs[k - 1], xs[k], q.duration);
      assert k * q.duration == (k - 1) * q.duration + q.duration;
    }
  }

  lemma {:induction false} GridFromAbove(q: Request, xs: seq<int>, k: nat)
    requires q.Valid() && StrictlyAscending(xs) && OnGrid(q, xs) && k < |xs| && q.end % q.duration == 0
    ensures xs[k] <= q.end - (|xs| - k) * q.duration
    decreases |xs| - k
  {
    if k + 1 < |xs| {
      GridFromAbove(q, xs, k + 1);
      GridStep(xs[k], xs[k + 1], q.duration);
      assert (|xs| - k) * q.duration == (|xs| - (k + 1)) * q.duration + q.duration;
    } else {
      GridStep(xs[k], q.end, q.duration);
    }
  }

  /** Pigeonhole: distinct boundaries inside an aligned range, as many as fit, are all of them in order; the
      first, last and gap checks of the source follow from its count check. */
  lemma CountCheckSuffices(q: Request, xs: seq<int>)
    requires q.Valid() && StrictlyAscending(xs) && OnGrid(q, xs)
    requires q.start % q.duration == 0 && q.end % q.duration == 0 && |xs| * q.duration == q.end - q.start
    ensures forall k :: 0 <= k < |xs| ==> xs[k] == q.start + k * q.duration
  {
    forall k | 0 <= k < |xs| ensures xs[k] == q.start + k * q.duration {
      GridFromBelow(q, xs, k);
      GridFromAbove(q, xs, k);
      assert (|xs| - k) * q.duration == |xs| * q.duration - k * q.duration;
    }
  }

  lemma AlignedSpan(start: int, end: int, d: nat)
    requires d >= 1 && start % d == 0 && end % d == 0
    ensures (end - start) / d * d == end - start
  {
    DivisionRest(start, d);
    DivisionRest(end, d);
    var k := end / d - start / d;
    assert k * d == end / d * d - start / d * d;
    RemainderIs(end - start, d, k, 0);
  }

  // ---------- normalizing ----------

  /** The rows kept so far: one per boundary. */
  ghost predicate Indexes(byOpen: map<int, Row>, rows: set<Row>) {
    && (forall k :: k in byOpen ==> byOpen[k] in rows && byOpen[k].open == k)
    && (forall r :: r in rows ==> r.open in byOpen && byOpen[r.open] == r)
  }

  lemma IndexIsConsistent(byOpen: map<int, Row>, rows: set<Row>)
    requires Indexes(byOpen, rows)
    ensures Consistent(rows)
  {
  }

  /** Rows already read, as a set. */
  function Read(q: Request, rows: seq<Row>, n: nat): set<Row>
    requires n <= |rows|
  {
    set r | r in rows[..n] && InRange(q, r)
  }

  method NormalizeArchives(q: Request, fetched: seq<Fetch>) returns (r: Result<seq<Row>, NormalizeError>)
    requires q.Valid()
    ensures r.Ok? <==> Complete(q, Relevant(q, fetched))
    ensures r.Ok? ==> IsSeries(q, Relevant(q, fetched), r.value)
  {
    var byOpen: map<int, Row> := map[];
    for i := 0 to |fetched|
      invariant Indexes(byOpen, Relevant(q, fetched[..i]))
      invariant forall x :: x in Relevant(q, fetched[..i]) ==> Canonical(q, x)
    {
      RelevantGrows(q, fetched, i);
      if fetched[i].Available? {
        var merged := MergeRows(q, byOpen, fetched[i].rows, Relevant(q, fetched[..i]), Relevant(q, fetched));
        if merged.Err? {
          return Err(merged.error);
        }
        byOpen := merged.value;
      }
    }
    assert fetched[..|fetched|] == fetched;
    r := CheckContinuity(q, byOpen, Relevant(q, fetched));
  }

  method CheckContinuity(q: Request, byOpen: map<int, Row>, ghost rows: set<Row>)
    returns (r: Result<seq<Row>, NormalizeError>)
    requires q.Valid() && Indexes(byOpen, rows)
    requires forall x :: x in rows ==> Canonical(q, x) && InRange(q, x)
    ensures r.Ok? <==> Complete(q, rows)
    ensures r.Ok? ==> IsSeries(q, rows, r.value)
  {
    var opens := SortedKeys(byOpen.Keys);
    ContinuousIff(q, byOpen, rows, opens);
    var expected := (q.end - q.start) / q.duration;
    if q.start % q.duration != 0 || q.end % q.duration != 0 || q.end <= q.start {
      return Err(NotContinuous);
    }
    if |opens| != expected
       || (opens != [] && opens[0] != q.start)
       || (opens != [] && opens[|opens| - 1] != q.end - q.duration)
       || (exists i :: 0 < i < |opens| && opens[i] - opens[i - 1] != q.duration)
    {
      return Err(NotContinuous);
    }
    return Ok(seq(|opens|, i requires 0 <= i < |opens| => byOpen[opens[i]]));
  }

  /** Every check on the sorted boundaries passes. */
  ghost predicate Continuous(q: Request, opens: seq<int>)
    requires q.Valid()
  {
    && q.start % q.duration == 0 && q.end % q.duration == 0 && q.start < q.end
    && |opens| == (q.end - q.start) / q.duration
    && (opens != [] ==> opens[0] == q.start && opens[|opens| - 1] == q.end - q.duration)
    && forall i :: 0 < i < |opens| ==> opens[i] - opens[i - 1] == q.duration
  }

  lemma ContinuousIff(q: Request, byOpen: map<int, Row>, rows: set<Row>, opens: seq<int>)
    requires q.Valid() && Indexes(byOpen, rows) && forall x :: x in rows ==> Canonical(q, x) && InRange(q, x)
    requires StrictlyAscending(opens) && forall k :: k in opens <==> k in byOpen
    ensures forall i :: 0 <= i < |opens| ==> opens[i] in byOpen
    ensures Continuous(q, opens) <==> Complete(q, rows)
    ensures Continuous(q, opens) ==>
              IsSeries(q, rows, seq(|opens|, i requires 0 <= i < |opens| => byOpen[opens[i]]))
  {
    KeysAreOnGrid(q, byOpen, rows, opens);
    if Complete(q, rows) {
      CompletePassesChecks(q, byOpen, rows, opens);
    }
    if Continuous(q, opens) {
      AlignedSpan(q.start, q.end, q.duration);
      CountCheckSuffices(q, opens);
      FullMeansComplete(q, byOpen, rows, opens);
    }
  }

  lemma KeysAreOnGrid(q: Request, byOpen: map<int, Row>, rows: set<Row>, opens: seq<int>)
    requires q.Valid() && Indexes(byOpen, rows) && forall x :: x in rows ==> Canonical(q, x) && InRange(q, x)
    requires forall k :: k in opens <==> k in byOpen
    ensures OnGrid(q, opens)
  {
    forall i | 0 <= i < |opens| ensures q.start <= opens[i] < q.end && opens[i] % q.duration == 0 {
      var k := opens[i];
      assert k in opens;
      assert byOpen[k] in rows;
    }
  }

  lemma RelevantGrows(q: Request, fetched: seq<Fetch>, i: nat)
    requires i < |fetched|
    ensures Relevant(q, fetched[..i]) <= Relevant(q, fetched)
    ensures Relevant(q, fetched[..i + 1])
         == Relevant(q, fetched[..i])
            + if fetched[i].Available? then Read(q, fetched[i].rows, |fetched[i].rows|) else {}
    ensures fetched[i].Available? ==> Read(q, fetched[i].rows, |fetched[i].rows|) <= Relevant(q, fetched)
  {
    assert fetched[..i + 1] == fetched[..i] + [fetched[i]];
    if fetched[i].Available? {
      var rows := fetched[i].rows;
      assert rows[..|rows|] == rows;
    }
  }

  method MergeRows(q: Request, known: map<int, Row>, rows: seq<Row>, ghost before: set<Row>, ghost all: set<Row>)
    returns (r: Result<map<int, Row>, NormalizeError>)
    requires q.Valid() && Indexes(known, before) && before <= all && Read(q, rows, |rows|) <= all
    requires forall x :: x in before ==> Canonical(q, x)
    ensures r.Err? ==> !Complete(q, all)
    ensures r.Ok? ==> Indexes(r.value, before + Read(q, rows, |rows|))
    ensures r.Ok? ==> forall x :: x in before + Read(q, rows, |rows|) ==> Canonical(q, x)
  {
    var byOpen := known;
    for i := 0 to |rows|
      invariant Indexes(byOpen, before + Read(q, rows, i))
      invariant forall x :: x in before + Read(q, rows, i) ==> Canonical(q, x)
    {
      var raw := rows[i];
      assert Read(q, rows, i + 1) == Read(q, rows, i) + if InRange(q, raw) then {raw} else {};
      if InRange(q, raw) {
        assert raw in all by { assert raw in rows[..|rows|]; }
        if raw.open % q.duration != 0 || raw.close != raw.open + q.duration - 1 {
          return Err(NoncanonicalBoundary);
        }
        if raw.open in byOpen && byOpen[raw.open] != raw {
          ReadIsBounded(q, rows, i, before, all, byOpen[raw.open]);
          return Err(ConflictingDuplicate);
        }
        byOpen := byOpen[raw.open := raw];
      }
    }
    return Ok(byOpen);
  }

  lemma ReadIsBounded(q: Request, rows: seq<Row>, i: nat, before: set<Row>, all: set<Row>, x: Row)
    requires i <= |rows| && before <= all && Read(q, rows, |rows|) <= all && x in before + Read(q, rows, i)
    ensures x in all
  {
    if x in Read(q, rows, i) {
      assert x in rows[..|rows|];
    }
  }

  method SortedKeys(keys: set<int>) returns (xs: seq<int>)
    ensures StrictlyAscending(xs) && |xs| == |keys| && forall k :: k in xs <==> k in keys
  {
    xs := [];
    var rest := keys;
    while rest != {}
      invariant StrictlyAscending(xs) && |xs| + |rest| == |keys|
      invariant forall k :: k in keys <==> k in xs || k in rest
      invariant forall i, k :: 0 <= i < |xs| && k in rest ==> xs[i] < k
      decreases |rest|
    {
      LeastExists(rest);
      var least :| least in rest && forall k :: k in rest ==> least <= k;
      xs := xs + [least];
      rest := rest - {least};
    }
  }

  lemma {:induction false} LeastExists(keys: set<int>)
    requires keys != {}
    ensures exists m :: m in keys && forall k :: k in keys ==> m <= k
  {
    var a := Pick(keys);
    var rest := keys - {a};
    if rest == {} {
      assert keys == {a};
    } else {
      LeastExists(rest);
      var m :| m in rest && forall k :: k in rest ==> m <= k;
      var least := if a <= m then a else m;
      assert forall k :: k in keys ==> k == a || k in rest;
      assert least in keys && forall k :: k in keys ==> least <= k;
    }
  }

  /** A complete set of rows passes every check. */
  lemma CompletePassesChecks(q: Request, byOpen: map<int, Row>, rows: set<Row>, opens: seq<int>)
    requires q.Valid() && Indexes(byOpen, rows) && StrictlyAscending(opens) && OnGrid(q, opens)
    requires (forall k :: k in opens <==> k in byOpen) && Complete(q, rows)
    ensures |opens| == (q.end - q.start) / q.duration && opens != []
    ensures opens[0] == q.start && opens[|opens| - 1] == q.end - q.duration
    ensures forall i :: 0 < i < |opens| ==> opens[i] - opens[i - 1] == q.duration
  {
    GridIsListed(q, byOpen, rows, opens);
    CountCheckSuffices(q, opens);
    forall i | 0 < i < |opens| ensures opens[i] - opens[i - 1] == q.duration {
      ProductsFollow(i - 1, i, q.duration);
    }
    ProductsFollow(|opens| - 1, |opens|, q.duration);
  }

  lemma GridIsListed(q: Request, byOpen: map<int, Row>, rows: set<Row>, opens: seq<int>)
    requires q.Valid() && Indexes(byOpen, rows) && StrictlyAscending(opens) && OnGrid(q, opens)
    requires (forall k :: k in opens <==> k in byOpen) && Complete(q, rows)
    ensures |opens| * q.duration == q.end - q.start && |opens| == (q.end - q.start) / q.duration
  {
    AlignedSpan(q.start, q.end, q.duration);
    var n := (q.end - q.start) / q.duration;
    if n <= 0 {
      ProductsFollow(n, 0, q.duration);
    }
    var j := BoundaryPosition(q, byOpen, rows, opens, n, n - 1);
    GridFromBelow(q, opens, |opens| - 1);
    GridStep(opens[|opens| - 1], q.end, q.duration);
    ProductsFollow(|opens| - 1, |opens| - 1, q.duration);
    if |opens| > n {
      ProductsFollow(n + 1, |opens|, q.duration);
      ProductsFollow(n, n, q.duration);
    }
  }

  /** The k-th boundary of a complete set is listed, no earlier than at place k. */
  lemma {:induction false} BoundaryPosition(
      q: Request, byOpen: map<int, Row>, rows: set<Row>, opens: seq<int>, n: int, k: nat) returns (j: nat)
    requires q.Valid() && Indexes(byOpen, rows) && StrictlyAscending(opens)
    requires (forall x :: x in opens <==> x in byOpen) && Complete(q, rows)
    requires k < n && n * q.duration == q.end - q.start
    ensures k <= j < |opens| && opens[j] == q.start + k * q.duration
  {
    j := BoundaryIsListed(q, byOpen, rows, opens, n, k);
    if k > 0 {
      var before := BoundaryPosition(q, byOpen, rows, opens, n, k - 1);
      StepsAlong(k - 1, q.duration);
      LaterPlace(opens, before, j);
    }
  }

  lemma LaterPlace(xs: seq<int>, i: nat, j: nat)
    requires StrictlyAscending(xs) && i < |xs| && j < |xs| && xs[i] < xs[j]
    ensures i < j
  {
  }

  lemma BoundaryIsListed(
      q: Request, byOpen: map<int, Row>, rows: set<Row>, opens: seq<int>, n: int, k: nat) returns (j: nat)
    requires q.Valid() && Indexes(byOpen, rows) && Complete(q, rows) && forall x :: x in opens <==> x in byOpen
    requires k < n && n * q.duration == q.end - q.start
    ensures j < |opens| && opens[j] == q.start + k * q.duration
  {
    var m := BoundaryIndex(q, n, k);
    var r :| r in rows && r.open == m * q.duration;
    assert r.open in opens;
    j :| 0 <= j < |opens| && opens[j] == r.open;
  }

  lemma BoundaryIndex(q: Request, n: int, k: nat) returns (m: int)
    requires q.Valid() && q.start % q.duration == 0 && k < n && n * q.duration == q.end - q.start
    ensures m * q.duration == q.start + k * q.duration && q.start <= m * q.duration < q.end
  {
    DivisionRest(q.start, q.duration);
    m := q.start / q.duration + k;
    assert m * q.duration == q.start / q.duration * q.duration + k * q.duration;
    ProductsFollow(0, k, q.duration);
    ProductsFollow(k, k, q.duration);
    ProductsFollow(k + 1, n, q.duration);
  }

  /** And only a complete set does. */
  lemma FullMeansComplete(q: Request, byOpen: map<int, Row>, rows: set<Row>, opens: seq<int>)
    requires q.Valid() && Indexes(byOpen, rows)
    requires q.start % q.duration == 0 && q.end % q.duration == 0 && q.start < q.end
    requires forall r :: r in rows ==> Canonical(q, r)
    requires forall k :: k in opens <==> k in byOpen
    requires |opens| * q.duration == q.end - q.start
    requires forall k :: 0 <= k < |opens| ==> opens[k] == q.start + k * q.duration
    ensures Complete(q, rows)
  {
    IndexIsConsistent(byOpen, rows);
    DivisionRest(q.start, q.duration);
    forall k: int | q.start <= k * q.duration < q.end
      ensures exists r :: r in rows && r.open == k * q.duration
    {
      var i := k - q.start / q.duration;
      assert i * q.duration == k * q.duration - q.start / q.duration * q.duration;
      if i < 0 {
        ProductsFollow(i + 1, 0, q.duration);
        ProductsFollow(i, i, q.duration);
      }
      if i >= |opens| {
        ProductsFollow(|opens|, i, q.duration);
      }
      assert opens[i] in opens;
      assert byOpen[opens[i]] in rows;
    }
  }
}
