/**
  The execution-history query: the optional filter by job id, the sort newest
  first, and the truncation to the requested limit. The sort is JavaScript's
  `Array.prototype.sort`, which is stable, with a comparator that orders by
  descending timestamp; `SortNewestFirst` is proved to be the one arrangement such
  a sort can produce.
 */
module History {
  import opened JsValues
  import opened Dispatch

  /** Timestamps never increase from front to back. */
  predicate NewestFirst(s: seq<ExecutionRecord>) {
    forall i, j :: 0 <= i < j < |s| ==> s[i].timestamp >= s[j].timestamp
  }

  /** The records of `s` carrying timestamp `t`, in their order in `s`. Two
      arrangements of the same records with equal `StampedAt` for every `t` keep
      every group of equal timestamps in the same relative order. */
  function StampedAt(s: seq<ExecutionRecord>, t: nat): (r: seq<ExecutionRecord>)
    ensures forall x :: x in r <==> x in s && x.timestamp == t
  {
    if s == [] then [] else (if s[0].timestamp == t then [s[0]] else []) + StampedAt(s[1..], t)
  }

  /** Inserts `x` into a newest-first sequence, before every record that is not newer. */
  function Insert(x: ExecutionRecord, s: seq<ExecutionRecord>): (r: seq<ExecutionRecord>)
    requires NewestFirst(s)
    ensures NewestFirst(r)
    ensures multiset(r) == multiset(s) + multiset{x}
    ensures forall i :: 0 <= i < |r| ==> r[i] == x || r[i] in s
    decreases |s|
  {
    if s == [] || x.timestamp >= s[0].timestamp then [x] + s
    else
      var rest := Insert(x, s[1..]);
      assert s == [s[0]] + s[1..];
      Prepend(s[0], rest);
      [s[0]] + rest
  }

  /** Prepending a record at least as new as every other keeps the order. */
  lemma Prepend(y: ExecutionRecord, s: seq<ExecutionRecord>)
    requires NewestFirst(s)
    requires forall i :: 0 <= i < |s| ==> y.timestamp >= s[i].timestamp
    ensures NewestFirst([y] + s)
  {
  }

  /** `.sort((a, b) => new Date(b.timestamp) - new Date(a.timestamp))`: the records
      rearranged newest first. */
  function SortNewestFirst(s: seq<ExecutionRecord>): (r: seq<ExecutionRecord>)
    ensures NewestFirst(r)
    ensures multiset(r) == multiset(s)
    decreases |s|
  {
    if s == [] then []
    else
      assert s == [s[0]] + s[1..];
      Insert(s[0], SortNewestFirst(s[1..]))
  }

  lemma {:induction false} InsertStable(x: ExecutionRecord, s: seq<ExecutionRecord>, t: nat)
    requires NewestFirst(s)
    ensures StampedAt(Insert(x, s), t) == if x.timestamp == t then [x] + StampedAt(s, t) else StampedAt(s, t)
    decreases |s|
  {
    if s == [] || x.timestamp >= s[0].timestamp {
      assert ([x] + s)[1..] == s;
    } else {
      var rest := Insert(x, s[1..]);
      InsertStable(x, s[1..], t);
      assert ([s[0]] + rest)[1..] == rest;
    }
  }

  /** The sort is stable: records with equal timestamps keep their relative order. */
  lemma {:induction false} SortStable(s: seq<ExecutionRecord>, t: nat)
    ensures StampedAt(SortNewestFirst(s), t) == StampedAt(s, t)
    decreases |s|
  {
    if s != [] {
      SortStable(s[1..], t);
      InsertStable(s[0], SortNewestFirst(s[1..]), t);
    }
  }

  lemma FirstIsNewest(s: seq<ExecutionRecord>, x: ExecutionRecord)
    requires NewestFirst(s) && x in s
    ensures s[0].timestamp >= x.timestamp
  {
  }

  lemma StampedAtCons(s: seq<ExecutionRecord>, t: nat)
    requires s != []
    ensures StampedAt(s, t) == (if s[0].timestamp == t then [s[0]] else []) + StampedAt(s[1..], t)
  {
  }

  /** Two newest-first sequences that agree on every timestamp group start with the
      same record. */
  lemma SameHead(a: seq<ExecutionRecord>, b: seq<ExecutionRecord>)
    requires NewestFirst(a) && NewestFirst(b) && a != [] && b != []
    requires StampedAt(a, a[0].timestamp) == StampedAt(b, a[0].timestamp)
    requires StampedAt(a, b[0].timestamp) == StampedAt(b, b[0].timestamp)
    ensures a[0] == b[0]
  {
    var ta, tb := a[0].timestamp, b[0].timestamp;
    StampedAtCons(a, ta);
    StampedAtCons(b, tb);
    var x := StampedAt(b, ta)[0];
    assert x in StampedAt(b, ta);
    FirstIsNewest(b, x);
    var y := StampedAt(a, tb)[0];
    assert y in StampedAt(a, tb);
    FirstIsNewest(a, y);
    assert ta == tb;
  }

  /** Only the empty sequence has no record in any timestamp group. */
  lemma HeadGroup(b: seq<ExecutionRecord>)
    ensures b != [] ==> StampedAt(b, b[0].timestamp) != []
  {
    if b != [] {
      StampedAtCons(b, b[0].timestamp);
    }
  }

  /** A newest-first sequence is determined by its groups of equal timestamps:
      two such sequences that agree on every group are equal. */
  lemma {:induction false} SameArrangement(a: seq<ExecutionRecord>, b: seq<ExecutionRecord>)
    requires NewestFirst(a) && NewestFirst(b)
    requires forall t :: StampedAt(a, t) == StampedAt(b, t)
    ensures a == b
    decreases |a|
  {
    HeadGroup(a);
    HeadGroup(b);
    if a != [] && b != [] {
      SameHead(a, b);
      forall t ensures StampedAt(a[1..], t) == StampedAt(b[1..], t) {
        StampedAtCons(a, t);
        StampedAtCons(b, t);
        var p := if a[0].timestamp == t then [a[0]] else [];
        assert (p + StampedAt(a[1..], t))[|p|..] == StampedAt(a[1..], t);
        assert (p + StampedAt(b[1..], t))[|p|..] == StampedAt(b[1..], t);
      }
      SameArrangement(a[1..], b[1..]);
      assert a == [a[0]] + a[1..];
      assert b == [b[0]] + b[1..];
    }
  }

  /** Any newest-first, stable rearrangement of `s` (whatever algorithm the
      JavaScript engine uses) is exactly `SortNewestFirst(s)`. */
  lemma SortIsTheStableSort(s: seq<ExecutionRecord>, a: seq<ExecutionRecord>)
    requires NewestFirst(a)
    requires forall t :: StampedAt(a, t) == StampedAt(s, t)
    ensures a == SortNewestFirst(s)
  {
    forall t ensures StampedAt(a, t) == StampedAt(SortNewestFirst(s), t) {
      SortStable(s, t);
    }
    SameArrangement(a, SortNewestFirst(s));
  }

  /** `history.filter(execution => execution.jobId === jobId)`. */
  function ForJob(h: seq<ExecutionRecord>, jobId: Value): (r: seq<ExecutionRecord>)
    ensures forall x :: x in r <==> x in h && StrictEquals(x.jobId, jobId)
    ensures |r| <= |h|
    // every matching record is kept as often as it occurs, every other one dropped
    ensures forall x :: multiset(r)[x] == if StrictEquals(x.jobId, jobId) then multiset(h)[x] else 0
  {
    if h == [] then []
    else
      assert h == [h[0]] + h[1..];
      (if StrictEquals(h[0].jobId, jobId) then [h[0]] else []) + ForJob(h[1..], jobId)
  }

  /** The records the query considers: filtered only when the `jobId` parameter is truthy. */
  function Selected(h: seq<ExecutionRecord>, jobId: Value): (r: seq<ExecutionRecord>)
    ensures forall x ::
      multiset(r)[x] == if !Truthy(jobId) || StrictEquals(x.jobId, jobId) then multiset(h)[x] else 0
  {
    if Truthy(jobId) then ForJob(h, jobId) else h
  }

  /** The `limit` query parameter after `parseInt`: absent (the default 50 applies),
      an integer, or NaN. */
  datatype Limit = Omitted | Parsed(n: int) | NotANumber

  const DefaultLimit: int := 50

  /** The end index `slice(0, end)` uses on a sequence of length `len`: NaN counts
      as 0, a negative end counts from the back, and the result is clamped to
      `[0, len]`. */
  function SliceEnd(len: nat, limit: Limit): (e: nat)
    ensures e <= len
    ensures limit == Omitted ==> e == if len < DefaultLimit then len else DefaultLimit
    ensures limit.Parsed? && limit.n >= 0 ==> e == if len < limit.n then len else limit.n
    ensures limit.Parsed? && limit.n < 0 ==> e == if len + limit.n < 0 then 0 else len + limit.n
    ensures limit == NotANumber ==> e == 0
  {
    var end := match limit case Omitted => DefaultLimit case Parsed(n) => n case NotANumber => 0;
    var relative := if end < 0 then len + end else end;
    if relative < 0 then 0 else if relative > len then len else relative
  }

  lemma PrefixKeepsNewest(s: seq<ExecutionRecord>, e: nat)
    requires NewestFirst(s) && e <= |s|
    ensures NewestFirst(s[..e])
    ensures forall x, i :: x in s && x !in s[..e] && 0 <= i < e ==> s[i].timestamp >= x.timestamp
  {
    assert forall j :: 0 <= j < e ==> s[..e][j] == s[j];
    forall x, i | x in s && x !in s[..e] && 0 <= i < e ensures s[i].timestamp >= x.timestamp {
      var j :| 0 <= j < |s| && s[j] == x;
    }
  }

  lemma SameElements(a: seq<ExecutionRecord>, b: seq<ExecutionRecord>)
    requires multiset(a) == multiset(b)
    ensures |a| == |b|
    ensures forall x :: x in a <==> x in b
  {
    assert |multiset(a)| == |multiset(b)|;
    forall x ensures x in a <==> x in b {
      assert x in a <==> x in multiset(a);
      assert x in b <==> x in multiset(b);
    }
  }

  /** The `e` newest records of `s`, newest first. */
  function Newest(s: seq<ExecutionRecord>, e: nat): (r: seq<ExecutionRecord>)
    requires e <= |s|
    ensures |r| == e
    ensures forall x :: x in r ==> x in s
    ensures NewestFirst(r)
    ensures forall x, i :: x in s && x !in r && 0 <= i < |r| ==> r[i].timestamp >= x.timestamp
    ensures multiset(r) <= multiset(s)
  {
    var sorted := SortNewestFirst(s);
    SameElements(sorted, s);
    PrefixKeepsNewest(sorted, e);
    assert forall x :: x in sorted[..e] ==> x in sorted;
    assert sorted == sorted[..e] + sorted[e..];
    sorted[..e]
  }

  /** The history route's answer for the `jobId` and `limit` parameters. */
  function HistoryPage(h: seq<ExecutionRecord>, jobId: Value, limit: Limit): (page: seq<ExecutionRecord>)
    // as many records as `slice` keeps of the matching ones: min(limit, #matching) for limit >= 0
    ensures |page| == SliceEnd(|Selected(h, jobId)|, limit)
    // every record comes from the history and, with a truthy jobId, belongs to that job
    ensures forall x :: x in page ==> x in h
    ensures Truthy(jobId) ==> forall x :: x in page ==> StrictEquals(x.jobId, jobId)
    // newest first, and no matching record left out is newer than one returned
    ensures NewestFirst(page)
    ensures forall x, i :: x in Selected(h, jobId) && x !in page && 0 <= i < |page| ==>
      page[i].timestamp >= x.timestamp
    // no record more often than it matches, and ties in the order the stable sort leaves them
    ensures multiset(page) <= multiset(Selected(h, jobId))
    ensures page == SortNewestFirst(Selected(h, jobId))[..|page|]
  {
    var selected := Selected(h, jobId);
    Newest(selected, SliceEnd(|selected|, limit))
  }

  /** `history(limit=1)` answers the single most recent matching record. */
  lemma LimitOneIsMostRecent(h: seq<ExecutionRecord>, jobId: Value)
    requires Selected(h, jobId) != []
    ensures |HistoryPage(h, jobId, Parsed(1))| == 1
    ensures forall x :: x in Selected(h, jobId) ==>
      HistoryPage(h, jobId, Parsed(1))[0].timestamp >= x.timestamp
  {
  }
}
