/**
 The spot price oracle: the observed price history for one instance type and availability
 zone, the operator's mocked prices that override it, and the refresh that is suppressed
 while any mocked price exists.
 */
module Prices {
  import opened Wrappers

  const SupportedInstanceType := "p2.xlarge"
  const SupportedAvailabilityZone := "us-east-1b"
  const SupportedRegion := "us-east-1"

  /** One price observation; `ts` is the observation time as an integer clock reading. */
  datatype PricePoint = PricePoint(price: real, ts: int)

  /** What the external price query gave back: the points, or a failure (an error or a timeout). */
  datatype Fetch = Fetched(points: seq<PricePoint>) | FetchFailed

  /** How a refresh ended. */
  datatype RefreshOutcome =
    | Suppressed                          // mocked prices exist: nothing was fetched or changed
    | Loaded(history: seq<PricePoint>)    // the observed history was replaced by this
    | UpstreamUnavailable                 // the query failed before anything changed
    | NoPriceData                         // the query returned no points: the observed history is now empty
                                          // and reading the current price for the log line fails

  predicate SortedByTs(s: seq<PricePoint>) {
    forall i, j :: 0 <= i < j < |s| ==> s[i].ts <= s[j].ts
  }

  /** The points of `s` observed at time `t`, in their order in `s`. */
  function WithTs(s: seq<PricePoint>, t: int): seq<PricePoint> {
    if s == [] then []
    else WithTs(s[..|s| - 1], t) + (if s[|s| - 1].ts == t then [s[|s| - 1]] else [])
  }

  /** Puts `x` into the sorted `s` after every point observed no later than `x`. */
  function Insert(s: seq<PricePoint>, x: PricePoint): (r: seq<PricePoint>)
    requires SortedByTs(s)
    ensures |r| == |s| + 1
    ensures multiset(r) == multiset(s) + multiset{x}
    ensures SortedByTs(r)
    ensures r[|r| - 1].ts == if s == [] || s[|s| - 1].ts <= x.ts then x.ts else s[|s| - 1].ts
  {
    if s == [] || s[|s| - 1].ts <= x.ts then s + [x]
    else
      var y := s[|s| - 1];
      assert s == s[..|s| - 1] + [y];
      Insert(s[..|s| - 1], x) + [y]
  }

  /** Ascending order by timestamp, keeping points with equal timestamps in their input order. */
  function SortByTs(s: seq<PricePoint>): (r: seq<PricePoint>)
    ensures |r| == |s|
    ensures multiset(r) == multiset(s)
    ensures SortedByTs(r)
  {
    if s == [] then []
    else
      assert s == s[..|s| - 1] + [s[|s| - 1]];
      Insert(SortByTs(s[..|s| - 1]), s[|s| - 1])
  }

  lemma {:induction false} InsertStable(s: seq<PricePoint>, x: PricePoint, t: int)
    requires SortedByTs(s)
    ensures WithTs(Insert(s, x), t) == WithTs(s, t) + (if x.ts == t then [x] else [])
  {
    var xs := if x.ts == t then [x] else [];
    if s == [] || s[|s| - 1].ts <= x.ts {
      assert Insert(s, x) == s + [x];
      assert (s + [x])[..|s|] == s;
    } else {
      var y, s' := s[|s| - 1], s[..|s| - 1];
      var ys := if y.ts == t then [y] else [];
      var r' := Insert(s', x);
      assert Insert(s, x) == r' + [y];
      assert (r' + [y])[..|r'|] == r';
      assert WithTs(r' + [y], t) == WithTs(r', t) + ys;
      InsertStable(s', x, t);
      assert WithTs(s, t) == WithTs(s', t) + ys;
      calc {
        WithTs(Insert(s, x), t);
        WithTs(r', t) + ys;
        (WithTs(s', t) + xs) + ys;
        { SwapWhenOneEmpty(WithTs(s', t), xs, ys); }
        (WithTs(s', t) + ys) + xs;
        WithTs(s, t) + xs;
      }
    }
  }

  lemma SwapWhenOneEmpty(w: seq<PricePoint>, a: seq<PricePoint>, b: seq<PricePoint>)
    requires a == [] || b == []
    ensures (w + a) + b == (w + b) + a
  {
    if a == [] {
      assert w + a == w;
    } else {
      assert w + b == w;
    }
  }

  /** The sort is stable: for every timestamp, the points observed then keep their input order. */
  lemma {:induction false} SortByTsStable(s: seq<PricePoint>, t: int)
    ensures WithTs(SortByTs(s), t) == WithTs(s, t)
  {
    if s != [] {
      SortByTsStable(s[..|s| - 1], t);
      InsertStable(SortByTs(s[..|s| - 1]), s[|s| - 1], t);
    }
  }

  lemma SortedSplit(s: seq<PricePoint>)
    requires SortedByTs(s) && s != []
    ensures var s' := s[..|s| - 1];
      SortedByTs(s') && (s' == [] || s'[|s'| - 1].ts <= s[|s| - 1].ts)
  {
  }

  /** Points that are already in ascending order are left as they are; so sorting twice is sorting once. */
  lemma {:induction false} SortByTsOfSorted(s: seq<PricePoint>)
    requires SortedByTs(s)
    ensures SortByTs(s) == s
  {
    if s != [] {
      var s', y := s[..|s| - 1], s[|s| - 1];
      SortedSplit(s);
      SortByTsOfSorted(s');
      assert SortByTs(s) == Insert(s', y);
      assert s' + [y] == s;
    }
  }

  /** The module-level `spotInstancePriceHistory` and `mockedPriceHistory`. */
  class PriceOracle {
    var observed: seq<PricePoint>
    var mocked: seq<PricePoint>

    constructor ()
      ensures observed == [] && mocked == []
    {
      observed, mocked := [], [];
    }

    /** The combined view: the observed points followed by the mocked ones. */
    function History(): (h: seq<PricePoint>)
      reads this
      ensures |h| == |observed| + |mocked|
      ensures h[..|observed|] == observed && h[|observed|..] == mocked
    {
      observed + mocked
    }

    /** The price of the last point of the combined view; None when the view is empty. */
    function CurrentPrice(): (p: Option<real>)
      reads this
      ensures p.Some? <==> observed != [] || mocked != []
      // the latest mocked price overrides every observed one
      ensures mocked != [] ==> p == Some(mocked[|mocked| - 1].price)
      ensures mocked == [] && observed != [] ==> p == Some(observed[|observed| - 1].price)
    {
      var h := History();
      if h == [] then None else Some(h[|h| - 1].price)
    }

    /** A refresh does nothing while any mocked price exists. */
    predicate RefreshSuppressed()
      reads this
    {
      mocked != []
    }

    /**
     Replaces the observed history with the fetched points in ascending timestamp order,
     unless mocked prices exist. A failed fetch leaves everything as it was.
     */
    method Refresh(fetch: Fetch) returns (outcome: RefreshOutcome)
      modifies this
      ensures mocked == old(mocked)
      ensures old(RefreshSuppressed()) ==> outcome == Suppressed && observed == old(observed)
      ensures !old(RefreshSuppressed()) && fetch.FetchFailed? ==>
        outcome == UpstreamUnavailable && observed == old(observed)
      ensures !old(RefreshSuppressed()) && fetch.Fetched? ==>
        observed == SortByTs(fetch.points) &&
        outcome == (if fetch.points == [] then NoPriceData else Loaded(observed))
    {
      if |mocked| > 0 {
        return Suppressed;
      }
      match fetch {
        case FetchFailed =>
          outcome := UpstreamUnavailable;
        case Fetched(points) =>
          observed := SortByTs(points);
          var current := CurrentPrice();
          outcome := if current.None? then NoPriceData else Loaded(observed);
      }
    }

    /** Appends a mocked price observed at `now`; from then on it is the current price. */
    method AddMock(price: real, now: int)
      modifies this
      ensures mocked == old(mocked) + [PricePoint(price, now)]
      ensures observed == old(observed)
      ensures CurrentPrice() == Some(price)
      ensures RefreshSuppressed()
    {
      mocked := mocked + [PricePoint(price, now)];
    }

    /** Empties the mocked prices, which enables refreshing again. */
    method ClearMocks()
      modifies this
      ensures mocked == []
      ensures observed == old(observed)
      ensures !RefreshSuppressed()
    {
      mocked := [];
    }
  }

  /** Clearing the mocked prices a second time changes nothing further. */
  method ClearMocksTwice(o: PriceOracle)
    modifies o
    ensures o.observed == old(o.observed) && o.mocked == []
  {
    o.ClearMocks();
    ghost var once := (o.observed, o.mocked);
    o.ClearMocks();
    assert (o.observed, o.mocked) == once;
  }
}
