/** The MVP-tree engine (mvptree.c) is not part of this model.  Its
    retrieval is stated here as an assumption: a range query returns the
    stored points within the radius, and an empty tree reports
    MVP_EMPTYTREE. */
module Engine {
  import opened Bits
  import opened Metric
  import opened Errors
  import opened Points

  /** The stored points within `radius` of `query`, in storage order. */
  function Matches(stored: seq<Point>, query: seq<Byte>, radius: real): (r: seq<Point>)
    ensures forall q :: q in r <==> q in stored && Distance(q.data, query) as real <= radius
    ensures |r| <= |stored|
  {
    if |stored| == 0 then []
    else
      var rest := Matches(stored[..|stored| - 1], query, radius);
      var last := stored[|stored| - 1];
      assert stored == stored[..|stored| - 1] + [last];
      if Distance(last.data, query) as real <= radius then rest + [last] else rest
  }

  /** mvptree_retrieve as the binding sees it: a status code and the found
      points. */
  function Retrieve(stored: seq<Point>, query: seq<Byte>, radius: real): (r: (int, seq<Point>))
    ensures r.0 == Code(EmptyTree) <==> |stored| == 0
    ensures r.0 != Code(EmptyTree) ==> r.0 == Code(Success)
    ensures r.1 == Matches(stored, query, radius)
  {
    if |stored| == 0 then (Code(EmptyTree), []) else (Code(Success), Matches(stored, query, radius))
  }

  /** At radius 0 the query finds exactly the stored points whose payload
      equals the query, since only equal payloads are at distance 0. */
  lemma MatchesAtRadiusZero(stored: seq<Point>, query: seq<Byte>)
    ensures forall q :: q in Matches(stored, query, 0.0) <==> q in stored && q.data == query
  {
    forall q: Point
      ensures Distance(q.data, query) as real <= 0.0 <==> q.data == query
    {
      DistanceZeroIff(q.data, query);
    }
  }
}
