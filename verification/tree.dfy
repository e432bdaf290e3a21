/** The Tree wrapper of pymvptree/__init__.py: de-duplicating insertion and
    exact lookup on top of the engine's range query. */
module Trees {
  import opened Results
  import opened Bits
  import opened PyObjects
  import opened Errors
  import opened Points
  import opened Metric
  import opened Engine

  // ---------------------------------------------------------------------
  // The argument of Tree.add

  /** One item produced by iterating over the argument. */
  datatype Element = PointElement(point: Point) | OtherElement(value: PyObj)

  /** What Tree.add may be given: a single Point, an iterable (a one-shot
      iterable, such as a generator, can be traversed only once), or a value
      that cannot be iterated. */
  datatype AddArg =
    | SinglePoint(point: Point)
    | Iterable(elements: seq<Element>, oneShot: bool)
    | NotIterable

  predicate AllPoints(es: seq<Element>)
  {
    forall e | e in es :: e.PointElement?
  }

  /** The points of an iterable of points, in iteration order. */
  function PointsOf(es: seq<Element>): (ps: seq<Point>)
    requires AllPoints(es)
    ensures |ps| == |es|
    ensures forall i | 0 <= i < |es| :: es[i] == PointElement(ps[i])
    ensures forall p :: p in ps <==> PointElement(p) in es
  {
    if |es| == 0 then []
    else
      assert es[0] in es;
      assert forall e | e in es[1..] :: e in es;
      var rest := PointsOf(es[1..]);
      assert forall e :: e in es <==> e == es[0] || e in es[1..];
      [es[0].point] + rest
  }

  /** The point list of Tree.add as the code computes it: the all(...) test
      consumes a one-shot iterable, so the loop that follows sees nothing. */
  function PointListAsWritten(arg: AddArg): (r: Result<seq<Point>, Exc>)
    ensures r.Err? <==> arg.NotIterable? || (arg.Iterable? && !AllPoints(arg.elements))
    ensures r.Err? ==> r.error == TypeError(NotPointOrPoints)
    ensures r.Ok? && arg.Iterable? && arg.oneShot ==> r.value == []
  {
    match arg
    case SinglePoint(p) => Ok([p])
    case Iterable(es, oneShot) =>
      if AllPoints(es) then Ok(if oneShot then [] else PointsOf(es))
      else Err(TypeError(NotPointOrPoints))
    case NotIterable => Err(TypeError(NotPointOrPoints))
  }

  /** The point list of Tree.add with the iterable materialised before it is
      checked, so a one-shot iterable is seen by both passes. */
  function PointList(arg: AddArg): (r: Result<seq<Point>, Exc>)
    ensures r.Err? <==> arg.NotIterable? || (arg.Iterable? && !AllPoints(arg.elements))
    ensures r.Err? ==> r.error == TypeError(NotPointOrPoints)
    ensures r.Ok? && arg.SinglePoint? ==> r.value == [arg.point]
    ensures r.Ok? && arg.Iterable? ==>
      |r.value| == |arg.elements| &&
      forall i | 0 <= i < |r.value| :: arg.elements[i] == PointElement(r.value[i])
    ensures r.Ok? ==> forall p :: p in r.value <==>
      (arg.SinglePoint? && p == arg.point) || (arg.Iterable? && PointElement(p) in arg.elements)
  {
    match arg
    case SinglePoint(p) => Ok([p])
    case Iterable(es, _) =>
      if AllPoints(es) then Ok(PointsOf(es)) else Err(TypeError(NotPointOrPoints))
    case NotIterable => Err(TypeError(NotPointOrPoints))
  }

  /** Passing a generator of points to Tree.add: the code submits nothing,
      although the generator yields a point. */
  lemma OneShotIterableIsDropped(p: Point)
    ensures PointListAsWritten(Iterable([PointElement(p)], true)) == Ok([])
    ensures PointList(Iterable([PointElement(p)], true)) == Ok([p])
  {
    assert PointsOf([PointElement(p)]) == [p];
  }

  /** Everything but one-shot iterables is read the same either way. */
  lemma PointListAgrees(arg: AddArg)
    requires !(arg.Iterable? && arg.oneShot)
    ensures PointListAsWritten(arg) == PointList(arg)
  {
  }

  // ---------------------------------------------------------------------
  // The set of copies Tree.add submits

  /** The copies of the listed points absent from `stored`, built in list
      order, or the error of the first copy that fails. */
  function CollectNew(pl: seq<Point>, stored: seq<Point>): Result<set<Point>, Exc>
  {
    if |pl| == 0 then Ok({})
    else
      match CollectNew(pl[..|pl| - 1], stored)
      case Err(e) => Err(e)
      case Ok(s) =>
        var p := pl[|pl| - 1];
        if p in stored then Ok(s)
        else
          match NewPoint(p.id, PyBytes(p.data), NoCObj)
          case Err(e) => Err(e)
          case Ok(c) => Ok(s + {c})
  }

  /** Once a copy has failed, later points change nothing. */
  lemma {:induction false} CollectNewErrPersists(pl: seq<Point>, stored: seq<Point>, k: nat)
    requires k <= |pl| && CollectNew(pl[..k], stored).Err?
    ensures CollectNew(pl, stored) == CollectNew(pl[..k], stored)
    decreases |pl| - k
  {
    if k < |pl| {
      var next := pl[..k + 1];
      assert next[..k] == pl[..k];
      CollectNewErrPersists(pl, stored, k + 1);
    } else {
      assert pl[..k] == pl;
    }
  }

  /** The copies are the listed points the tree lacks, and copying fails
      exactly when one of them has an identifier that cannot be rebuilt. */
  lemma {:induction false} CollectNewSpec(pl: seq<Point>, stored: seq<Point>)
    ensures CollectNew(pl, stored).Ok? <==> forall p | p in pl && p !in stored :: Copyable(p)
    ensures CollectNew(pl, stored).Ok? ==>
      CollectNew(pl, stored).value == set p | p in pl && p !in stored
  {
    if |pl| > 0 {
      var init, p := pl[..|pl| - 1], pl[|pl| - 1];
      CollectNewSpec(init, stored);
      CopyRoundTrip(p);
      assert pl == init + [p];
      assert forall q :: q in pl <==> q in init || q == p;
    }
  }

  /** What Tree.add submits for `arg` when the tree holds `stored`. */
  function AddPlan(arg: AddArg, stored: seq<Point>): Result<set<Point>, Exc>
  {
    match PointList(arg)
    case Err(e) => Err(e)
    case Ok(pl) => CollectNew(pl, stored)
  }

  /** No point occurs twice. */
  predicate Distinct(s: seq<Point>)
  {
    forall i, j | 0 <= i < j < |s| :: s[i] != s[j]
  }

  // ---------------------------------------------------------------------
  // The tree

  /** Tree: the points held by the engine, in insertion order. */
  class Tree {
    var points: seq<Point>

    /** Points are only added when no equal point is stored. */
    ghost predicate Valid()
      reads this
    {
      Distinct(points)
    }

    /** Tree(): an empty tree. */
    constructor()
      ensures points == [] && Valid()
    {
      points := [];
    }

    /** The retrieval half of Tree.filter: a range query whose EmptyTree
        ValueError is swallowed, each result wrapped as a Point. */
    method Search(query: seq<Byte>, radius: real) returns (found: seq<Point>)
      ensures found == Matches(points, query, radius)
      ensures forall q :: q in found <==> q in points && Distance(q.data, query) as real <= radius
    {
      var (code, res) := Retrieve(points, query, radius);
      found := [];
      var e := MvpErrors(code);
      if e.Some? && e.value.ValueError? {
        return;
      }
      for i := 0 to |res|
        invariant found == res[..i]
      {
        var wrapped := NewPoint(PyNone, PyNone, DataPointPtr(Some(res[i])));
        found := found + [wrapped.value];
      }
      assert res[..|res|] == res;
    }

    /** Tree.filter: the query point Point(b'', data) must be buildable,
        which needs `data` to be bytes. */
    method Filter(data: PyObj, radius: real) returns (r: Result<seq<Point>, Exc>)
      ensures r.Ok? <==> data.PyBytes?
      ensures r.Ok? ==> r.value == Matches(points, data.bytes, radius)
      ensures r.Ok? ==> forall q :: q in r.value <==>
        q in points && Distance(q.data, data.bytes) as real <= radius
      ensures data == PyNone ==> r == Err(ValueError(MissingArguments))
      ensures data != PyNone && !data.PyBytes? ==> r == Err(TypeError(DataNotBytes))
    {
      var query := NewPoint(PyBytes([]), data, NoCObj);
      if query.Err? {
        return Err(query.error);
      }
      var found := Search(query.value.data, radius);
      r := Ok(found);
    }

    /** Tree.get: the argument itself when an equal point is stored. */
    method Get(point: Point) returns (r: Result<Point, Exc>)
      ensures r.Ok? <==> point in points
      ensures r.Ok? ==> r.value == point
      ensures r.Err? ==> r.error == ValueError(PointNotFound)
    {
      // point.data is bytes, so the query point of filter is always built.
      var found := Search(point.data, 0.0);
      MatchesAtRadiusZero(points, point.data);
      for i := 0 to |found|
        invariant point !in found[..i]
      {
        if PointEq(found[i], point) {
          return Ok(point);
        }
      }
      assert found[..|found|] == found;
      return Err(ValueError(PointNotFound));
    }

    /** Tree.exists: get returns instead of raising ValueError, the only
        exception it raises. */
    method Exists(point: Point) returns (b: bool)
      ensures b <==> point in points
    {
      var r := Get(point);
      b := r.Ok?;
    }

    /** The loop of Tree.add: a copy of every listed point that does not
        exist in the tree, in list order, stopping at the first copy that
        fails. */
    method CollectCopies(pl: seq<Point>) returns (r: Result<set<Point>, Exc>)
      ensures r == CollectNew(pl, points)
      ensures r.Ok? <==> forall p | p in pl && p !in points :: Copyable(p)
      ensures r.Ok? ==> r.value == set p | p in pl && p !in points
    {
      CollectNewSpec(pl, points);
      var treePoints: set<Point> := {};
      for i := 0 to |pl|
        invariant CollectNew(pl[..i], points) == Ok(treePoints)
      {
        var p := pl[i];
        assert pl[..i + 1][..i] == pl[..i];
        var present := Exists(p);
        if !present {
          var copy := NewPoint(p.id, PyBytes(p.data), NoCObj);
          if copy.Err? {
            CollectNewErrPersists(pl, points, i + 1);
            return Err(copy.error);
          }
          treePoints := treePoints + {copy.value};
        }
      }
      assert pl[..|pl|] == pl;
      r := Ok(treePoints);
    }

    /** Tree.add: copies the listed points the tree lacks, collapses equal
        copies, submits them in one engine call whose status is `status`,
        and reports whether anything was submitted.  A failing status leaves
        the points as they were. */
    method Add(arg: AddArg, status: int) returns (r: Result<bool, Exc>)
      requires Valid()
      modifies this
      ensures Valid()
      ensures r.Err? || r == Ok(false) ==> points == old(points)
      ensures AddPlan(arg, old(points)).Err? ==> r == Err(AddPlan(arg, old(points)).error)
      ensures AddPlan(arg, old(points)) == Ok({}) ==> r == Ok(false)
      ensures AddPlan(arg, old(points)).Ok? && AddPlan(arg, old(points)).value != {} ==>
        if MvpErrors(status).Some? then r == Err(MvpErrors(status).value) else r == Ok(true)
      ensures r == Ok(true) ==>
        |points| == |old(points)| + |AddPlan(arg, old(points)).value| &&
        points[..|old(points)|] == old(points) &&
        forall q :: q in points[|old(points)|..] <==> q in AddPlan(arg, old(points)).value
      ensures r.Ok? ==> forall p | p in PointList(arg).value :: p in points
    {
      var listed := PointList(arg);
      if listed.Err? {
        return Err(listed.error);
      }
      var pl := listed.value;
      var copies := CollectCopies(pl);
      if copies.Err? {
        return Err(copies.error);
      }
      var treePoints := copies.value;
      if treePoints == {} {
        assert forall p | p in pl :: p in points || p in treePoints;
        return Ok(false);
      }

      var cPoints := ToArray(treePoints);
      var error := MvpErrors(status);
      if error.Some? {
        return Err(error.value);
      }
      var added := cPoints[..];
      AppendDistinct(points, added);
      points := points + added;
      assert points[|old(points)|..] == added;
      return Ok(true);
    }
  }

  /** The C array of points handed to the engine: the set's members, each
      once, in iteration order. */
  method ToArray(s: set<Point>) returns (a: array<Point>)
    ensures fresh(a)
    ensures a.Length == |s|
    ensures forall q :: q in a[..] <==> q in s
    ensures Distinct(a[..])
  {
    a := new Point[|s|];
    var rest := s;
    var idx := 0;
    while rest != {}
      invariant rest <= s
      invariant idx + |rest| == |s| == a.Length
      invariant forall q :: q in a[..idx] <==> q in s && q !in rest
      invariant Distinct(a[..idx])
      decreases |rest|
    {
      var q :| q in rest;
      ghost var before := a[..idx];
      a[idx] := q;
      assert a[..idx + 1] == before + [q];
      idx := idx + 1;
      rest := rest - {q};
    }
    assert a[..] == a[..idx];
  }

  /** Appending points the sequence lacks keeps it free of repeats. */
  lemma AppendDistinct(xs: seq<Point>, ys: seq<Point>)
    requires Distinct(xs) && Distinct(ys)
    requires forall q | q in ys :: q !in xs
    ensures Distinct(xs + ys)
  {
    forall i, j | 0 <= i < j < |xs + ys|
      ensures (xs + ys)[i] != (xs + ys)[j]
    {
      if j >= |xs| && i < |xs| {
        assert (xs + ys)[j] in ys;
      }
    }
  }
}
