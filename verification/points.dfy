/** Points: an identifier and a byte payload (Point in pymvptree/__init__.py). */
module Points {
  import opened Results
  import opened Bits
  import opened PyObjects
  import opened Errors

  /** A point as Python sees it: the identifier unpickled from the C point
      and a copy of its payload. */
  datatype Point = Point(id: PyObj, data: seq<Byte>)

  /** The `c_obj` argument of the constructor. */
  datatype CObj =
    | NoCObj                          // None
    | DataPointPtr(target: Option<Point>)  // an MVPDP pointer, None when NULL
    | OtherValue                      // any other value or C type

  /** The constructor takes the (id, data) route when both are given. */
  predicate BothGiven(pointId: PyObj, data: PyObj)
  {
    pointId != PyNone && data != PyNone
  }

  /** Point(point_id, data, c_obj): either builds a fresh C point from an
      identifier and bytes, or wraps an existing MVPDP pointer. */
  function NewPoint(pointId: PyObj, data: PyObj, cObj: CObj): (r: Result<Point, Exc>)
    ensures r.Ok? <==>
              ((BothGiven(pointId, data) && Hashable(pointId) && Picklable(pointId) && data.PyBytes?)
               || (!BothGiven(pointId, data) && cObj.DataPointPtr? && cObj.target.Some?))
    ensures r.Ok? && BothGiven(pointId, data) ==> r.value == Point(pointId, data.bytes)
    ensures r.Ok? && !BothGiven(pointId, data) ==> r.value == cObj.target.value
    ensures r == Err(ValueError(MissingArguments)) <==> !BothGiven(pointId, data) && cObj == NoCObj
    ensures r.Err? && r.error != ValueError(MissingArguments) ==> r.error.TypeError?
    ensures BothGiven(pointId, data) && !Hashable(pointId) ==> r == Err(TypeError(IdNotHashable))
    ensures BothGiven(pointId, data) && Hashable(pointId) && !data.PyBytes? ==> r.Err? && r.error.TypeError?
  {
    if BothGiven(pointId, data) then
      if !Hashable(pointId) then Err(TypeError(IdNotHashable))
      else if !Picklable(pointId) then Err(TypeError(IdNotPicklable))
      else if !data.PyBytes? then Err(TypeError(DataNotBytes))
      else Ok(Point(pointId, data.bytes))
    else if cObj == NoCObj then Err(ValueError(MissingArguments))
    else
      match cObj
      case DataPointPtr(Some(p)) => Ok(p)
      case _ => Err(TypeError(InvalidInitialization))
  }

  /** Point.__eq__ with identifiers compared as values: same identifier and
      same payload. */
  function PointEq(p: Point, q: Point): (b: bool)
    ensures b <==> p == q
  {
    p.id == q.id && p.data == q.data
  }

  /** Point.__eq__ as it behaves in Tree.get: the two points are separate
      wrappers, each of which unpickles its own identifier. */
  function PointEqAsWritten(p: Point, q: Point): (b: bool)
    ensures b ==> PointEq(p, q)
    ensures SurvivesPickle(p.id) ==> (b <==> PointEq(p, q))
  {
    UnpickledEq(p.id, q.id) && p.data == q.data
  }

  /** A point whose identifier holds an instance that pickle rebuilds as a
      new object and whose class compares by identity, such as a plain
      `C()`, is never equal to a separate wrapper of itself, so Tree.get
      cannot find it even right after it was added. */
  lemma IdentityIdNeverMatches(p: Point)
    requires !SurvivesPickle(p.id)
    ensures !PointEqAsWritten(p, p)
  {
  }

  /** Point(C(), b'x'), where the identifier is a plain `C()`: an instance
      of a hashable, picklable class that pickle rebuilds as a new object
      and that compares by identity. */
  lemma IdentityIdExample()
    ensures var o := PyOpaque(0, true, true, false);
            NewPoint(o, PyBytes([0x78]), NoCObj) == Ok(Point(o, [0x78])) &&
            !PointEqAsWritten(Point(o, [0x78]), Point(o, [0x78]))
  {
  }

  /** Point.__hash__: the hash of the pair (identifier, payload). */
  function PointHash(p: Point): (r: Result<int, Exc>)
    ensures r.Ok? <==> Hashable(p.id)
    ensures r.Err? ==> r.error == TypeError(Unhashable)
  {
    var pair := PyTuple([p.id, PyBytes(p.data)]);
    assert forall x | x in pair.items :: x == p.id || x == PyBytes(p.data);
    match PyHash(pair)
    case None => Err(TypeError(Unhashable))
    case Some(h) => Ok(h)
  }

  /** Points that compare equal hash equal, so a set holds one of them. */
  lemma EqualPointsHashEqual(p: Point, q: Point)
    requires PointEq(p, q)
    ensures PointHash(p) == PointHash(q)
  {
  }

  /** A point built from an identifier and bytes can be hashed. */
  lemma BuiltPointsAreHashable(pointId: PyObj, data: PyObj, cObj: CObj)
    requires BothGiven(pointId, data) && NewPoint(pointId, data, cObj).Ok?
    ensures PointHash(NewPoint(pointId, data, cObj).value).Ok?
  {
  }

  /** The identifier of `p` can be passed back to the constructor. */
  predicate Copyable(p: Point)
  {
    p.id != PyNone && Hashable(p.id) && Picklable(p.id)
  }

  /** Point(p.point_id, p.data) rebuilds a point equal to `p` whenever the
      identifier can be rebuilt, and fails otherwise. */
  lemma CopyRoundTrip(p: Point)
    ensures NewPoint(p.id, PyBytes(p.data), NoCObj).Ok? <==> Copyable(p)
    ensures Copyable(p) ==> NewPoint(p.id, PyBytes(p.data), NoCObj) == Ok(p)
    ensures p.id == PyNone ==> NewPoint(p.id, PyBytes(p.data), NoCObj) == Err(ValueError(MissingArguments))
  {
  }

  /** Wrapping a pointer to a stored point gives that point back. */
  lemma WrapRoundTrip(p: Point)
    ensures NewPoint(PyNone, PyNone, DataPointPtr(Some(p))) == Ok(p)
  {
  }
}
