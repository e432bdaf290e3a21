/** The Python values a point identifier can be, as far as the binding
    cares: whether hash() and pickle accept them. */
module PyObjects {
  import opened Results
  import opened Bits

  datatype PyObj =
    | PyNone
    | PyInt(i: int)
    | PyStr(s: string)
    | PyBytes(bytes: seq<Byte>)
    | PyTuple(items: seq<PyObj>)
    | PyList(items: seq<PyObj>)
      /** An instance of some other class, with state `tag`.  Whether
          hash() and pickle.dumps accept it is up to the class.  `valueEq`
          holds when two objects unpickled separately from its
          serialization compare equal: false for an instance that pickle
          rebuilds as a new object and whose class compares by identity,
          such as a plain `C()`; true for state-compared instances and for
          objects pickle stores by reference, such as enum members. */
    | PyOpaque(tag: int, hashable: bool, picklable: bool, valueEq: bool)

  /** hash(o) returns instead of raising TypeError: lists never, tuples
      when every item is hashable. */
  predicate Hashable(o: PyObj)
  {
    match o
    case PyList(_) => false
    case PyTuple(items) => forall x | x in items :: Hashable(x)
    case PyOpaque(_, h, _, _) => h
    case _ => true
  }

  /** pickle.dumps(o) returns instead of raising. */
  predicate Picklable(o: PyObj)
  {
    match o
    case PyList(items) => forall x | x in items :: Picklable(x)
    case PyTuple(items) => forall x | x in items :: Picklable(x)
    case PyOpaque(_, _, p, _) => p
    case _ => true
  }

  /** An object unpickled from the serialization of `o` compares equal to
      another such object: false as soon as `o` holds an instance that
      pickle rebuilds as a new object and whose class compares by
      identity. */
  predicate SurvivesPickle(o: PyObj)
  {
    match o
    case PyList(items) => forall x | x in items :: SurvivesPickle(x)
    case PyTuple(items) => forall x | x in items :: SurvivesPickle(x)
    case PyOpaque(_, _, _, v) => v
    case _ => true
  }

  /** Python's `a == b` for objects unpickled separately from the
      serializations of the values `a` and `b`. */
  function UnpickledEq(a: PyObj, b: PyObj): (r: bool)
    ensures r ==> a == b
    ensures !SurvivesPickle(a) ==> !r
  {
    a == b && SurvivesPickle(a)
  }

  /** hash(o): defined exactly for hashable values.  The numbers are a
      stand-in for CPython's; only definedness and determinism matter to
      the binding. */
  function PyHash(o: PyObj): (h: Option<int>)
    ensures h.Some? <==> Hashable(o)
  {
    match o
    case PyNone => Some(0)
    case PyInt(i) => Some(i)
    case PyStr(s) => Some(|s|)
    case PyBytes(b) => Some(|b|)
    case PyList(_) => None
    case PyOpaque(tag, h, _, _) => if h then Some(tag) else None
    case PyTuple(items) => TupleHash(o, items)
  }

  /** Combines the hashes of the items of tuple `t`, failing when one fails. */
  function TupleHash(t: PyObj, items: seq<PyObj>): (h: Option<int>)
    requires forall x | x in items :: x < t
    ensures h.Some? <==> forall x | x in items :: Hashable(x)
    decreases t, |items|
  {
    if |items| == 0 then Some(0x345678)
    else
      assert items[0] in items;
      assert forall x | x in items[1..] :: x in items;
      match PyHash(items[0])
      case None => None
      case Some(first) =>
        match TupleHash(t, items[1..])
        case None => None
        case Some(rest) => Some(1000003 * rest + first)
  }
}
