# pymvptree binding core in Dafny

pymvptree is a Python binding to an MVP-tree (multi-vantage-point tree), a
metric index for similarity search over byte fingerprints. This project
models the logic that the repository itself contains around the C engine:

- **Bits** and **Metric**: the distance the tree is built with.
  - `count_set_bits` is Kernighan's population count.
  - `bitlevenshtein` is a bytewise Hamming distance. Each byte position that
    only one payload covers costs a flat 8.
  - `Metric.Distance` is the specification.
  - The lemmas prove that the distance is symmetric, bounded, zero exactly
    on equal payloads, and that it satisfies the triangle inequality the
    engine's pruning relies on.
- **MvpWrapper**: the C records and loops.
  - `DataPoint` is the `MVPDP` record, a class over a byte array.
  - `MkPoint` is the data copy of `mkpoint`.
  - `BitLevenshtein` is the C loop, including the `char` sign extension
    before `count_set_bits`. It is proved equal to `Metric.Distance`.
- **Errors**: the `MVPError` table and `mvp_errors`, which turns an engine
  status into no exception, IOError, ValueError or RuntimeError.
- **PyObjects** and **Points**: the Python side of a point.
  - `Point.__init__` validates its arguments.
  - Equality compares identifier and payload.
  - The hash is that of the pair (identifier, payload).
- **Engine**: the engine's range query is not part of this model. It is
  stated as an assumption: an empty tree reports `MVP_EMPTYTREE`, and
  otherwise the query returns the stored points within the radius.
  `MatchesAtRadiusZero` shows that at radius 0 this means "the stored points
  with the same payload".
- **Trees**: the `Tree` class, with `add`, `get`, `exists` and `filter`.
  - `add` submits only copies of points the tree lacks, collapsed by a set,
    and keeps the stored points free of repeats.

Facts about the code worth noting:

- `bitlevenshtein` accepts payloads of different lengths. It charges 8 for
  each byte past the shorter payload (`Metric.Decomposition`).
- Only FileOpen, FileClose and FileNotFound raise IOError. NoWrite, MemMap,
  Munmap, FileTruncate, MremapFail and KNearestCap raise RuntimeError, like
  every other failure except EmptyTree (pymvptree/__init__.py:67-74,
  `Errors.MemberClassification`).
- Invalid point arguments raise TypeError in pymvptree/__init__.py, although
  tests/unit/test_hilevel.py expects ValueError. The model follows
  pymvptree/__init__.py.
- `Tree.add` tests its argument against `collections.Iterable`, a name that
  exists only before Python 3.10. The model describes those versions. On
  later versions every argument that is not a Point raises AttributeError.

## Model

| member | source | states |
|---|---|---|
| Bits.CountSetBits | pymvptree/mvpwrapper.c:11-18 | the loop returns the number of set bits of the byte, at most 8 |
| Bits.ClearLowestSetBit | pymvptree/mvpwrapper.c:15 | `n &= n - 1` clears exactly one set bit, so the loop runs once per set bit |
| Bits.PopCountIsBitSum | pymvptree/mvpwrapper.c:11-18 | the shift-and-count popcount equals the sum of the eight bit tests |
| Bits.PopCountRange | pymvptree/mvpwrapper.c:11-18 | a byte has at most 8 set bits, and none exactly when it is 0 |
| Bits.ByteDistanceRange | pymvptree/mvpwrapper.c:46 | two bytes differ in at most 8 bits, and in none exactly when they are equal |
| Bits.ByteDistanceSymmetric | pymvptree/mvpwrapper.c:46 | the per-byte cost does not depend on operand order |
| Bits.ByteDistanceTriangle | pymvptree/mvpwrapper.c:46 | the per-byte cost obeys the triangle inequality |
| Metric.Decomposition | pymvptree/mvpwrapper.c:29-47 | the distance is the bit Hamming distance of the common prefix plus 8 for each byte of the longer payload beyond the shorter |
| Metric.EqualLengthIsHamming | pymvptree/mvpwrapper.c:31-47 | for equal lengths the distance is the sum of popcount(a[i] xor b[i]) |
| Metric.CostBelowTail | pymvptree/mvpwrapper.c:32-44 | every position at or past the shorter length adds exactly 8 |
| Metric.HammingBackIsHamming | pymvptree/mvpwrapper.c:31-47 | summing positions from the back or the front gives the same Hamming distance |
| Metric.DistanceSymmetric | pymvptree/mvpwrapper.c:29-47 | swapping the two points gives the same distance |
| Metric.DistanceBounds | pymvptree/mvpwrapper.c:29-50 | 0 <= distance <= 8 * max(lenA, lenB) |
| Metric.DistanceZeroIff | pymvptree/mvpwrapper.c:31-48 | the distance is 0 exactly when the payloads are identical, length included |
| Metric.Triangle | pymvptree/mvpwrapper.c:29-48 | distance(a, c) <= distance(a, b) + distance(b, c) |
| Metric.CostBelowTriangle | pymvptree/mvpwrapper.c:31-48 | the triangle inequality holds for every prefix of positions |
| Metric.PositionTriangle | pymvptree/mvpwrapper.c:32-47 | the triangle inequality holds at every byte position, covered or not |
| MvpWrapper.DataPoint.constructor | pymvptree/mvpwrapper.c:60 | a new point is empty, with no payload |
| MvpWrapper.MkPoint | pymvptree/mvpwrapper.c:59-74 | the fresh point records `datalen` and a copy of exactly the first `datalen` bytes, and the identifier |
| MvpWrapper.TruncatedXor | pymvptree/mvpwrapper.c:24-46 | xor of sign-extended chars passed as an unsigned char is the xor of the two bytes |
| MvpWrapper.BitLevenshtein | pymvptree/mvpwrapper.c:21-51 | -1 exactly when a point is null, which is the only negative result; otherwise the distance of the payloads, at most 8 * maxlen |
| Errors.Code | pymvptree/__init__.py:16-42 | each member's value is its position in the code table |
| Errors.FromCode | pymvptree/__init__.py:16-42 | MVPError(c) is defined exactly for 0..25 and returns the member with value c |
| Errors.CodeOfIndex | pymvptree/__init__.py:16-42 | every value 0..25 names the member listed at that position |
| Errors.CodeRoundTrip | pymvptree/__init__.py:16-42 | decoding a member's value gives the member back |
| Errors.MvpErrors | pymvptree/__init__.py:55-74 | no exception exactly for 0; IOError exactly for 12, 13 and 24; ValueError exactly for 21 and for values outside the table; RuntimeError for every other code |
| Errors.ExceptionNamesCode | pymvptree/__init__.py:59-74 | the raised exception carries the member named by the code |
| Errors.MemberClassification | pymvptree/__init__.py:59-74 | member by member: no exception exactly for Success; IOError exactly for FileOpen, FileClose and FileNotFound; ValueError exactly for EmptyTree; RuntimeError for every other member, including NoWrite, MemMap, Munmap, FileTruncate, MremapFail and KNearestCap |
| PyObjects.UnpickledEq | pymvptree/__init__.py:150-169 | two separately unpickled identifiers are equal only if they are equal as values and hold no instance that pickle rebuilds as a new object and whose class compares by identity (such as a plain `C()`) |
| PyObjects.PyHash | pymvptree/__init__.py:108-111 | hash() succeeds exactly on hashable values; a tuple is hashable when all its items are |
| Points.NewPoint | pymvptree/__init__.py:105-143 | ValueError exactly when neither (id, data) nor c_obj is given; TypeError for an unhashable or unpicklable id, non-bytes data, or a c_obj that is not a non-NULL MVPDP pointer; otherwise the point with that id and data |
| Points.BuiltPointsAreHashable | pymvptree/__init__.py:107-111 | a point built from an id and bytes can be hashed |
| Points.CopyRoundTrip | pymvptree/__init__.py:232 | Point(p.point_id, p.data) rebuilds a point equal to p as a value exactly when p's id is not None, hashable and picklable |
| Points.WrapRoundTrip | pymvptree/__init__.py:135-163 | wrapping a pointer to a stored point yields that point's id and data |
| Points.PointEq | pymvptree/__init__.py:168-169 | two points are equal exactly when ids and payloads are equal as values (the corrected comparison that the tree uses) |
| Points.PointEqAsWritten | pymvptree/__init__.py:150-169 | the comparison in Tree.get implies value equality, and coincides with it for identifiers that survive pickling |
| Points.IdentityIdNeverMatches | pymvptree/__init__.py:150-169 | a point whose id holds an instance that pickle rebuilds as a new object and whose class compares by identity (such as a plain `C()`) never equals a fresh wrapper of itself |
| Points.IdentityIdExample | pymvptree/__init__.py:105-169 | Point(C(), b'x') is built, yet it is unequal to a wrapper of itself |
| Points.PointHash | pymvptree/__init__.py:165-166 | hashing a point succeeds exactly when its id is hashable, else TypeError |
| Points.EqualPointsHashEqual | pymvptree/__init__.py:165-169 | equal points have equal hashes |
| Engine.Matches | pymvptree/__init__.py:283-288 | the found points are exactly the stored points within the radius of the query |
| Engine.Retrieve | pymvptree/__init__.py:283-288 | assumed engine behaviour: MVP_EMPTYTREE exactly for an empty tree, otherwise success with the points within the radius |
| Engine.MatchesAtRadiusZero | pymvptree/__init__.py:253 | at radius 0 the query finds exactly the stored points with the query's payload |
| Trees.PointsOf | pymvptree/__init__.py:222-224 | the points of an all-points iterable: the i-th point is the i-th element's point |
| Trees.PointListAsWritten | pymvptree/__init__.py:220-230 | TypeError unless given a Point or an iterable of Points only; a one-shot iterable yields no points |
| Trees.PointList | pymvptree/__init__.py:220-226 | TypeError unless given a Point or an iterable of Points only; otherwise the given point, or the iterable's points in iteration order with repeats kept |
| Trees.OneShotIterableIsDropped | pymvptree/__init__.py:222-230 | a generator yielding a point reaches the loop empty, although the point was given |
| Trees.PointListAgrees | pymvptree/__init__.py:220-226 | for every other argument both readings give the same list |
| Trees.CollectNewErrPersists | pymvptree/__init__.py:230-232 | the first failing copy decides the error |
| Trees.CollectNewSpec | pymvptree/__init__.py:228-232 | the collected set is exactly the listed points missing from the tree, and collecting fails exactly when one of them cannot be copied |
| Trees.Tree.constructor | pymvptree/__init__.py:186-187 | a new tree holds no points |
| Trees.Tree.Search | pymvptree/__init__.py:279-294 | with EmptyTree swallowed, the results are exactly the stored points within the radius |
| Trees.Tree.Filter | pymvptree/__init__.py:270-294 | fails exactly when the data is not bytes (ValueError for None, else TypeError); otherwise exactly the engine query's result sequence, whose members are the stored points within the radius |
| Trees.Tree.Get | pymvptree/__init__.py:248-256 | returns the argument exactly when an equal point is stored, else ValueError("Point not found") |
| Trees.Tree.Exists | pymvptree/__init__.py:258-268 | true exactly when an equal point is stored |
| Trees.Tree.CollectCopies | pymvptree/__init__.py:228-232 | the copies of exactly the listed points the tree lacks, or the error of the first copy that fails |
| Trees.ToArray | pymvptree/__init__.py:234-238 | the C array holds each member of the set exactly once |
| Trees.AppendDistinct | pymvptree/__init__.py:228-243 | appending points the tree lacks keeps it free of repeats |
| Trees.Tree.Add | pymvptree/__init__.py:213-246 | propagates the argument and copy errors; returns False and changes nothing when every point exists; otherwise submits the missing points once each, then raises the status's exception or returns True; afterwards every given point exists and no point is stored twice (with the corrected point list and equality) |

## Left out

- The MVP-tree engine (mvptree.c, mvptree.h) is not part of this model.
  - Node splitting, vantage points, pruning and the file format are not modelled.
  - Its range query is the stated assumption `Engine.Retrieve`.
  - Its insertion is an append of the submitted points, governed by a status code given as a parameter.
- Engine.Matches: the `limit` of `filter` (65535) and the k-nearest cap are not modelled. Every point within the radius is returned, in storage order rather than the engine's order. A failing retrieval, whose RuntimeError or IOError `filter`, `get` and `exists` would propagate (for example MVP_KNEARESTCAP), is not modelled: the engine assumption reports only Success or EmptyTree.
- Trees.Tree.Add: a failing engine status leaves the stored points unchanged. What a real engine keeps after a partial insertion is unknown.
- Trees.Tree.Filter: the generator is modelled as returning its whole result at once. A TypeError or ValueError for bad data is therefore reported at the call rather than at the first iteration.
- Trees.Tree.Filter: the radius is a real number. The conversion of a Python number to a C float is not modelled.
- Trees.Tree.Get: it queries through `Search` directly. A point's payload is always bytes, so the query point that `filter` builds always succeeds.
- Memory management is not modelled:
  - `rmpoint`, `rmtree`, the cffi finalizers and `owned_memory`;
  - the NULL returns of `mkpoint` when allocation fails, including its use of the record after freeing it.
- Identifier serialization (pickle, base64, `strdup`) is taken to give back an identifier equal as a value. For an instance that pickle rebuilds as a new object and whose class compares by identity, such as a plain `C()`, each unpickling gives a new, unequal object (enum members, module-level functions and classes are stored by reference and come back as the same object); `PointEqAsWritten` captures this.
- Points.PointEq: the tree uses value equality of identifiers. Identifiers that hold an instance that pickle rebuilds as a new object and whose class compares by identity, such as a plain `C()`, are outside what the tree model describes. For them the code as written never finds the point again: `exists` is always false, and every `add` stores another copy (see Findings).
- Points.NewPoint: `Hashable` and `Picklable` model only the TypeError from hash() and the PicklingError from pickle.dumps, both of which become TypeError. Other exceptions propagate unchanged and are not modelled. Examples are the AttributeError for a local object and RecursionError.
- Trees.Tree.Add: it reads its argument through the corrected `PointList`. For a generator of points, the code as written submits nothing and returns False, while the model submits the points (see Findings).
- Point identifier equality is structural equality of the modelled values. Python's cross-type equalities (such as 1 == 1.0) are not modelled.
- PyObjects.PyHash: the numeric hash values are a stand-in. Only whether hashing succeeds, and that equal values hash equally, are modelled.
- The lazy caching of `point_id` and `data` inside Point (pymvptree/__init__.py:150-155) is not modelled. It makes every access of `point_id` on one wrapper return the same object, so `p.point_id is p.point_id` holds and changes to a mutable identifier persist between accesses. For identifiers that survive pickling it changes no result of the modelled operations. For the others it is why one wrapper equals itself while two wrappers of the same point do not; `PointEqAsWritten` models two separate wrappers.
- File I/O (`Tree.from_file`, `Tree.to_file`, `load`, `save`) is not modelled.
- The shape parameters of `Tree()` are not modelled. `mktree` ignores them and uses the constants 2, 5 and 15.
- Tree construction from an existing `c_obj` is not modelled.
- Printing (`printpoint`, `printtree`, `__repr__`) is not modelled.
- MvpWrapper.BitLevenshtein: the result is the exact integer distance. The C function returns a float, which is exact up to 2^24, i.e. for payloads up to 2 MiB.
- MvpWrapper.DataPoint: `datalen` is an unbounded natural number, not a 32-bit `unsigned int`.
- pymvptree/mvpuser.py, pymvptree/build_mvptree.py and setup.py are not part of this model. The first is a stale wrapper; the other two are build tooling.

## Findings

| source | as written | input that shows it | evidently intended | confidence | as-written member | corrected member |
|---|---|---|---|---|---|---|
| pymvptree/__init__.py:222-230 | `all(isinstance(p, Point) for p in point)` iterates the argument, then `for p in pointlist` iterates it again | `tree.add(p for p in [Point(b'id', b'x')])`: the generator is used up by the check, nothing is submitted, and add returns False | every point the iterable yields is submitted | not executed | Trees.PointListAsWritten (shown by Trees.OneShotIterableIsDropped) | Trees.PointList, used by Trees.Tree.Add |
| pymvptree/__init__.py:150-169 | each wrapper unpickles its own `point_id`, and `__eq__` compares those objects with `==` | `o = C()` for a module-level class `C` without `__eq__`; `t.add(Point(o, b'x'))` then `t.get(Point(o, b'x'))` raises "Point not found", and a second add stores another copy | any hashable, picklable identifier is found again, as the docstring at :81 promises | not executed | Points.PointEqAsWritten (shown by Points.IdentityIdNeverMatches and Points.IdentityIdExample) | Points.PointEq, used by Trees.Tree.Get |
