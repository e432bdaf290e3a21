/** The engine's error codes and how the Python binding turns them into
    exceptions: MVPError and mvp_errors in pymvptree/__init__.py. */
module Errors {
  import opened Results

  /** MVPError: the status codes the engine reports, in code order. */
  datatype MvpError =
    | Success | ArgErr | NoDistanceFunc | MemAlloc | NoLeaf | NoInternal
    | PathAlloc | VpNoSelect | NoSv1Range | NoSv2Range | NoSpace | NoSort
    | FileOpen | FileClose | MemMap | Munmap | NoWrite | FileTruncate
    | MremapFail | TypeMismatch | KNearestCap | EmptyTree | NoSplits
    | BadDistVal | FileNotFound | Unrecognized

  /** Every member of the enumeration, indexed by its code. */
  const AllErrors: seq<MvpError> :=
    [Success, ArgErr, NoDistanceFunc, MemAlloc, NoLeaf, NoInternal,
     PathAlloc, VpNoSelect, NoSv1Range, NoSv2Range, NoSpace, NoSort,
     FileOpen, FileClose, MemMap, Munmap, NoWrite, FileTruncate,
     MremapFail, TypeMismatch, KNearestCap, EmptyTree, NoSplits,
     BadDistVal, FileNotFound, Unrecognized]

  /** The integer value of each member. */
  function Code(e: MvpError): (c: nat)
    ensures c < |AllErrors| && AllErrors[c] == e
  {
    match e
    case Success => 0
    case ArgErr => 1
    case NoDistanceFunc => 2
    case MemAlloc => 3
    case NoLeaf => 4
    case NoInternal => 5
    case PathAlloc => 6
    case VpNoSelect => 7
    case NoSv1Range => 8
    case NoSv2Range => 9
    case NoSpace => 10
    case NoSort => 11
    case FileOpen => 12
    case FileClose => 13
    case MemMap => 14
    case Munmap => 15
    case NoWrite => 16
    case FileTruncate => 17
    case MremapFail => 18
    case TypeMismatch => 19
    case KNearestCap => 20
    case EmptyTree => 21
    case NoSplits => 22
    case BadDistVal => 23
    case FileNotFound => 24
    case Unrecognized => 25
  }

  /** MVPError(c): the member with value `c`, or None when no member has it
      (the enumeration then raises ValueError). */
  function FromCode(c: int): (r: Option<MvpError>)
    ensures r.Some? <==> 0 <= c <= 25
    ensures r.Some? ==> Code(r.value) == c
  {
    if 0 <= c < |AllErrors| then
      CodeOfIndex(c);
      Some(AllErrors[c])
    else None
  }

  /** The table lists every member exactly once, in code order. */
  lemma CodeOfIndex(c: int)
    requires 0 <= c < |AllErrors|
    ensures Code(AllErrors[c]) == c
  {
    // Halving the range keeps each case split small.
    if c < 13 {
      if c < 6 {} else {}
    } else {
      if c < 19 {} else {}
    }
  }

  lemma {:induction false} CodeRoundTrip(e: MvpError)
    ensures FromCode(Code(e)) == Some(e)
  {
  }

  /** Why a ValueError was raised. */
  datatype ValueReason =
    | EngineValue(code: MvpError)   // an engine status mapped to ValueError
    | NotAnMvpError(value: int)     // a status outside the enumeration
    | MissingArguments              // Point with neither (id, data) nor c_obj
    | PointNotFound                 // Tree.get found no equal point

  /** Why a TypeError was raised. */
  datatype TypeReason =
    | IdNotHashable | IdNotPicklable | DataNotBytes
    | InvalidInitialization         // c_obj is not a non-NULL MVPDP pointer
    | NotPointOrPoints              // Tree.add given something else
    | Unhashable                    // hash() of a point whose id is unhashable

  /** The Python exceptions the binding raises. */
  datatype Exc =
    | IOError(ioCode: MvpError)
    | ValueError(valueReason: ValueReason)
    | TypeError(typeReason: TypeReason)
    | RuntimeError(runtimeCode: MvpError)

  /** The exception mvp_errors raises when the engine reports `code`, or
      None when it reports success. */
  function MvpErrors(code: int): (r: Option<Exc>)
    ensures r.None? <==> code == 0
    ensures r.Some? && r.value.IOError? <==> code in {12, 13, 24}
    ensures r.Some? && r.value.ValueError? <==> code == 21 || code < 0 || code > 25
    ensures r.Some? && r.value.RuntimeError? <==> 0 < code <= 25 && code !in {12, 13, 21, 24}
    ensures r.Some? ==> !r.value.TypeError?
  {
    match FromCode(code)
    case None => Some(ValueError(NotAnMvpError(code)))
    case Some(e) =>
      if e == Success then None
      else if e in {FileOpen, FileClose, FileNotFound} then Some(IOError(e))
      else if e == EmptyTree then Some(ValueError(EngineValue(e)))
      else Some(RuntimeError(e))
  }

  /** An exception raised for a member of the enumeration names that member. */
  lemma ExceptionNamesCode(code: int)
    requires 0 < code <= 25
    ensures MvpErrors(code) == Some(IOError(AllErrors[code]))
         || MvpErrors(code) == Some(ValueError(EngineValue(AllErrors[code])))
         || MvpErrors(code) == Some(RuntimeError(AllErrors[code]))
  {
  }

  /** Member by member: only the three file codes raise IOError; the
      other codes about files and mappings, and the k-nearest cap, raise
      RuntimeError like every remaining failure. */
  lemma {:induction false} MemberClassification(e: MvpError)
    ensures MvpErrors(Code(e)) == None <==> e == Success
    ensures MvpErrors(Code(e)) == Some(IOError(e)) <==> e in {FileOpen, FileClose, FileNotFound}
    ensures MvpErrors(Code(e)) == Some(ValueError(EngineValue(e))) <==> e == EmptyTree
    ensures MvpErrors(Code(e)) == Some(RuntimeError(e)) <==>
      e !in {Success, FileOpen, FileClose, FileNotFound, EmptyTree}
    ensures e in {NoWrite, MemMap, Munmap, FileTruncate, MremapFail, KNearestCap} ==>
      MvpErrors(Code(e)) == Some(RuntimeError(e))
  {
    CodeRoundTrip(e);
  }
}
