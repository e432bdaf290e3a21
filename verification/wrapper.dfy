/** The C side of the binding: the data point record, mkpoint, and the
    distance callback bitlevenshtein (pymvptree/mvpwrapper.c). */
module MvpWrapper {
  import opened Bits
  import opened Metric

  /** MVPDP: an engine data point holding a byte-array payload. */
  class DataPoint {
    var id: string
    var datalen: nat
    var data: array<Byte>

    /** The payload buffer holds at least `datalen` bytes. */
    ghost predicate Valid()
      reads this
    {
      datalen <= data.Length
    }

    /** The bytes the point measures with. */
    function Payload(): seq<Byte>
      reads this, data
      requires Valid()
    {
      data[..datalen]
    }

    /** dp_alloc: an empty point. */
    constructor()
      ensures Valid() && id == [] && datalen == 0 && Payload() == []
    {
      id := [];
      datalen := 0;
      data := new Byte[0];
    }
  }

  /** mkpoint: a fresh point holding `id` and a copy of the first `datalen`
      bytes of `data`. */
  method MkPoint(id: string, data: array<Byte>, datalen: nat) returns (p: DataPoint)
    requires datalen <= data.Length
    ensures fresh(p) && fresh(p.data)
    ensures p.Valid() && p.id == id && p.datalen == datalen
    ensures p.Payload() == data[..datalen]
  {
    var buf := new Byte[datalen];
    for i := 0 to datalen
      invariant buf[..i] == data[..i]
    {
      buf[i] := data[i];
    }
    assert buf[..] == buf[..datalen];
    p := new DataPoint();
    p.datalen := datalen;
    p.data := buf;
    p.id := id;
  }

  /** A C `char` promoted to `int` for `^`: bytes from 0x80 up are negative
      and sign-extended. */
  function SignExtend(x: Byte): (w: bv32)
    ensures w & 0xFF == x as bv32
    ensures x < 0x80 <==> w < 0x80
  {
    if x & 0x80 != 0 then (x as bv32) | 0xFFFF_FF00 else x as bv32
  }

  /** Passing the promoted exclusive or to an `unsigned char` parameter
      keeps its low byte, which is the exclusive or of the two bytes. */
  lemma TruncatedXor(x: Byte, y: Byte)
    ensures ((SignExtend(x) ^ SignExtend(y)) & 0xFF) as Byte == x ^ y
  {
  }

  /** bitlevenshtein: -1 when either point is missing, otherwise the
      distance of the two payloads. */
  method BitLevenshtein(a: DataPoint?, b: DataPoint?) returns (r: int)
    requires a != null ==> a.Valid()
    requires b != null ==> b.Valid()
    ensures r == -1 <==> a == null || b == null
    ensures r < 0 ==> r == -1
    ensures a != null && b != null ==> r == Distance(a.Payload(), b.Payload())
    ensures a != null && b != null ==> r <= 8 * Max(a.datalen, b.datalen)
  {
    if a == null || b == null {
      return -1;
    }
    ghost var pa, pb := a.Payload(), b.Payload();
    var maxlen := if a.datalen > b.datalen then a.datalen else b.datalen;
    var count: nat := 0;
    for i := 0 to maxlen
      invariant count == CostBelow(pa, pb, i)
    {
      var x, y;
      if a.datalen > i {
        x := a.data[i];
      } else {
        count := count + 8;
        continue;
      }
      if b.datalen > i {
        y := b.data[i];
      } else {
        count := count + 8;
        continue;
      }
      TruncatedXor(x, y);
      var c := CountSetBits(((SignExtend(x) ^ SignExtend(y)) & 0xFF) as Byte);
      count := count + c;
    }
    DistanceBounds(pa, pb);
    r := count;
  }
}
