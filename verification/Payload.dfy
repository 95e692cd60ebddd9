/** The data behind an id: the emulated remote source and the check of a buffer against it. */
module Payload {
  import opened Types

  /** The four bytes of a `uint32_t` in memory, on a little-endian machine. */
  function Encode32(id: Id): (b: Bytes)
    ensures |b| == 4
  {
    [id % 256, id / 256 % 256, id / 65536 % 256, id / 16777216]
  }

  function Decode32(b: Bytes): Id
    requires |b| >= 4
  {
    b[0] as int + 256 * b[1] as int + 65536 * b[2] as int + 16777216 * b[3] as int
  }

  lemma DecodeEncode(id: Id)
    ensures Decode32(Encode32(id)) == id
  {
    var a := id / 256;
    var b := a / 256;
    assert id / 65536 == b && b / 256 == id / 16777216;
  }

  lemma LowByte(a: Byte, q: nat)
    ensures (a as int + 256 * q) % 256 == a && (a as int + 256 * q) / 256 == q
  {
  }

  lemma DivTwice(x: nat)
    ensures x / 65536 == x / 256 / 256 && x / 16777216 == x / 256 / 256 / 256
  {
  }

  lemma EncodeDecode(b: Bytes)
    requires |b| >= 4
    ensures Encode32(Decode32(b)) == b[..4]
  {
    var id, high, top := Decode32(b), b[2] as int + 256 * b[3] as int, b[3] as int;
    DivTwice(id);
    LowByte(b[0], b[1] as int + 256 * high);
    LowByte(b[1], high);
    LowByte(b[2], top);
    assert Encode32(id) == [b[0], b[1], b[2], b[3]];
  }

  /** The first four bytes, as the machine reads them, are the number `id`. */
  predicate Begins(data: Bytes, id: Id)
    requires |data| >= 4
  {
    data[0] as int + 256 * data[1] as int + 65536 * data[2] as int + 16777216 * data[3] as int == id
  }

  /**
   * `zn_gen_write_buffer`: a copy of the shared buffer whose first four bytes make the id,
   * with every other byte as and where it was.
   */
  function Gen(random: Bytes, id: Id): (data: Bytes)
    requires |random| >= 4
    ensures |data| == |random| && Begins(data, id)
    ensures forall i :: 4 <= i < |random| ==> data[i] == random[i]
  {
    DecodeEncode(id);
    Encode32(id) + random[4..]
  }

  /** No other buffer fits that description. */
  lemma OnlyGen(random: Bytes, id: Id, data: Bytes)
    requires |data| == |random| >= 4 && Begins(data, id)
    requires forall i :: 4 <= i < |random| ==> data[i] == random[i]
    ensures data == Gen(random, id)
  {
    EncodeDecode(data);
    EncodeDecode(Gen(random, id));
    assert data[..4] == Gen(random, id)[..4];
    assert data == data[..4] + data[4..];
  }

  /** Different ids have different data. */
  lemma GenInjective(random: Bytes, a: Id, b: Id)
    requires |random| >= 4
    ensures Gen(random, a) == Gen(random, b) <==> a == b
  {
    assert Gen(random, a)[..4] == Encode32(a) && Gen(random, b)[..4] == Encode32(b);
    DecodeEncode(a);
    DecodeEncode(b);
  }

  /**
   * `zn_validate_read`: returns 0 exactly for a buffer that begins with the id and agrees
   * with the one compared in every later byte; no other than the source generates for it.
   */
  method ValidateRead(data: Bytes, id: Id, compare: Bytes) returns (r: int)
    requires 4 <= |data| == |compare|
    ensures r in {0, -1}
    ensures r == 0 <==> Begins(data, id) && forall i :: 4 <= i < |data| ==> data[i] == compare[i]
    ensures r == 0 <==> data == Gen(compare, id)
  {
    if Decode32(data) != id {
      return -1;
    }
    for i := 4 to |data|
      invariant forall j :: 4 <= j < i ==> data[j] == compare[j]
    {
      if data[i] != compare[i] {
        return -1;
      }
    }
    OnlyGen(compare, id, data);
    return 0;
  }
}
