/**
 * The schema-registry wire envelope: one magic byte 0x00, the schema id as a
 * 4-byte big-endian unsigned integer, then the schema-encoded payload.
 */
module WireFormat {
  type byte = x: int | 0 <= x < 0x100
  type uint32 = x: int | 0 <= x < 0x1_0000_0000

  const MagicByte: byte := 0x00
  /** Magic byte plus the four schema-id bytes. */
  const HeaderLength: nat := 5

  /** binary.BigEndian.PutUint32: the four bytes of v, most significant first. */
  function PutUint32(v: uint32): (b: seq<byte>)
    ensures |b| == 4
  {
    [v / 0x100_0000, (v / 0x1_0000) % 0x100, (v / 0x100) % 0x100, v % 0x100]
  }

  /** binary.BigEndian.Uint32: the unsigned value of four bytes, most significant first. */
  function ReadUint32(b: seq<byte>): (v: uint32)
    requires |b| == 4
    ensures v == b[0] as int * 0x100_0000 + b[1] as int * 0x1_0000 + b[2] as int * 0x100 + b[3] as int
  {
    ((b[0] as int * 0x100 + b[1]) * 0x100 + b[2]) * 0x100 + b[3]
  }

  /** Reading back what PutUint32 wrote gives the original value. */
  lemma ReadPutUint32(v: uint32)
    ensures ReadUint32(PutUint32(v)) == v
  {
    var q1 := v / 0x100;
    var q2 := q1 / 0x100;
    var q3 := q2 / 0x100;
    assert v / 0x1_0000 == q2;
    assert v / 0x100_0000 == q3;
    assert q2 == q3 * 0x100 + q2 % 0x100;
    assert q1 == q2 * 0x100 + q1 % 0x100;
    assert v == q1 * 0x100 + v % 0x100;
  }

  /** Writing the value of four bytes gives back the same four bytes. */
  lemma PutReadUint32(b: seq<byte>)
    requires |b| == 4
    ensures PutUint32(ReadUint32(b)) == b
  {
    var v := ReadUint32(b);
    var b0, b1, b2, b3 := b[0] as int, b[1] as int, b[2] as int, b[3] as int;
    var q1 := (b0 * 0x100 + b1) * 0x100 + b2;
    var q2 := b0 * 0x100 + b1;
    assert v / 0x100 == q1 && v % 0x100 == b3;
    assert q1 / 0x100 == q2 && q1 % 0x100 == b2;
    assert q2 / 0x100 == b0 && q2 % 0x100 == b1;
    assert v / 0x1_0000 == q2 by {
      assert v == q2 * 0x1_0000 + (b2 * 0x100 + b3);
    }
    assert v / 0x100_0000 == b0 by {
      assert v == b0 * 0x100_0000 + (b1 * 0x1_0000 + b2 * 0x100 + b3);
    }
  }

  /** The envelope a producer puts on the wire for a payload encoded under schema `id`. */
  function Frame(id: uint32, payload: seq<byte>): (m: seq<byte>)
    ensures |m| == HeaderLength + |payload|
    ensures m[0] == MagicByte && m[1..HeaderLength] == PutUint32(id) && m[HeaderLength..] == payload
  {
    [MagicByte] + PutUint32(id) + payload
  }
}
