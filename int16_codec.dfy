/**
  * The binary layout of one accelerometer sample: three signed 16-bit counts
  * (X, Y, Z) in network byte order, as read by `struct.unpack("!hhh", raw6)`
  * in mod3d.py. The decoder is written out over bytes, together with the
  * encoder it inverts, so that bounds and both round trips can be proved.
  */
module Int16Codec {
  import opened Wrappers

  /** A Python `bytes` element. */
  type byte = b: int | 0 <= b < 256

  const MinInt16: int := -0x8000
  const MaxInt16: int := 0x7FFF
  const Modulus16: int := 0x1_0000

  /** Size in bytes of the "!hhh" record. */
  const RecordSize: nat := 6

  predicate IsInt16(v: int) {
    MinInt16 <= v <= MaxInt16
  }

  /** The unsigned reading of a big-endian byte pair. */
  function Unsigned16(hi: byte, lo: byte): (u: int)
    ensures 0 <= u < Modulus16
    ensures u / 256 == hi && u % 256 == lo
  {
    hi * 256 + lo
  }

  /**
    * Format character `h` in network order: the big-endian pair (hi, lo) read
    * as a two's-complement integer. The result is the only 16-bit signed
    * value congruent to the unsigned reading modulo 2^16, and it is
    * negative exactly when the sign bit (the top bit of `hi`) is set.
    */
  function DecodeInt16(hi: byte, lo: byte): (v: int)
    ensures IsInt16(v)
    ensures (v - Unsigned16(hi, lo)) % Modulus16 == 0
    ensures v < 0 <==> hi >= 128
  {
    var u := Unsigned16(hi, lo);
    if u >= 0x8000 then u - Modulus16 else u
  }

  /** Format character `h` in network order, written: the two bytes of `v`, most significant first. */
  function EncodeInt16(v: int): (bs: seq<byte>)
    requires IsInt16(v)
    ensures |bs| == 2
    ensures (v - Unsigned16(bs[0], bs[1])) % Modulus16 == 0
    ensures bs[0] >= 128 <==> v < 0
  {
    var u := if v < 0 then v + Modulus16 else v;
    [u / 256, u % 256]
  }

  /** The two's-complement reading is the only 16-bit value with its residue. */
  lemma Int16ResidueUnique(v: int, w: int)
    requires IsInt16(v) && IsInt16(w)
    requires (v - w) % Modulus16 == 0
    ensures v == w
  {
  }

  /** The value read from a byte pair is hi*256 + lo, less 2^16 when the sign bit is set. */
  lemma DecodeInt16Value(hi: byte, lo: byte)
    ensures DecodeInt16(hi, lo) == hi * 256 + lo - (if hi >= 128 then Modulus16 else 0)
  {
    var w := hi * 256 + lo - (if hi >= 128 then Modulus16 else 0);
    assert IsInt16(w);
    assert (DecodeInt16(hi, lo) - w) % Modulus16 == 0;
    Int16ResidueUnique(DecodeInt16(hi, lo), w);
  }

  lemma DecodeEncodeInt16(v: int)
    requires IsInt16(v)
    ensures var bs := EncodeInt16(v); DecodeInt16(bs[0], bs[1]) == v
  {
    var bs := EncodeInt16(v);
    Int16ResidueUnique(DecodeInt16(bs[0], bs[1]), v);
  }

  lemma EncodeDecodeInt16(hi: byte, lo: byte)
    ensures EncodeInt16(DecodeInt16(hi, lo)) == [hi, lo]
  {
    var bs := EncodeInt16(DecodeInt16(hi, lo));
    var u, u' := Unsigned16(hi, lo), Unsigned16(bs[0], bs[1]);
    assert (u - u') % Modulus16 == 0;
    assert bs[0] == u' / 256 && bs[1] == u' % 256;
  }

  /** One decoded sample: raw accelerometer counts on the X, Y and Z axes. */
  datatype Counts = Counts(x: int, y: int, z: int)

  predicate IsInt16Counts(c: Counts) {
    IsInt16(c.x) && IsInt16(c.y) && IsInt16(c.z)
  }

  /**
    * The `struct.error` raised when the buffer is not exactly one record
    * long. Python's message names only the expected size; the model also
    * records the actual one.
    */
  datatype UnpackError = WrongBufferSize(expected: nat, actual: nat)

  /** `struct.pack("!hhh", x, y, z)`: the record that decodes to `c`. */
  function Pack(c: Counts): (raw: seq<byte>)
    requires IsInt16Counts(c)
    ensures |raw| == RecordSize
    ensures raw[..2] == EncodeInt16(c.x) && raw[2..4] == EncodeInt16(c.y) && raw[4..] == EncodeInt16(c.z)
  {
    EncodeInt16(c.x) + EncodeInt16(c.y) + EncodeInt16(c.z)
  }

  /**
    * `struct.unpack("!hhh", raw)`: fails exactly when `raw` is not six bytes
    * long; otherwise yields three 16-bit counts, and `raw` is their packed form.
    */
  function Unpack(raw: seq<byte>): (r: Result<Counts, UnpackError>)
    ensures r.Ok? <==> |raw| == RecordSize
    ensures r.Err? ==> r.error == WrongBufferSize(RecordSize, |raw|)
    ensures r.Ok? ==> IsInt16Counts(r.value) && Pack(r.value) == raw
  {
    if |raw| != RecordSize then
      Err(WrongBufferSize(RecordSize, |raw|))
    else
      var c := Counts(DecodeInt16(raw[0], raw[1]), DecodeInt16(raw[2], raw[3]), DecodeInt16(raw[4], raw[5]));
      EncodeDecodeInt16(raw[0], raw[1]);
      EncodeDecodeInt16(raw[2], raw[3]);
      EncodeDecodeInt16(raw[4], raw[5]);
      assert Pack(c) == raw;
      Ok(c)
  }

  /** Round trip: packing three 16-bit counts and unpacking the record gives them back. */
  lemma UnpackPack(c: Counts)
    requires IsInt16Counts(c)
    ensures Unpack(Pack(c)) == Ok(c)
  {
    var raw := Pack(c);
    DecodeEncodeInt16(c.x);
    DecodeEncodeInt16(c.y);
    DecodeEncodeInt16(c.z);
    assert raw[0] == raw[..2][0] && raw[1] == raw[..2][1];
    assert raw[2] == raw[2..4][0] && raw[3] == raw[2..4][1];
    assert raw[4] == raw[4..][0] && raw[5] == raw[4..][1];
  }

  /** Each count of a decoded record is the two's-complement value of its own byte pair. */
  lemma UnpackFields(raw: seq<byte>)
    requires |raw| == RecordSize
    ensures Unpack(raw).Ok?
    ensures Unpack(raw).value.x == raw[0] * 256 + raw[1] - (if raw[0] >= 128 then Modulus16 else 0)
    ensures Unpack(raw).value.y == raw[2] * 256 + raw[3] - (if raw[2] >= 128 then Modulus16 else 0)
    ensures Unpack(raw).value.z == raw[4] * 256 + raw[5] - (if raw[4] >= 128 then Modulus16 else 0)
  {
    DecodeInt16Value(raw[0], raw[1]);
    DecodeInt16Value(raw[2], raw[3]);
    DecodeInt16Value(raw[4], raw[5]);
  }
}
