/** The records the driver pushes into the IIO buffer (`inv_push_*` in `inv_mpu_ring.c`) and their
    bytes. */
module Records {
  import opened Machine

  const PRESSURE_HDR := 0x8000
  const ACCEL_HDR := 0x4000
  const GYRO_HDR := 0x2000
  const COMPASS_HDR := 0x1000
  const COMPASS_HDR_2 := 0x1800
  const LPQUAT_HDR := 0x0800
  const SIXQUAT_HDR := 0x0400
  const PEDQUAT_HDR := 0x0200
  const STEP_DETECTOR_HDR := 0x0100
  const STEP_INDICATOR_HDR := 0x0001
  const END_MARKER := 0x0010
  const EMPTY_MARKER := 0x0020

  datatype Vec16 = Vec16(x: int16, y: int16, z: int16)
  datatype Vec32 = Vec32(x: int32, y: int32, z: int32)

  /** One push. `sensor` is the index of the sensor it came from and is not part of the bytes.
      An `Event` leaves its six payload bytes unset. */
  datatype Record =
    | Sample(sensor: nat, hdr: u16, d: Vec16, t: u64)
    | Quaternion(sensor: nat, hdr: u16, q: Vec32, t: u64)
    | Event(sensor: nat, hdr: u16, t: u64)
    | Marker(hdr: u16)

  function Size(r: Record): nat {
    match r
    case Sample(_, _, _, _) => 16
    case Quaternion(_, _, _, _) => 24
    case Event(_, _, _) => 16
    case Marker(_) => 8
  }

  /** `w` is what one push writes; bytes the source leaves uninitialised are free. */
  ghost predicate Wire(r: Record, w: seq<byte>) {
    && |w| == Size(r)
    && w[..2] == Le16(r.hdr)
    && match r
       case Sample(_, _, d, t) =>
         w[2..4] == Le16(U16(d.x)) && w[4..6] == Le16(U16(d.y)) && w[6..8] == Le16(U16(d.z))
         && w[8..16] == Le64(t)
       case Quaternion(_, _, q, t) =>
         w[4..8] == Le32(U32(q.x)) && w[8..12] == Le32(U32(q.y)) && w[12..16] == Le32(U32(q.z))
         && w[16..24] == Le64(t)
       case Event(_, _, t) => w[8..16] == Le64(t)
       case Marker(_) => true
  }

  /** `b` is the buffer contents after pushing `rs`. */
  ghost predicate Encodes(rs: seq<Record>, b: seq<byte>) {
    if rs == [] then b == []
    else
      && Size(rs[0]) <= |b|
      && Wire(rs[0], b[..Size(rs[0])])
      && Encodes(rs[1..], b[Size(rs[0])..])
  }

  lemma WireSize(r: Record, w: seq<byte>)
    requires Wire(r, w)
    ensures |w| == Size(r) > 0
  {
  }

  lemma EncodesUnfold(rs: seq<Record>, b: seq<byte>, first: seq<byte>, rest: seq<byte>)
    requires rs != [] && b == first + rest && |first| == Size(rs[0])
    ensures Encodes(rs, b) <==> Wire(rs[0], first) && Encodes(rs[1..], rest)
  {
    hide Wire;
    assert b[..|first|] == first && b[|first|..] == rest;
  }

  lemma EncodesFits(rs: seq<Record>, b: seq<byte>)
    requires Encodes(rs, b)
    ensures rs == [] ==> b == []
    ensures rs != [] ==> Size(rs[0]) <= |b|
  {
  }

  lemma {:induction false} EncodesAppend(rs: seq<Record>, b: seq<byte>, r: Record, w: seq<byte>)
    requires Encodes(rs, b) && Wire(r, w)
    ensures Encodes(rs + [r], b + w)
  {
    hide Encodes, Wire, Size;
    EncodesFits(rs, b);
    if rs == [] {
      EncodesOne(r, w);
      assert b + w == w && rs + [r] == [r];
    } else {
      var first, rest := b[..Size(rs[0])], b[Size(rs[0])..];
      EncodesUnfold(rs, b, first, rest);
      EncodesAppend(rs[1..], rest, r, w);
      assert (rs + [r])[1..] == rs[1..] + [r];
      assert b + w == first + (rest + w);
      EncodesUnfold(rs + [r], b + w, first, rest + w);
    }
  }

  lemma EncodesOne(r: Record, w: seq<byte>)
    requires Wire(r, w)
    ensures Encodes([r], w)
  {
    hide Wire, Size;
    WireSize(r, w);
    assert w == w + [] && [r][1..] == [];
    EncodesUnfold([r], w, w, []);
  }
}
