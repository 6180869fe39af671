/**
 * The wire-level protocol of the Idasen desk: the GATT characteristic UUIDs,
 * the 2-byte motion commands, the 4-byte position/speed sample and the
 * error type shared by discovery, binding and seeking.
 */
module Protocol {
  import opened Basics

  type byte = x: int | 0 <= x < 0x100
  type u16 = x: int | 0 <= x < 0x1_0000
  type i16 = x: int | -0x8000 <= x < 0x8000

  /** Lowest and highest desk height, in tenths of a millimetre. */
  const MIN_HEIGHT: u16 := 6200
  const MAX_HEIGHT: u16 := 12700

  /** 99fa0002-338a-1024-8a49-009c0215f78a: the control-point characteristic. */
  const CONTROL_UUID: seq<byte> :=
    [0x99, 0xfa, 0x00, 0x02, 0x33, 0x8a, 0x10, 0x24, 0x8a, 0x49, 0x00, 0x9c, 0x02, 0x15, 0xf7, 0x8a]
  /** 99fa0021-338a-1024-8a49-009c0215f78a: the position/speed characteristic. */
  const POSITION_UUID: seq<byte> :=
    [0x99, 0xfa, 0x00, 0x21, 0x33, 0x8a, 0x10, 0x24, 0x8a, 0x49, 0x00, 0x9c, 0x02, 0x15, 0xf7, 0x8a]

  predicate InHeightRange(h: int) {
    MIN_HEIGHT <= h <= MAX_HEIGHT
  }

  /** The three motion commands written to the control characteristic. */
  datatype Command = Up | Down | Stop

  /** The fixed payload of each command: command code, then a zero byte. */
  function Payload(cmd: Command): (p: seq<byte>)
    ensures |p| == 2 && p[1] == 0
    ensures cmd == Up ==> p[0] == 0x47
    ensures cmd == Down ==> p[0] == 0x46
    ensures cmd == Stop ==> p[0] == 0xFF
  {
    match cmd
    case Up => [0x47, 0x00]
    case Down => [0x46, 0x00]
    case Stop => [0xFF, 0x00]
  }

  /** The command a 2-byte payload encodes, if any. */
  function CommandOf(p: seq<byte>): (r: Option<Command>)
    ensures r.Some? ==> Payload(r.value) == p
    ensures r.None? ==> p != Payload(Up) && p != Payload(Down) && p != Payload(Stop)
  {
    if p == [0x47, 0x00] then Some(Up)
    else if p == [0x46, 0x00] then Some(Down)
    else if p == [0xFF, 0x00] then Some(Stop)
    else None
  }

  /** Distinct commands have distinct payloads, so a payload names its command. */
  lemma PayloadInjective(c: Command, d: Command)
    ensures Payload(c) == Payload(d) <==> c == d
    ensures CommandOf(Payload(c)) == Some(c)
  {
    if Payload(c) == Payload(d) {
      assert Payload(c)[0] == Payload(d)[0];
    }
  }

  /** A position/speed sample: height in tenths of a millimetre and a signed speed. */
  datatype PositionSpeed = PositionSpeed(position: u16, speed: i16)

  /** `u16::from_le_bytes([lo, hi])`. */
  function LeU16(lo: byte, hi: byte): u16 {
    lo + 0x100 * hi
  }

  /** `i16::from_le_bytes([lo, hi])`: the two's-complement reading of the same bits. */
  function LeI16(lo: byte, hi: byte): i16 {
    AsI16(LeU16(lo, hi))
  }

  /** Rust's `u16 as i16` cast: values from 0x8000 up wrap to negatives. */
  function AsI16(v: u16): (r: i16)
    ensures r % 0x1_0000 == v
    ensures v < 0x8000 ==> r == v
  {
    if v < 0x8000 then v else v - 0x1_0000
  }

  /** The offset in bytes 0-1 still fits a `u16` after `MIN_HEIGHT` is added. */
  predicate Decodable(bytes: seq<byte>) {
    |bytes| >= 4 && LeU16(bytes[0], bytes[1]) <= 0xFFFF - MIN_HEIGHT
  }

  /**
   * Decodes a notification: bytes 0-1 are the little-endian offset above
   * `MIN_HEIGHT`, bytes 2-3 the little-endian signed speed. Shorter input
   * panics on indexing and a larger offset overflows the `u16` addition,
   * hence the precondition.
   */
  function BytesToPositionSpeed(bytes: seq<byte>): (ps: PositionSpeed)
    requires Decodable(bytes)
    ensures ps.position >= MIN_HEIGHT
  {
    PositionSpeed(LeU16(bytes[0], bytes[1]) + MIN_HEIGHT, LeI16(bytes[2], bytes[3]))
  }

  /** The 4 bytes a desk sends for a sample: the inverse of `BytesToPositionSpeed`. */
  function PositionSpeedToBytes(ps: PositionSpeed): (bytes: seq<byte>)
    requires ps.position >= MIN_HEIGHT
  {
    var offset := ps.position - MIN_HEIGHT;
    var s := ps.speed % 0x1_0000;
    [offset % 0x100, offset / 0x100, s % 0x100, s / 0x100]
  }

  lemma {:induction false} SplitU16(v: u16)
    ensures LeU16(v % 0x100, v / 0x100) == v
  {
  }

  /** Encoding a sample and decoding it gives the sample back. */
  lemma DecodeEncode(ps: PositionSpeed)
    requires ps.position >= MIN_HEIGHT
    ensures Decodable(PositionSpeedToBytes(ps))
    ensures BytesToPositionSpeed(PositionSpeedToBytes(ps)) == ps
  {
    var b := PositionSpeedToBytes(ps);
    SplitU16(ps.position - MIN_HEIGHT);
    SplitU16(ps.speed % 0x1_0000);
    assert LeU16(b[2], b[3]) == ps.speed % 0x1_0000;
  }

  /** Decoding 4 bytes and encoding the sample again gives the same 4 bytes. */
  lemma EncodeDecode(bytes: seq<byte>)
    requires Decodable(bytes) && |bytes| == 4
    ensures PositionSpeedToBytes(BytesToPositionSpeed(bytes)) == bytes
  {
    var ps := BytesToPositionSpeed(bytes);
    assert ps.speed % 0x1_0000 == LeU16(bytes[2], bytes[3]);
  }

  /** The five doc-test fixtures of the decoder. */
  lemma DecodeFixtures()
    ensures BytesToPositionSpeed([0x64, 0x19, 0x00, 0x00]) == PositionSpeed(MAX_HEIGHT, 0)
    ensures BytesToPositionSpeed([0x00, 0x00, 0x00, 0x00]) == PositionSpeed(MIN_HEIGHT, 0)
    ensures BytesToPositionSpeed([0x51, 0x04, 0x00, 0x00]) == PositionSpeed(7305, 0)
    ensures BytesToPositionSpeed([0x08, 0x08, 0x00, 0x00]) == PositionSpeed(8256, 0)
    ensures BytesToPositionSpeed([0x64, 0x18, 0x00, 0x00]) == PositionSpeed(12444, 0)
  {
  }

  /** Failures reported by the BLE stack (btleplug's error kinds). */
  datatype BtError =
    | PermissionDenied
    | DeviceNotFound
    | NotConnected
    | NotSupported
    | TimedOut
    | Other(detail: string)

  /**
   * The desk library's error enum. `Panic` is not a Rust error value: it
   * marks the outcomes where the Rust code panics (an out-of-bounds index,
   * an arithmetic overflow in a debug build, an `unwrap`/`expect` on an
   * error) so that the model can say when that happens.
   */
  datatype Error =
    | CannotFindDevice
    | CharacteristicsNotFound(which: string)
    | PositionNotInRange
    | CannotSubscribePosition
    | BtlePlugError(cause: BtError)
    | Panic(reason: string)
}
