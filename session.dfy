/**
 * A desk session: binding a peripheral's two characteristics and issuing
 * motion commands and position reads (`Idasen::new`, `up`/`down`/`stop`,
 * `position` in broken_idasen.rs; `setup`, `get_post_chars`, `up` in
 * loose_idasen.rs).
 *
 * The BLE peripheral is a scripted oracle: each request that returns `()`
 * (connect, service discovery, subscribe, write) takes the next outcome
 * from `acks`, each read takes the next reply from `replies`, and every
 * request is appended to `log` together with its outcome. A script that has
 * run out answers `NotConnected`.
 */
module Session {
  import opened Basics
  import opened Protocol

  /** A GATT characteristic: its UUID and a handle telling equal UUIDs apart. */
  datatype Characteristic = Characteristic(uuid: seq<byte>, handle: nat)

  datatype WriteType = WithResponse | WithoutResponse

  /** The outcome of a request that returns `()`. */
  datatype Ack = Done | Failed(error: BtError)

  /** The outcome of a characteristic read. */
  datatype Reply = Bytes(data: seq<byte>) | ReadFailed(error: BtError)

  /** One request sent to the peripheral, with the outcome it had. */
  datatype GattOp =
    | ConnectReq(ack: Ack)
    | DiscoverReq(ack: Ack)
    | SubscribeReq(c: Characteristic, ack: Ack)
    | WriteReq(c: Characteristic, payload: seq<byte>, mode: WriteType, ack: Ack)
    | ReadReq(c: Characteristic, reply: Reply)

  predicate Succeeded(op: GattOp) {
    if op.ReadReq? then op.reply.Bytes? else op.ack.Done?
  }

  /** The error a failed request reported. */
  function FailureOf(op: GattOp): BtError
    requires !Succeeded(op)
  {
    if op.ReadReq? then op.reply.error else op.ack.error
  }

  function NextAck(acks: seq<Ack>): Ack {
    if acks == [] then Failed(NotConnected) else acks[0]
  }

  function NextReply(replies: seq<Reply>): Reply {
    if replies == [] then ReadFailed(NotConnected) else replies[0]
  }

  function Rest<T>(s: seq<T>): seq<T> {
    if s == [] then [] else s[1..]
  }

  /** The simulated peripheral. */
  class Peripheral {
    /** The characteristics that service discovery reveals. */
    var gattTable: seq<Characteristic>
    /** What `characteristics()` currently returns: empty until discovery succeeds. */
    var characteristics: seq<Characteristic>
    var acks: seq<Ack>
    var replies: seq<Reply>
    var log: seq<GattOp>

    constructor (table: seq<Characteristic>, acks: seq<Ack>, replies: seq<Reply>)
      ensures gattTable == table && characteristics == []
      ensures this.acks == acks && this.replies == replies && log == []
    {
      gattTable := table;
      characteristics := [];
      this.acks := acks;
      this.replies := replies;
      log := [];
    }

    method Connect() returns (a: Ack)
      modifies this`acks, this`log
      ensures a == NextAck(old(acks)) && acks == Rest(old(acks))
      ensures log == old(log) + [ConnectReq(a)]
    {
      a := NextAck(acks);
      acks := Rest(acks);
      log := log + [ConnectReq(a)];
    }

    method DiscoverServices() returns (a: Ack)
      modifies this`acks, this`log, this`characteristics
      ensures a == NextAck(old(acks)) && acks == Rest(old(acks))
      ensures characteristics == if a.Done? then gattTable else old(characteristics)
      ensures log == old(log) + [DiscoverReq(a)]
    {
      a := NextAck(acks);
      acks := Rest(acks);
      if a.Done? {
        characteristics := gattTable;
      }
      log := log + [DiscoverReq(a)];
    }

    method Subscribe(c: Characteristic) returns (a: Ack)
      modifies this`acks, this`log
      ensures a == NextAck(old(acks)) && acks == Rest(old(acks))
      ensures log == old(log) + [SubscribeReq(c, a)]
    {
      a := NextAck(acks);
      acks := Rest(acks);
      log := log + [SubscribeReq(c, a)];
    }

    method Write(c: Characteristic, payload: seq<byte>, mode: WriteType) returns (a: Ack)
      modifies this`acks, this`log
      ensures a == NextAck(old(acks)) && acks == Rest(old(acks))
      ensures log == old(log) + [WriteReq(c, payload, mode, a)]
    {
      a := NextAck(acks);
      acks := Rest(acks);
      log := log + [WriteReq(c, payload, mode, a)];
    }

    method Read(c: Characteristic) returns (r: Reply)
      modifies this`replies, this`log
      ensures r == NextReply(old(replies)) && replies == Rest(old(replies))
      ensures log == old(log) + [ReadReq(c, r)]
    {
      r := NextReply(replies);
      replies := Rest(replies);
      log := log + [ReadReq(c, r)];
    }
  }

  // ---- Characteristic lookup ----

  /** `chars[i]` is the first characteristic in `chars` with `uuid`. */
  predicate IsFirstWithUuid(chars: seq<Characteristic>, uuid: seq<byte>, i: nat) {
    i < |chars| && chars[i].uuid == uuid && forall j :: 0 <= j < i ==> chars[j].uuid != uuid
  }

  /** `characteristics().iter().find(|c| c.uuid == uuid)`. */
  function FindCharacteristic(chars: seq<Characteristic>, uuid: seq<byte>): (r: Option<Characteristic>)
    ensures r.None? <==> forall j :: 0 <= j < |chars| ==> chars[j].uuid != uuid
    ensures r.Some? ==> exists i: nat :: IsFirstWithUuid(chars, uuid, i) && chars[i] == r.value
  {
    match FindIndex(chars, (c: Characteristic) => c.uuid == uuid)
    case None => None
    case Some(i) => assert IsFirstWithUuid(chars, uuid, i); Some(chars[i])
  }

  /** The two characteristics a bound desk keeps. */
  datatype Binding = Binding(control: Characteristic, position: Characteristic)

  /** The two lookups of `setup`/`Idasen::new`, control first, each with its named error. */
  function Bind(chars: seq<Characteristic>): (r: Result<Binding, Error>)
    ensures r.Err? ==> r.error.CharacteristicsNotFound?
    ensures r == Err(CharacteristicsNotFound("Control")) <==>
              forall j :: 0 <= j < |chars| ==> chars[j].uuid != CONTROL_UUID
    ensures r == Err(CharacteristicsNotFound("Position")) <==>
              (exists j :: 0 <= j < |chars| && chars[j].uuid == CONTROL_UUID) &&
              forall j :: 0 <= j < |chars| ==> chars[j].uuid != POSITION_UUID
    ensures r.Ok? ==> (exists i: nat :: IsFirstWithUuid(chars, CONTROL_UUID, i) && chars[i] == r.value.control)
    ensures r.Ok? ==> (exists i: nat :: IsFirstWithUuid(chars, POSITION_UUID, i) && chars[i] == r.value.position)
    ensures r.Ok? ==> r.value.control != r.value.position
  {
    assert CONTROL_UUID[3] != POSITION_UUID[3];
    match FindCharacteristic(chars, CONTROL_UUID)
    case None => Err(CharacteristicsNotFound("Control"))
    case Some(control) =>
      match FindCharacteristic(chars, POSITION_UUID)
      case None => Err(CharacteristicsNotFound("Position"))
      case Some(position) => Ok(Binding(control, position))
  }

  /** `get_post_chars`: the first control characteristic; `expect` panics when there is none. */
  function GetPostChars(chars: seq<Characteristic>): (r: Result<Characteristic, Error>)
    ensures r.Err? <==> forall j :: 0 <= j < |chars| ==> chars[j].uuid != CONTROL_UUID
    ensures r.Err? ==> r.error.Panic?
    ensures r.Ok? ==> exists i: nat :: IsFirstWithUuid(chars, CONTROL_UUID, i) && chars[i] == r.value
  {
    match FindCharacteristic(chars, CONTROL_UUID)
    case None => Err(Panic("err while getting characteristic"))
    case Some(c) => Ok(c)
  }

  // ---- Binding a peripheral ----

  /** The outcome of `setup`: result, requests sent, the ack script left and `characteristics()` after. */
  datatype SetupTrace = SetupTrace(
    result: Result<Binding, Error>, ops: seq<GattOp>, acksLeft: seq<Ack>, characteristics: seq<Characteristic>)

  /**
   * `setup` (loose_idasen.rs) and `Idasen::new` (broken_idasen.rs), which
   * are the same sequence: connect, discover services, look up control then
   * position, subscribe to position.
   */
  function SetupSpec(table: seq<Characteristic>, chars: seq<Characteristic>, acks: seq<Ack>): SetupTrace {
    var connect := NextAck(acks);
    var acks1 := Rest(acks);
    if connect.Failed? then
      SetupTrace(Err(BtlePlugError(connect.error)), [ConnectReq(connect)], acks1, chars)
    else
      var discover := NextAck(acks1);
      var acks2 := Rest(acks1);
      if discover.Failed? then
        SetupTrace(Err(BtlePlugError(discover.error)), [ConnectReq(connect), DiscoverReq(discover)], acks2, chars)
      else
        match Bind(table)
        case Err(e) => SetupTrace(Err(e), [ConnectReq(connect), DiscoverReq(discover)], acks2, table)
        case Ok(b) =>
          var sub := NextAck(acks2);
          var ops := [ConnectReq(connect), DiscoverReq(discover), SubscribeReq(b.position, sub)];
          if sub.Failed? then SetupTrace(Err(CannotSubscribePosition), ops, Rest(acks2), table)
          else SetupTrace(Ok(b), ops, Rest(acks2), table)
  }

  lemma LogTwo(log: seq<GattOp>, a: GattOp, b: GattOp)
    ensures (log + [a]) + [b] == log + [a, b]
  {
  }

  lemma LogThree(log: seq<GattOp>, a: GattOp, b: GattOp, c: GattOp)
    ensures ((log + [a]) + [b]) + [c] == log + [a, b, c]
  {
    LogTwo(log, a, b);
    assert (log + [a, b]) + [c] == log + [a, b, c];
  }

  method Setup(desk: Peripheral) returns (r: Result<Binding, Error>)
    modifies desk`acks, desk`log, desk`characteristics
    ensures var t := SetupSpec(desk.gattTable, old(desk.characteristics), old(desk.acks));
      r == t.result && desk.log == old(desk.log) + t.ops && desk.acks == t.acksLeft &&
      desk.characteristics == t.characteristics
  {
    ghost var log0 := desk.log;
    var connect := desk.Connect();
    if connect.Failed? {
      return Err(BtlePlugError(connect.error));
    }
    var discover := desk.DiscoverServices();
    LogTwo(log0, ConnectReq(connect), DiscoverReq(discover));
    if discover.Failed? {
      return Err(BtlePlugError(discover.error));
    }
    var found := Bind(desk.characteristics);
    if found.Err? {
      return Err(found.error);
    }
    var b := found.value;
    var sub := desk.Subscribe(b.position);
    LogThree(log0, ConnectReq(connect), DiscoverReq(discover), SubscribeReq(b.position, sub));
    if sub.Failed? {
      return Err(CannotSubscribePosition);
    }
    return Ok(b);
  }

  /** Connecting comes first; discovery only after a successful connect; only the last request may fail. */
  lemma SetupOrder(table: seq<Characteristic>, chars: seq<Characteristic>, acks: seq<Ack>)
    ensures var t := SetupSpec(table, chars, acks);
      1 <= |t.ops| <= 3 && t.ops[0].ConnectReq? &&
      (|t.ops| >= 2 ==> t.ops[1].DiscoverReq?) &&
      (|t.ops| == 3 ==> t.ops[2].SubscribeReq?) &&
      (forall i :: 0 <= i < |t.ops| - 1 ==> Succeeded(t.ops[i]))
  {
    var t := SetupSpec(table, chars, acks);
    var connect := NextAck(acks);
    var discover := NextAck(Rest(acks));
    if connect.Failed? {
      assert t.ops == [ConnectReq(connect)];
    } else if discover.Failed? || Bind(table).Err? {
      assert t.ops == [ConnectReq(connect), DiscoverReq(discover)];
    } else {
      var sub := NextAck(Rest(Rest(acks)));
      assert t.ops == [ConnectReq(connect), DiscoverReq(discover), SubscribeReq(Bind(table).value.position, sub)];
    }
  }

  /**
   * The lookups run only once connect and discovery succeeded, so a missing
   * characteristic is reported after exactly those two requests; control
   * is looked up before position. Once both requests succeeded, a failed
   * lookup is the result.
   */
  lemma SetupMissingCharacteristic(table: seq<Characteristic>, chars: seq<Characteristic>, acks: seq<Ack>)
    ensures var t := SetupSpec(table, chars, acks);
      t.result.Err? && t.result.error.CharacteristicsNotFound? ==>
        t.ops == [ConnectReq(Done), DiscoverReq(Done)] && t.result == Bind(table)
    ensures var t := SetupSpec(table, chars, acks);
      t.result == Err(CharacteristicsNotFound("Control")) <==>
        NextAck(acks).Done? && NextAck(Rest(acks)).Done? &&
        forall j :: 0 <= j < |table| ==> table[j].uuid != CONTROL_UUID
    ensures var t := SetupSpec(table, chars, acks);
      t.result == Err(CharacteristicsNotFound("Position")) <==>
        NextAck(acks).Done? && NextAck(Rest(acks)).Done? &&
        (exists j :: 0 <= j < |table| && table[j].uuid == CONTROL_UUID) &&
        forall j :: 0 <= j < |table| ==> table[j].uuid != POSITION_UUID
    ensures var t := SetupSpec(table, chars, acks);
      NextAck(acks).Done? && NextAck(Rest(acks)).Done? && Bind(table).Err? ==>
        t.result == Bind(table) && t.ops == [ConnectReq(Done), DiscoverReq(Done)]
  {
  }

  /**
   * A transport error comes from connect or discovery, and a failed connect
   * or discovery is returned as its transport error.
   */
  lemma SetupTransportError(table: seq<Characteristic>, chars: seq<Characteristic>, acks: seq<Ack>)
    ensures var t := SetupSpec(table, chars, acks);
      t.result.Err? && t.result.error.BtlePlugError? ==>
        |t.ops| <= 2 && !Succeeded(t.ops[|t.ops| - 1]) &&
        t.result.error.cause == FailureOf(t.ops[|t.ops| - 1]) && t.characteristics == chars
    ensures var t := SetupSpec(table, chars, acks);
      |t.ops| >= 1 &&
      var last := t.ops[|t.ops| - 1];
      (!Succeeded(last) && (last.ConnectReq? || last.DiscoverReq?) ==> t.result == Err(BtlePlugError(FailureOf(last))))
  {
    var t := SetupSpec(table, chars, acks);
    var connect := NextAck(acks);
    var discover := NextAck(Rest(acks));
    if connect.Failed? {
      assert t.ops == [ConnectReq(connect)];
    } else if discover.Failed? {
      assert t.ops == [ConnectReq(connect), DiscoverReq(discover)];
    } else {
      assert t.result.Err? ==> !t.result.error.BtlePlugError?;
      assert t.ops[|t.ops| - 1].SubscribeReq? || Succeeded(t.ops[|t.ops| - 1]);
    }
  }

  /**
   * `CannotSubscribePosition` exactly when both lookups succeeded and the
   * subscribe request failed; on success the binding is the first control
   * and the first position characteristic and position is subscribed.
   */
  lemma SetupSubscribe(table: seq<Characteristic>, chars: seq<Characteristic>, acks: seq<Ack>)
    ensures var t := SetupSpec(table, chars, acks);
      t.result == Err(CannotSubscribePosition) <==>
        Bind(table).Ok? && |t.ops| == 3 && !Succeeded(t.ops[2])
    ensures var t := SetupSpec(table, chars, acks);
      t.result.Ok? ==>
        t.result == Bind(table) && t.ops[2] == SubscribeReq(t.result.value.position, Done) &&
        t.characteristics == table
  {
    var t := SetupSpec(table, chars, acks);
    if NextAck(acks).Done? && NextAck(Rest(acks)).Done? && Bind(table).Ok? {
      assert t.ops[2] == SubscribeReq(Bind(table).value.position, NextAck(Rest(Rest(acks))));
    } else {
      assert |t.ops| < 3 && t.result != Err(CannotSubscribePosition) && t.result.Err?;
    }
  }

  // ---- Commands and reads ----

  /** `Idasen::up`, `down`, `stop`: write the command's payload to the bound control characteristic. */
  method SendCommand(desk: Peripheral, b: Binding, cmd: Command) returns (a: Ack)
    modifies desk`acks, desk`log
    ensures a == NextAck(old(desk.acks)) && desk.acks == Rest(old(desk.acks))
    ensures desk.log == old(desk.log) + [WriteReq(b.control, Payload(cmd), WithoutResponse, a)]
  {
    a := desk.Write(b.control, Payload(cmd), WithoutResponse);
  }

  /**
   * loose_idasen's `up`: look the control characteristic up again (a panic
   * when there is none, with nothing written), then write `[0x47, 0x00]`.
   */
  method LooseUp(desk: Peripheral) returns (r: Result<(), Error>)
    modifies desk`acks, desk`log
    ensures (forall j :: 0 <= j < |desk.characteristics| ==> desk.characteristics[j].uuid != CONTROL_UUID) ==>
              r.Err? && r.error.Panic? && desk.log == old(desk.log) && desk.acks == old(desk.acks)
    ensures (exists j :: 0 <= j < |desk.characteristics| && desk.characteristics[j].uuid == CONTROL_UUID) ==>
              var a := NextAck(old(desk.acks));
              desk.log == old(desk.log) + [WriteReq(GetPostChars(desk.characteristics).value, [0x47, 0x00], WithoutResponse, a)] &&
              desk.acks == Rest(old(desk.acks)) &&
              r == (if a.Done? then Ok(()) else Err(BtlePlugError(a.error)))
  {
    var c := GetPostChars(desk.characteristics);
    if c.Err? {
      return Err(c.error);
    }
    var a := desk.Write(c.value, Payload(Up), WithoutResponse);
    r := if a.Done? then Ok(()) else Err(BtlePlugError(a.error));
  }

  /**
   * The value of `position_and_speed` for one read reply: a read error is
   * returned unchanged. `bytes_to_position_speed` indexes bytes 0-1, adds
   * `MIN_HEIGHT` to their `u16` and only then indexes bytes 2-3, so it
   * panics on fewer than 2 bytes, then on an offset that overflows the
   * addition, then on fewer than 4 bytes.
   */
  function SampleOfReply(reply: Reply): (r: Result<PositionSpeed, Error>)
    ensures reply.ReadFailed? ==> r == Err(BtlePlugError(reply.error))
    ensures r.Ok? <==> reply.Bytes? && Decodable(reply.data)
    ensures reply.Bytes? && !Decodable(reply.data) ==> r.Err? && r.error.Panic?
  {
    match reply
    case ReadFailed(e) => Err(BtlePlugError(e))
    case Bytes(data) =>
      if |data| < 2 then Err(Panic("index out of bounds"))
      else if LeU16(data[0], data[1]) > 0xFFFF - MIN_HEIGHT then Err(Panic("attempt to add with overflow"))
      else if |data| < 4 then Err(Panic("index out of bounds"))
      else Ok(BytesToPositionSpeed(data))
  }

  /** The overflow of the addition is reached before the missing third and fourth bytes. */
  lemma ShortReplyPanics()
    ensures SampleOfReply(Bytes([0xFF, 0xFF, 0x00])) == Err(Panic("attempt to add with overflow"))
    ensures SampleOfReply(Bytes([0x00, 0x00, 0x00])) == Err(Panic("index out of bounds"))
    ensures SampleOfReply(Bytes([0x00])) == Err(Panic("index out of bounds"))
  {
  }

  /** `position_and_speed`: read the position characteristic and decode the reply. */
  method PositionAndSpeed(desk: Peripheral, b: Binding) returns (r: Result<PositionSpeed, Error>)
    modifies desk`replies, desk`log
    ensures var reply := NextReply(old(desk.replies));
      r == SampleOfReply(reply) && desk.log == old(desk.log) + [ReadReq(b.position, reply)] &&
      desk.replies == Rest(old(desk.replies))
  {
    var reply := desk.Read(b.position);
    r := SampleOfReply(reply);
  }

  /** `position`: the height part of `position_and_speed`. */
  method Position(desk: Peripheral, b: Binding) returns (r: Result<u16, Error>)
    modifies desk`replies, desk`log
    ensures var reply := NextReply(old(desk.replies));
      desk.log == old(desk.log) + [ReadReq(b.position, reply)] && desk.replies == Rest(old(desk.replies)) &&
      match SampleOfReply(reply)
      case Ok(ps) => r == Ok(ps.position)
      case Err(e) => r == Err(e)
  {
    var ps := PositionAndSpeed(desk, b);
    if ps.Err? {
      return Err(ps.error);
    }
    return Ok(ps.value.position);
  }
}
