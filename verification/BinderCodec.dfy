/** The Binder byte streams: what the driver prints is what the stream parser reads, and commands survive the trip in.
    */
module BinderCodec {
  import opened Base
  import opened BinderWire
  import opened BinderState
  import opened BinderCommands
  import opened BinderInvariant
  import opened BinderRuns

  // ---- the parser ----

  datatype Direction = ToDriver | FromDriver

  /** The payload length of a command word, or -1 for a word the protocol does not have. */
  function WireLength(direction: Direction, word: nat): (n: int)
    ensures -1 <= n <= 72
  {
    match direction
    case ToDriver =>
      if word in {0x4040_6300, 0x4040_6301} then 64
      else if word in {0x4048_6311, 0x4048_6312} then 72
      else if word in {0x4004_6302, 0x4004_6304, 0x4004_6305, 0x4004_6306, 0x4004_6307} then 4
      else if word in {0x4008_6303, 0x4008_630a, 0x4008_6310} then 8
      else if word in {0x4010_6308, 0x4010_6309} then 16
      else if word in {0x630b, 0x630c, 0x630d} then 0
      else if word in {0x400c_630e, 0x400c_630f} then 12
      else -1
    case FromDriver =>
      if word in {0x8004_7200, 0x8004_7204} then 4
      else if word in {BR_TRANSACTION, BR_REPLY} then 64
      else if word == 0x8048_7202 then 72
      else if word in {BR_INCREFS, BR_ACQUIRE, BR_RELEASE, BR_DECREFS} then 16
      else if word == 0x8018_720b then 24
      else if word in {BR_DEAD_BINDER, BR_CLEAR_DEATH_NOTIFICATION_DONE} then 8
      else if word in {0x7201, BR_DEAD_REPLY, BR_TRANSACTION_COMPLETE, BR_NOOP, 0x720d, 0x720e, BR_FAILED_REPLY, 0x7212,
          0x7213, 0x7214} then 0
      else -1
  }

  /** The number in `n` bytes at `at`. */
  function Field(bytes: seq<byte>, at: nat, n: nat): nat
    requires at + n <= |bytes|
  {
    Value(bytes[at..at + n])
  }

  datatype Frame = Frame(word: nat, payload: seq<byte>)

  datatype Parsed = Finished | Truncated | Unknown | Next(frame: Frame, cursor: nat)

  function ParseOne(direction: Direction, bytes: seq<byte>, cursor: nat): (r: Parsed)
    requires cursor <= |bytes|
    ensures r.Next? ==> cursor + 4 + |r.frame.payload| == r.cursor <= |bytes|
  {
    if cursor == |bytes| then Finished
    else if |bytes| - cursor < 4 then Truncated
    else
      var word := Field(bytes, cursor, 4);
      var length := WireLength(direction, word);
      if length < 0 then Unknown
      else if length > |bytes| - cursor - 4 then Truncated
      else Next(Frame(word, bytes[cursor + 4..cursor + 4 + length]), cursor + 4 + length)
  }

  /** Every frame from `cursor` to the end, if the stream ends where a frame does. */
  function ParseAll(direction: Direction, bytes: seq<byte>, cursor: nat): Option<seq<Frame>>
    requires cursor <= |bytes|
    decreases |bytes| - cursor
  {
    match ParseOne(direction, bytes, cursor)
    case Finished => Some([])
    case Next(frame, cursor') =>
      var rest := ParseAll(direction, bytes, cursor');
      if rest.None? then None else Some([frame] + rest.value)
    case _ => None
  }

  function DecodePacket(p: seq<byte>): Packet
    requires |p| >= 64
  {
    FieldBounded(p, 0, 8); FieldBounded(p, 8, 8); FieldBounded(p, 16, 4); FieldBounded(p, 20, 4);
        FieldBounded(p, 24, 4);
    FieldBounded(p, 28, 4); FieldBounded(p, 32, 8); FieldBounded(p, 40, 8); FieldBounded(p, 48, 8);
        FieldBounded(p, 56, 8);
    Packet(Field(p, 0, 8), Field(p, 8, 8), Field(p, 16, 4), Field(p, 20, 4), Field(p, 24, 4), Field(p, 28, 4),
           Field(p, 32, 8), Field(p, 40, 8), Field(p, 48, 8), Field(p, 56, 8))
  }

  function DecodeTransaction(f: Frame): Option<Packet> {
    if f.word in {0x4040_6300, 0x4040_6301, BR_TRANSACTION, BR_REPLY}
        && |f.payload| == 64 then Some(DecodePacket(f.payload)) else None
  }

  lemma {:induction false} ValueBounded(b: seq<byte>)
    ensures Value(b) < Power(|b|)
  {
    if b != [] { ValueBounded(b[1..]); }
  }

  lemma FieldBounded(p: seq<byte>, at: nat, n: nat)
    requires at + n <= |p| && (n == 4 || n == 8)
    ensures Field(p, at, n) < if n == 4 then U32_LIMIT else U64_LIMIT
  {
    ValueBounded(p[at..at + n]);
    Power4And8();
  }

  // ---- the printer ----

  function Put32(v: u32): (b: seq<byte>)
    ensures |b| == 4
  {
    Bytes(v, 4)
  }

  function Put64(v: u64): (b: seq<byte>)
    ensures |b| == 8
  {
    Bytes(v, 8)
  }

  function EncodePacket(t: Packet): (b: seq<byte>)
    ensures |b| == 64
  {
    Put64(t.target) + Put64(t.cookie) + Put32(t.code) + Put32(t.flags) + Put32(t.senderPid) + Put32(t.senderEuid)
    + Put64(t.dataSize) + Put64(t.offsetsSize) + Put64(t.dataBuffer) + Put64(t.offsetsBuffer)
  }

  lemma FieldIs(bytes: seq<byte>, at: nat, n: nat, v: nat)
    requires at + n <= |bytes| && (n == 4 || n == 8) && v < (if n == 4 then U32_LIMIT else U64_LIMIT)
             && bytes[at..at + n] == Bytes(v, n)
    ensures Field(bytes, at, n) == v
  {
    Power4And8();
    BytesRoundTrip(v, n);
  }

  /** A packet survives the trip through its frame. */
  lemma PacketRoundTrip(t: Packet)
    ensures DecodePacket(EncodePacket(t)) == t
  {
    var b := EncodePacket(t);
    hide Field, DecodePacket, Bytes;
    PacketPieces(t);
    FieldIs(b, 0, 8, t.target);
    FieldIs(b, 8, 8, t.cookie);
    FieldIs(b, 16, 4, t.code);
    FieldIs(b, 20, 4, t.flags);
    FieldIs(b, 24, 4, t.senderPid);
    FieldIs(b, 28, 4, t.senderEuid);
    FieldIs(b, 32, 8, t.dataSize);
    FieldIs(b, 40, 8, t.offsetsSize);
    FieldIs(b, 48, 8, t.dataBuffer);
    FieldIs(b, 56, 8, t.offsetsBuffer);
    DecodePacketIs(b);
  }

  lemma DecodePacketIs(p: seq<byte>)
    requires |p| >= 64
    ensures var t := DecodePacket(p);
            && t.target == Field(p, 0, 8) && t.cookie == Field(p, 8, 8) && t.code == Field(p, 16, 4)
            && t.flags == Field(p, 20, 4)
            && t.senderPid == Field(p, 24, 4) && t.senderEuid == Field(p, 28, 4) && t.dataSize == Field(p, 32, 8)
            && t.offsetsSize == Field(p, 40, 8) && t.dataBuffer == Field(p, 48, 8) && t.offsetsBuffer == Field(p, 56, 8)
  {
    hide Field;
  }

  lemma PacketPieces(t: Packet)
    ensures var b := EncodePacket(t);
            && b[0..8] == Bytes(t.target, 8) && b[8..16] == Bytes(t.cookie, 8) && b[16..20] == Bytes(t.code, 4)
            && b[20..24] == Bytes(t.flags, 4)
            && b[24..28] == Bytes(t.senderPid, 4) && b[28..32] == Bytes(t.senderEuid, 4)
            && b[32..40] == Bytes(t.dataSize, 8)
            && b[40..48] == Bytes(t.offsetsSize, 8) && b[48..56] == Bytes(t.dataBuffer, 8)
            && b[56..64] == Bytes(t.offsetsBuffer, 8)
  {
    hide Bytes;
  }

  /** The word and the payload of one delivery. */
  function FrameOf(x: Delivery): Frame {
    match x
    case ErrorWord(word) => Frame(word, [])
    case Complete => Frame(BR_TRANSACTION_COMPLETE, [])
    case Callback(word, node) => Frame(word, Put64(node.pointer) + Put64(node.cookie))
    case Notice(death) => Frame(if death.state.ClearQueued? then BR_CLEAR_DEATH_NOTIFICATION_DONE else BR_DEAD_BINDER,
        Put64(death.cookie))
    case Parcel(work) => Frame(work.command, EncodePacket(work.value))
  }

  function PrintFrame(f: Frame): seq<byte> {
    Bytes(f.word, 4) + f.payload
  }

  function Print(frames: seq<Frame>): seq<byte> {
    if frames == [] then [] else PrintFrame(frames[0]) + Print(frames[1..])
  }

  /** A frame the parser of that direction accepts. */
  predicate WellFormed(direction: Direction, f: Frame) {
    f.word < U32_LIMIT && WireLength(direction, f.word) == |f.payload|
  }

  lemma ParsePrinted(direction: Direction, before: seq<byte>, f: Frame, after: seq<byte>)
    requires WellFormed(direction, f)
    ensures var bytes := before + PrintFrame(f) + after;
            ParseOne(direction, bytes, |before|) == Next(f, |before| + 4 + |f.payload|)
  {
    var bytes := before + PrintFrame(f) + after;
    hide WireLength, Field, Bytes;
    assert bytes[|before|..|before| + 4] == Bytes(f.word, 4);
    FieldIs(bytes, |before|, 4, f.word);
    assert bytes[|before| + 4..|before| + 4 + |f.payload|] == f.payload;
  }

  /** Whatever well-formed frames are printed, exactly those are parsed. */
  lemma {:induction false} PrintParses(direction: Direction, before: seq<byte>, frames: seq<Frame>)
    requires forall i {:trigger frames[i]} :: 0 <= i < |frames| ==> WellFormed(direction, frames[i])
    ensures ParseAll(direction, before + Print(frames), |before|) == Some(frames)
    decreases |frames|
  {
    hide WireLength, Bytes, ParseOne, PrintFrame;
    var bytes := before + Print(frames);
    if frames == [] {
      ParseEnd(direction, before);
      assert bytes == before;
    } else {
      var f, rest := frames[0], frames[1..];
      ParsePrinted(direction, before, f, Print(rest));
      assert bytes == before + PrintFrame(f) + Print(rest);
      PrintedSize(f);
      PrintParses(direction, before + PrintFrame(f), rest);
      assert bytes == (before + PrintFrame(f)) + Print(rest);
      assert frames == [f] + rest;
    }
  }

  lemma ParseEnd(direction: Direction, bytes: seq<byte>)
    ensures ParseOne(direction, bytes, |bytes|) == Finished
  {
  }

  lemma PrintedSize(f: Frame)
    ensures |PrintFrame(f)| == 4 + |f.payload|
  {
  }

  // ---- what the driver delivers is well formed ----

  function Frames(delivered: seq<Delivery>): (r: seq<Frame>)
    ensures |r| == |delivered|
    ensures forall i {:trigger r[i]} :: 0 <= i < |r| ==> r[i] == FrameOf(delivered[i])
  {
    seq(|delivered|, i requires 0 <= i < |delivered| => FrameOf(delivered[i]))
  }

  predicate Printable(x: Delivery) {
    match x
    case ErrorWord(word) => word in {BR_DEAD_REPLY, BR_FAILED_REPLY}
    case Callback(word, _) => word in {BR_INCREFS, BR_ACQUIRE, BR_RELEASE, BR_DECREFS}
    case _ => true
  }

  lemma PrintableWellFormed(x: Delivery)
    requires Printable(x)
    ensures WellFormed(FromDriver, FrameOf(x)) && 4 + |FrameOf(x).payload| == Length(x)
  {
    hide EncodePacket, Bytes;
  }

  lemma CallbackWord(d: Device, node: Node, e: nat, tid: nat, th: Thread)
    requires Callable(d, node, e, tid, th)
    ensures NodeCommand(d.references, d.claims, node) in {BR_INCREFS, BR_ACQUIRE, BR_RELEASE, BR_DECREFS}
  {
    hide StrongUse, WeakUse;
  }

  lemma ErrorWords(d: Device, e: nat, tid: nat)
    requires Inv(d) && (e, tid) in d.threads
    ensures d.threads[(e, tid)].error in {0, BR_DEAD_REPLY, BR_FAILED_REPLY}
  {
    BinderTransfer.CallParts(d);
    hide Inv;
  }

  /** What is delivered for each kind of work. */
  lemma DeliveredIs(d: Device, e: nat, tid: nat, i: nat)
    requires e in d.endpoints && (e, tid) in d.threads
    ensures i < |d.work| ==> DeliverWork(d, e, tid, i).delivered == [Parcel(d.work[i])]
    ensures i < |d.deaths| ==> DeliverDeath(d, i).delivered == [Notice(d.deaths[i])]
    ensures i < |d.nodes| ==>
              DeliverNode(d, i).delivered == [Callback(NodeCommand(d.references, d.claims, d.nodes[i]), d.nodes[i])]
  {
    hide NodeCommand, Collect;
  }

  lemma DeliveryPrintable(d: Device, e: nat, tid: nat)
    requires Inv(d) && e in d.endpoints && (e, tid) in d.threads
    ensures var r := DeliverNext(d, e, tid); |r.delivered| <= 1 && (r.delivered != [] ==> Printable(r.delivered[0]))
  {
    var th := d.threads[(e, tid)];
    ErrorWords(d, e, tid);
    hide Inv, NodeEventFor, WorkFor, DeathFor, DeliverNode, DeliverWork, DeliverDeath, Printable, Callable, Deliverable,
        Notifiable;
    NodePrintable(d, e, tid, th, NodeEventFor(d, e, tid, th));
    WordsPrintable(th.error);
    DeliveredIs(d, e, tid, WorkFor(d, e, tid, th));
    DeliveredIs(d, e, tid, DeathFor(d.deaths, e, tid, th));
  }

  lemma NodePrintable(d: Device, e: nat, tid: nat, th: Thread, k: nat)
    requires e in d.endpoints && (e, tid) in d.threads && (k < |d.nodes| ==> Callable(d, d.nodes[k], e, tid, th))
    ensures k < |d.nodes| ==> |DeliverNode(d, k).delivered| == 1 && Printable(DeliverNode(d, k).delivered[0])
  {
    hide Callable, NodeCommand, DeliverNode;
    DeliveredIs(d, e, tid, k);
    if k < |d.nodes| { CallbackWord(d, d.nodes[k], e, tid, th); }
  }

  lemma WordsPrintable(error: nat)
    ensures error in {BR_DEAD_REPLY, BR_FAILED_REPLY} ==> Printable(ErrorWord(error))
    ensures Printable(Complete) && (forall w {:trigger Parcel(w)} :: Printable(Parcel(w)))
            && (forall x {:trigger Notice(x)} :: Printable(Notice(x)))
  {
  }

  function Total(delivered: seq<Delivery>): nat {
    if delivered == [] then 0 else Length(delivered[0]) + Total(delivered[1..])
  }

  ghost predicate AllPrintable(delivered: seq<Delivery>) {
    forall i {:trigger delivered[i]} :: 0 <= i < |delivered| ==> Printable(delivered[i])
  }

  lemma {:induction false} ReadPrintable(d: Device, e: nat, tid: nat, room: nat, writable: nat)
    requires Inv(d) && e in d.endpoints && (e, tid) in d.threads
    ensures AllPrintable(ReadLoop(d, e, tid, room, writable).delivered)
            && Total(ReadLoop(d, e, tid, room, writable).delivered) <= room
    decreases room
  {
    hide Inv, DeliverNext, Printable, Length;
    DeliveryPrintable(d, e, tid);
    DeliverNextInv(d, e, tid);
    DeliverNextKeeps(d, e, tid);
    var next := DeliverNext(d, e, tid);
    if !(room < 4 || next.delivered == [] || Length(next.delivered[0]) > room || writable == 0) {
      var x := next.delivered[0];
      assert next.delivered == [x];
      LengthPositive(x);
      if EndsRead(x) {
        assert Total([x]) == Length(x) + Total([x][1..]);
      } else {
        var rest := ReadLoop(next.d, e, tid, room - Length(x), writable - 1);
        ReadPrintable(next.d, e, tid, room - Length(x), writable - 1);
        assert ([x] + rest.delivered)[1..] == rest.delivered;
      }
    }
  }

  lemma LengthPositive(x: Delivery)
    ensures Length(x) >= 4
  {
  }

  lemma {:induction false} PrintTotal(delivered: seq<Delivery>)
    requires AllPrintable(delivered)
    ensures |Print(Frames(delivered))| == Total(delivered)
    ensures forall i {:trigger Frames(delivered)[i]} :: 0 <= i < |delivered| ==>
              WellFormed(FromDriver, Frames(delivered)[i])
  {
    hide Printable, FrameOf, Length, PrintFrame, WellFormed;
    if delivered != [] {
      PrintableWellFormed(delivered[0]);
      PrintedSize(FrameOf(delivered[0]));
      PrintTotal(delivered[1..]);
      assert Frames(delivered)[1..] == Frames(delivered[1..]);
      forall i | 0 <= i < |delivered| ensures WellFormed(FromDriver, Frames(delivered)[i]) {
        if i > 0 { assert Frames(delivered)[i] == Frames(delivered[1..])[i - 1]; }
      }
    }
  }

  lemma NoopWellFormed()
    ensures WellFormed(FromDriver, Frame(BR_NOOP, []))
  {
  }

  lemma ParcelDecodes(w: Work)
    ensures DecodeTransaction(FrameOf(Parcel(w))) == Some(w.value)
  {
    hide EncodePacket, DecodePacket;
    PacketRoundTrip(w.value);
  }

  /** The frame of every parcel decodes to the value that was queued. */
  ghost predicate ParcelsDecode(delivered: seq<Delivery>) {
    forall i {:trigger delivered[i]} :: 0 <= i < |delivered| && delivered[i].Parcel? ==>
      DecodeTransaction(Frames(delivered)[i]) == Some(delivered[i].work.value)
  }

  lemma AllParcelsDecode(delivered: seq<Delivery>)
    ensures ParcelsDecode(delivered)
  {
    hide FrameOf, DecodeTransaction;
    forall i | 0 <= i < |delivered| && delivered[i].Parcel?
      ensures DecodeTransaction(Frames(delivered)[i]) == Some(delivered[i].work.value)
    {
      ParcelDecodes(delivered[i].work);
    }
  }

  lemma StreamParses(delivered: seq<Delivery>)
    requires AllPrintable(delivered)
    ensures var bytes := Print([Frame(BR_NOOP, [])] + Frames(delivered));
            ParseAll(FromDriver, bytes, 0) == Some([Frame(BR_NOOP, [])] + Frames(delivered))
                && |bytes| == 4 + Total(delivered)
  {
    PrintTotal(delivered);
    NoopWellFormed();
    hide AllPrintable, FrameOf, Length, PrintFrame, WellFormed, Frames, ParseAll, Total;
    var noop := Frame(BR_NOOP, []);
    var frames := [noop] + Frames(delivered);
    forall i | 0 <= i < |frames| ensures WellFormed(FromDriver, frames[i]) {
      if i > 0 { assert frames[i] == Frames(delivered)[i - 1]; }
    }
    PrintParses(FromDriver, [], frames);
    assert [] + Print(frames) == Print(frames);
    assert frames[1..] == Frames(delivered);
    PrintedSize(noop);
  }

  /** The printed bytes are a NOOP and then exactly the delivered events, in order; they fit the buffer, and each
      parcel's
      frame decodes to the queued value. */
  ghost predicate ReadsBack(delivered: seq<Delivery>, size: nat) {
    var bytes := Print([Frame(BR_NOOP, [])] + Frames(delivered));
    && ParseAll(FromDriver, bytes, 0) == Some([Frame(BR_NOOP, [])] + Frames(delivered))
    && |bytes| == 4 + Total(delivered) <= size && ParcelsDecode(delivered)
  }

  lemma StreamReadsBack(delivered: seq<Delivery>, size: nat)
    requires AllPrintable(delivered) && 4 + Total(delivered) <= size
    ensures ReadsBack(delivered, size)
  {
    StreamParses(delivered);
    AllParcelsDecode(delivered);
    hide AllPrintable, Print, Frames, ParseAll, Total, ParcelsDecode;
  }

  /** After every successful read the consumed bytes parse back to what was delivered. */
  lemma ReadParsesBack(d: Device, e: nat, tid: nat, size: nat, writable: nat)
    requires Inv(d) && e in d.endpoints && (e, tid) in d.threads && ReadCommand(d, e, tid, size, writable).status.Done?
    ensures ReadsBack(ReadCommand(d, e, tid, size, writable).delivered, size)
  {
    hide *;
    ReadCommandIs(d, e, tid, size, writable);
    ReadPrintable(d, e, tid, size - 4, writable - 1);
    StreamReadsBack(ReadLoop(d, e, tid, size - 4, writable - 1).delivered, size);
  }

  lemma ReadCommandIs(d: Device, e: nat, tid: nat, size: nat, writable: nat)
    requires e in d.endpoints && (e, tid) in d.threads && ReadCommand(d, e, tid, size, writable).status.Done?
    ensures size >= 4 && writable > 0 && ReadCommand(d, e, tid, size, writable).delivered
            == ReadLoop(d, e, tid, size - 4, writable - 1).delivered
  {
    hide ReadLoop, ReadReady;
  }

  // ---- commands going in ----

  function CommandWord(c: Command): nat {
    match c
    case EnterLooper => 0x630c
    case RegisterLooper => 0x630b
    case ExitLooper => 0x630d
    case Call(_, _) => 0x4040_6300
    case Reply(_, _) => 0x4040_6301
    case FreeBuffer(_) => 0x4008_6303
    case AdjustCount(increment, strong, _) => if increment then (if strong then 0x4004_6305 else 0x4004_6304)
        else if strong then 0x4004_6306 else 0x4004_6307
    case NodeDone(strong, _, _) => if strong then 0x4010_6309 else 0x4010_6308
    case RequestDeath(_, _) => 0x400c_630e
    case ClearDeath(_, _) => 0x400c_630f
    case DeathDone(_) => 0x4008_6310
  }

  function CommandPayload(c: Command): seq<byte> {
    match c
    case Call(input, _) => EncodePacket(input)
    case Reply(input, _) => EncodePacket(input)
    case FreeBuffer(buffer) => Put64(buffer)
    case AdjustCount(_, _, handle) => Put32(handle)
    case NodeDone(_, pointer, cookie) => Put64(pointer) + Put64(cookie)
    case RequestDeath(handle, cookie) => Put32(handle) + Put64(cookie)
    case ClearDeath(handle, cookie) => Put32(handle) + Put64(cookie)
    case DeathDone(cookie) => Put64(cookie)
    case _ => []
  }

  /** How many bytes the driver takes from the write buffer for a command it accepts. */
  function Consumed(c: Command): nat {
    match c
    case Call(_, _) => 68
    case Reply(_, _) => 68
    case FreeBuffer(_) => 12
    case AdjustCount(_, _, _) => 8
    case NodeDone(_, _, _) => 20
    case RequestDeath(_, _) => 16
    case ClearDeath(_, _) => 16
    case DeathDone(_) => 12
    case _ => 4
  }

  /** Every accepted command takes its word and its wire length, which is exactly one frame of the stream parser. */
  lemma CommandConsumes(before: seq<byte>, c: Command, after: seq<byte>)
    ensures Consumed(c) == 4 + WireLength(ToDriver, CommandWord(c)) == 4 + |CommandPayload(c)|
    ensures var bytes := before + PrintFrame(Frame(CommandWord(c), CommandPayload(c))) + after;
            ParseOne(ToDriver, bytes, |before|) == Next(Frame(CommandWord(c), CommandPayload(c)),
                |before| + Consumed(c))
  {
    hide EncodePacket, Bytes, ParseOne, PrintFrame;
    ParsePrinted(ToDriver, before, Frame(CommandWord(c), CommandPayload(c)), after);
  }

  /** The command a frame stands for; the parcel itself is read through the packet's pointers. */
  function ReadCommandFrame(f: Frame, payload: Payload): (r: Option<Command>) {
    var n := |f.payload|;
    if f.word == 0x630c then Some(EnterLooper)
    else if f.word == 0x630b then Some(RegisterLooper)
    else if f.word == 0x630d then Some(ExitLooper)
    else if f.word in {0x4040_6300, 0x4040_6301} && n == 64 then
      Some(if f.word == 0x4040_6300 then Call(DecodePacket(f.payload), payload)
          else Reply(DecodePacket(f.payload), payload))
    else if f.word in {0x4008_6303, 0x4008_6310} && n == 8 then
      FieldBounded(f.payload, 0, 8);
      Some(if f.word == 0x4008_6303 then FreeBuffer(Field(f.payload, 0, 8)) else DeathDone(Field(f.payload, 0, 8)))
    else if f.word in {0x4004_6304, 0x4004_6305, 0x4004_6306, 0x4004_6307} && n == 4 then
      FieldBounded(f.payload, 0, 4);
      Some(AdjustCount(f.word in {0x4004_6304, 0x4004_6305}, f.word in {0x4004_6305, 0x4004_6306},
          Field(f.payload, 0, 4)))
    else if f.word in {0x4010_6308, 0x4010_6309} && n == 16 then
      FieldBounded(f.payload, 0, 8);
      FieldBounded(f.payload, 8, 8);
      Some(NodeDone(f.word == 0x4010_6309, Field(f.payload, 0, 8), Field(f.payload, 8, 8)))
    else if f.word in {0x400c_630e, 0x400c_630f} && n == 12 then
      FieldBounded(f.payload, 0, 4);
      FieldBounded(f.payload, 4, 8);
      Some(if f.word == 0x400c_630e then RequestDeath(Field(f.payload, 0, 4), Field(f.payload, 4, 8))
          else ClearDeath(Field(f.payload, 0, 4), Field(f.payload, 4, 8)))
    else None
  }

  function PayloadOf(c: Command): Payload {
    match c
    case Call(_, payload) => payload
    case Reply(_, payload) => payload
    case _ => Unreadable
  }

  lemma OneField(v: nat, n: nat)
    requires (n == 4 || n == 8) && v < if n == 4 then U32_LIMIT else U64_LIMIT
    ensures Field(Bytes(v, n), 0, n) == v
  {
    assert Bytes(v, n)[0..n] == Bytes(v, n);
    FieldIs(Bytes(v, n), 0, n, v);
  }

  lemma TwoFields(v: nat, n: nat, w: u64)
    requires (n == 4 || n == 8) && v < if n == 4 then U32_LIMIT else U64_LIMIT
    ensures Field(Bytes(v, n) + Bytes(w, 8), 0, n) == v && Field(Bytes(v, n) + Bytes(w, 8), n, 8) == w
  {
    var b := Bytes(v, n) + Bytes(w, 8);
    assert b[0..n] == Bytes(v, n) && b[n..n + 8] == Bytes(w, 8);
    FieldIs(b, 0, n, v);
    FieldIs(b, n, 8, w);
  }

  /** Reading a written command gives it back. */
  lemma CommandRoundTrip(c: Command)
    ensures ReadCommandFrame(Frame(CommandWord(c), CommandPayload(c)), PayloadOf(c)) == Some(c)
  {
    hide EncodePacket, DecodePacket, Bytes, Field;
    match c
    case Call(input, _) => PacketRoundTrip(input);
    case Reply(input, _) => PacketRoundTrip(input);
    case FreeBuffer(buffer) => OneField(buffer, 8);
    case AdjustCount(_, _, handle) => OneField(handle, 4);
    case NodeDone(_, pointer, cookie) => TwoFields(pointer, 8, cookie);
    case RequestDeath(handle, cookie) => TwoFields(handle, 4, cookie);
    case ClearDeath(handle, cookie) => TwoFields(handle, 4, cookie);
    case DeathDone(cookie) => OneField(cookie, 8);
    case _ =>
  }
}
