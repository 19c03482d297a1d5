/** The USB mass-storage panel of `libs/lcds/SN_WCH32.py` (480x320): the
    fixed 31/32-byte vendor command blocks, the brightness mapping onto 0..7,
    and the driver object that sends a block, the frame and an acknowledgement
    read over a device handle that may be absent or may stop accepting
    transfers. */
module SnWch32 {
  import opened Common
  import PC = PixelCodec
  import PB = PixelCodecBase

  const Width := 480
  const Height := 320

  // ---------------------------------------------------------------------------
  // Little-endian fields

  /** Python's `(x >> k) & 0xFF` for k = 8 d: byte d of x, little end first. */
  function ByteOf(x: int, d: nat): byte
    requires d < 4
  {
    if d == 0 then Lo(x)
    else if d == 1 then Lo(x / 256)
    else if d == 2 then Lo(x / 65536)
    else Lo(x / 16777216)
  }

  function LE16(lo: byte, hi: byte): int { lo as int + 256 * hi as int }

  function LE32(b0: byte, b1: byte, b2: byte, b3: byte): int {
    b0 as int + 256 * b1 as int + 65536 * b2 as int + 16777216 * b3 as int
  }

  /** The four little-endian bytes read back give x modulo 2^32. */
  lemma LE32Value(x: int)
    ensures LE32(ByteOf(x, 0), ByteOf(x, 1), ByteOf(x, 2), ByteOf(x, 3)) == x % 4294967296
  {
    var q1 := x / 256;
    var q2 := q1 / 256;
    var q3 := q2 / 256;
    var q4 := q3 / 256;
    assert x == 256 * q1 + x % 256;
    assert q1 == 256 * q2 + q1 % 256;
    assert q2 == 256 * q3 + q2 % 256;
    assert q3 == 256 * q4 + q3 % 256;
    DivModUnique(x, 65536, q2, 256 * (q1 % 256) + x % 256);
    DivModUnique(x, 16777216, q3, 65536 * (q2 % 256) + 256 * (q1 % 256) + x % 256);
    DivModUnique(x, 4294967296, q4, 16777216 * (q3 % 256) + 65536 * (q2 % 256) + 256 * (q1 % 256) + x % 256);
  }

  /** The two little-endian bytes read back give x modulo 2^16. */
  lemma LE16Value(x: int)
    ensures LE16(ByteOf(x, 0), ByteOf(x, 1)) == x % 65536
  {
    HiLoValue(x);
  }

  // ---------------------------------------------------------------------------
  // Vendor blocks

  /** The 20-byte command-block wrapper the three blocks share: signature
      "USBC" DE AD BE EF,
      32-bit little-endian transfer length at 8-11, zeros at 12-13, 10 CD at
      14-15, zeros at 16-19, opcode at 20. */
  predicate IsCommandBlock(b: seq<byte>, transferLength: int, opcode: int) {
    && |b| >= 21
    && b[0] == 0x55 && b[1] == 0x53 && b[2] == 0x42 && b[3] == 0x43
    && b[4] == 0xDE && b[5] == 0xAD && b[6] == 0xBE && b[7] == 0xEF
    && b[8] as int + 256 * b[9] as int + 65536 * b[10] as int + 16777216 * b[11] as int == transferLength
    && b[12] == 0 && b[13] == 0 && b[14] == 0x10 && b[15] == 0xCD
    && b[16] == 0 && b[17] == 0 && b[18] == 0 && b[19] == 0
    && b[20] == opcode
  }

  /** `__init_display(x0, y0, x1, y1)`: announces a (x1-x0) x (y1-y0) window
      of 16-bit pixels. */
  function InitDisplayBlock(x0: int, y0: int, x1: int, y1: int): (b: seq<byte>)
    ensures |b| == 31
  {
    WindowBlock((x1 - x0) * (y1 - y0) * 2, x0, y0, x1, y1)
  }

  /** The block for a window of `blockLen` bytes. */
  function WindowBlock(blockLen: int, x0: int, y0: int, x1: int, y1: int): (b: seq<byte>)
    ensures |b| == 31
  {
    [0x55, 0x53, 0x42, 0x43, 0xDE, 0xAD, 0xBE, 0xEF,
     ByteOf(blockLen, 0), ByteOf(blockLen, 1), ByteOf(blockLen, 2), ByteOf(blockLen, 3),
     0x00, 0x00, 0x10, 0xCD, 0x00, 0x00, 0x00, 0x00, 0x06, 0x12,
     ByteOf(x0, 0), ByteOf(x0, 1), ByteOf(y0, 0), ByteOf(y0, 1),
     ByteOf(x1 - 1, 0), ByteOf(x1 - 1, 1), ByteOf(y1 - 1, 0), ByteOf(y1 - 1, 1), 0x00]
  }

  /** Layout of the display header: a command block with opcode 6 whose
      length is the window's byte count (mod 2^32), sub-command 0x12, then the
      window's first and last pixel coordinates as 16-bit little-endian values
      and a zero byte. */
  lemma InitDisplayLayout(x0: int, y0: int, x1: int, y1: int)
    ensures var b := InitDisplayBlock(x0, y0, x1, y1);
      && IsCommandBlock(b, ((x1 - x0) * (y1 - y0) * 2) % 4294967296, 0x06)
      && b[21] == 0x12
      && LE16(b[22], b[23]) == x0 % 65536 && LE16(b[24], b[25]) == y0 % 65536
      && LE16(b[26], b[27]) == (x1 - 1) % 65536 && LE16(b[28], b[29]) == (y1 - 1) % 65536
      && b[30] == 0
  {
    WindowBlockLayout((x1 - x0) * (y1 - y0) * 2, x0, y0, x1, y1);
  }

  lemma WindowBlockLayout(blockLen: int, x0: int, y0: int, x1: int, y1: int)
    ensures var b := WindowBlock(blockLen, x0, y0, x1, y1);
      && IsCommandBlock(b, blockLen % 4294967296, 0x06)
      && b[21] == 0x12
      && LE16(b[22], b[23]) == x0 % 65536 && LE16(b[24], b[25]) == y0 % 65536
      && LE16(b[26], b[27]) == (x1 - 1) % 65536 && LE16(b[28], b[29]) == (y1 - 1) % 65536
      && b[30] == 0
  {
    LE32Value(blockLen);
    LE16Value(x0);
    LE16Value(y0);
    LE16Value(x1 - 1);
    LE16Value(y1 - 1);
  }

  /** The header `display` sends: the whole panel, 307200 = 0x0004B000
      bytes, from (0, 0) to (479, 319) = (0x01DF, 0x013F). */
  const FullPanelBlock: seq<byte> :=
    [0x55, 0x53, 0x42, 0x43, 0xDE, 0xAD, 0xBE, 0xEF, 0x00, 0xB0, 0x04, 0x00,
     0x00, 0x00, 0x10, 0xCD, 0x00, 0x00, 0x00, 0x00, 0x06, 0x12,
     0x00, 0x00, 0x00, 0x00, 0xDF, 0x01, 0x3F, 0x01, 0x00]

  lemma FullPanelHeader()
    ensures InitDisplayBlock(0, 0, Width, Height) == FullPanelBlock
  {
    assert ByteOf(307200, 0) == 0 && ByteOf(307200, 1) == 0xB0 && ByteOf(307200, 2) == 0x04 && ByteOf(307200, 3) == 0;
    assert ByteOf(479, 0) == 0xDF && ByteOf(479, 1) == 0x01 && ByteOf(319, 0) == 0x3F && ByteOf(319, 1) == 0x01;
  }

  lemma FullPanelLayout()
    ensures IsCommandBlock(FullPanelBlock, 307200, 0x06)
  {
  }

  /** The handshake block: transfer length 5, opcode 2. */
  const HandshakeBlock: seq<byte> :=
    [0x55, 0x53, 0x42, 0x43, 0xDE, 0xAD, 0xBE, 0xEF, 0x05, 0x00, 0x00, 0x00, 0x00, 0x00, 0x10, 0xCD,
     0x00, 0x00, 0x00, 0x00, 0x02, 0x00, 0x00, 0x00, 0x00, 0x00, 0x00, 0x00, 0x00, 0x00, 0x00]

  /** The handshake block is a 31-byte command block announcing the 5-byte
      answer that `handshake` then reads. */
  lemma HandshakeLayout()
    ensures |HandshakeBlock| == 31
    ensures IsCommandBlock(HandshakeBlock, 5, 0x02)
    ensures forall k | 21 <= k < 31 :: HandshakeBlock[k] == 0
  {
  }

  /** `set_brightness`'s mapping: `int(clamped / 100 * 7)`, which for whole
      percentages is the floor of 7 b / 100. */
  function BrightnessLevel(b: int): (level: byte)
    ensures 0 <= level <= 7
    ensures b <= 0 ==> level == 0
    ensures b >= 100 ==> level == 7
    ensures 0 <= b <= 100 ==> level * 100 <= b * 7 < level * 100 + 100
  {
    var clamped := if b < 0 then 0 else if b > 100 then 100 else b;
    clamped * 7 / 100
  }

  lemma BrightnessMonotone(a: int, b: int)
    requires a <= b
    ensures BrightnessLevel(a) <= BrightnessLevel(b)
  {
    var ca := if a < 0 then 0 else if a > 100 then 100 else a;
    var cb := if b < 0 then 0 else if b > 100 then 100 else b;
    assert ca * 7 <= cb * 7;
  }

  /** The brightness block: 32 bytes (one more than the other two blocks),
      opcode 6 with sub-command 01 01 00, the level at byte 24. */
  function BrightnessBlock(b: int): (blk: seq<byte>)
    ensures |blk| == 32
  {
    [0x55, 0x53, 0x42, 0x43, 0xDE, 0xAD, 0xBE, 0xEF, 0x00, 0x00, 0x00, 0x00, 0x00, 0x00, 0x10, 0xCD,
     0x00, 0x00, 0x00, 0x00, 0x06, 0x01, 0x01, 0x00, BrightnessLevel(b), 0x00, 0x00, 0x00, 0x00, 0x00, 0x00, 0x00]
  }

  /** Layout of the brightness block; two brightness blocks differ at most in
      byte 24. */
  lemma BrightnessLayout(b: int, c: int)
    ensures var blk := BrightnessBlock(b);
      IsCommandBlock(blk, 0, 0x06) && blk[21..24] == [0x01, 0x01, 0x00] && blk[24] == BrightnessLevel(b)
      && forall k | 25 <= k < 32 :: blk[k] == 0
    ensures forall k | 0 <= k < 32 && k != 24 :: BrightnessBlock(b)[k] == BrightnessBlock(c)[k]
  {
  }

  // ---------------------------------------------------------------------------
  // Transfers

  /** The device handle: `writesLeft` further bulk writes are accepted, after
      which every write reports 0 bytes transferred; `readsLeft` further reads
      and resets complete, after which they raise (`USBError`, a timeout or an
      unplugged device). */
  datatype UsbDevice = UsbDevice(writesLeft: nat, readsLeft: nat)

  /** One transfer on the handle: a bulk write to endpoint 0x01, a read of
      `length` bytes from endpoint 0x81, or a device reset. */
  datatype Step = Out(data: seq<byte>) | In(length: nat) | Reset

  /** What a sequence of transfers leaves: the handle, the transfers that took
      place, and whether all of them did. */
  datatype Outcome = Outcome(device: Option<UsbDevice>, done: seq<Step>, ok: bool)

  /** Whether the handle still takes this transfer. */
  predicate Takes(d: UsbDevice, step: Step) {
    if step.Out? then d.writesLeft > 0 else d.readsLeft > 0
  }

  /** The handle after it took the transfer. */
  function Spend(d: UsbDevice, step: Step): UsbDevice
    requires Takes(d, step)
  {
    if step.Out? then d.(writesLeft := d.writesLeft - 1) else d.(readsLeft := d.readsLeft - 1)
  }

  /** Runs the transfers in order, stopping at the first one that raises: any
      transfer on a missing handle (`None.write` raises), a write the device
      does not accept (`ConnectionError`), or a read or reset that fails. */
  function Run(device: Option<UsbDevice>, plan: seq<Step>): Outcome
    decreases |plan|
  {
    if plan == [] then Outcome(device, [], true)
    else if device.None? || !Takes(device.value, plan[0]) then Outcome(device, [], false)
    else
      var rest := Run(Some(Spend(device.value, plan[0])), plan[1..]);
      Outcome(rest.device, [plan[0]] + rest.done, rest.ok)
  }

  function Writes(plan: seq<Step>): nat {
    if plan == [] then 0 else (if plan[0].Out? then 1 else 0) + Writes(plan[1..])
  }

  function Reads(plan: seq<Step>): nat {
    if plan == [] then 0 else (if plan[0].Out? then 0 else 1) + Reads(plan[1..])
  }

  /** The transfers that took place are a prefix of the plan, all of it
      exactly when the plan succeeds; a non-empty plan succeeds iff the handle
      exists and takes all of its writes and all of its reads and resets, and
      each transfer taken uses up one unit of the matching allowance. */
  lemma {:induction false} RunSpec(device: Option<UsbDevice>, plan: seq<Step>)
    ensures var r := Run(device, plan);
      && r.done <= plan
      && (r.ok <==> r.done == plan)
      && (r.ok <==> plan == [] || (device.Some? && device.value.writesLeft >= Writes(plan)
                                   && device.value.readsLeft >= Reads(plan)))
      && (r.ok && device.Some? ==>
            r.device == Some(UsbDevice(device.value.writesLeft - Writes(plan), device.value.readsLeft - Reads(plan))))
      && (device.None? ==> r.device == None)
    decreases |plan|
  {
    if plan != [] && device.Some? && Takes(device.value, plan[0]) {
      RunSpec(Some(Spend(device.value, plan[0])), plan[1..]);
    }
  }

  /** Running two plans one after the other is running their concatenation. */
  lemma {:induction false} RunAppend(device: Option<UsbDevice>, p: seq<Step>, q: seq<Step>)
    ensures var r := Run(device, p);
      Run(device, p + q)
        == if r.ok then var s := Run(r.device, q); Outcome(s.device, r.done + s.done, s.ok) else r
    decreases |p|
  {
    if p == [] {
      assert p + q == q;
    } else if device.Some? && Takes(device.value, p[0]) {
      assert (p + q)[1..] == p[1..] + q;
      RunAppend(Some(Spend(device.value, p[0])), p[1..], q);
    }
  }

  /** The outcome of a run that `done` precedes. */
  function After(done: seq<Step>, r: Outcome): Outcome {
    Outcome(r.device, done + r.done, r.ok)
  }

  lemma AppendAssoc(a: seq<Step>, b: seq<Step>, c: seq<Step>)
    ensures a + (b + c) == (a + b) + c
  {
  }

  /** The first transfer of a plan suffix. */
  lemma RunFirst(device: Option<UsbDevice>, plan: seq<Step>, i: nat)
    requires i < |plan|
    ensures Run(device, plan[i..]) ==
      if device.None? || !Takes(device.value, plan[i]) then Outcome(device, [], false)
      else After([plan[i]], Run(Some(Spend(device.value, plan[i])), plan[i + 1..]))
  {
    assert plan[i..][0] == plan[i] && plan[i..][1..] == plan[i + 1..];
  }

  /** The white 480x320 image `clear` displays. */
  function WhiteImage(): (img: PC.Image)
    ensures PC.WellFormed(img) && img.width == Width && img.height == Height
  {
    PC.Image(Width, Height, seq(Width * Height, _ => PC.White))
  }

  /** `clear` sends an all-0xFF frame. */
  lemma ClearPayloadAllFF()
    ensures forall k | 0 <= k < |PB.Encode(WhiteImage())| :: PB.Encode(WhiteImage())[k] == 0xFF
    ensures |PB.Encode(WhiteImage())| == 307200
  {
    PB.SameAsUnderscoreBase(WhiteImage());
    PC.AllWhite(WhiteImage());
  }

  /** `display`: header for the whole panel, the frame, then the 13-byte
      acknowledgement read of `__do_ack`. */
  function DisplayPlan(img: PC.Image): seq<Step>
    requires PC.WellFormed(img)
  {
    [Out(InitDisplayBlock(0, 0, Width, Height)), Out(PB.Encode(img)), In(13)]
  }

  /** `set_brightness`: the brightness block and the acknowledgement read. */
  function BrightnessPlan(b: int): seq<Step> {
    [Out(BrightnessBlock(b)), In(13)]
  }

  /** `handshake`: the handshake block, the 5-byte answer, the acknowledgement. */
  function HandshakePlan(): seq<Step> {
    [Out(HandshakeBlock), In(5), In(13)]
  }

  /** `close` on a handle: clear (which raises part-way if the device stops
      accepting), reset unless clear raised. */
  function ClosePlan(): seq<Step> {
    DisplayPlan(WhiteImage()) + [Reset]
  }

  /** What `usb.core.find` reports for vendor 0x1908 product 0x0102: no
      device, or a device whose serial number reads as text or fails to read
      (USBError), with the transfers it will take. */
  datatype Probe = NotFound | Found(serial: Option<string>, handle: UsbDevice)

  const SerialNumber := "WCH32"

  /** `serial.replace("\x00", "")`. */
  function StripNul(s: string): (r: string)
    ensures |r| <= |s|
    ensures forall i | 0 <= i < |r| :: r[i] != '\0'
  {
    if s == [] then [] else (if s[0] == '\0' then [] else [s[0]]) + StripNul(s[1..])
  }

  /** `is_connected`: a device with this vendor and product id whose serial is
      unreadable, empty, or "WCH32" after removing NUL characters. */
  predicate IsConnected(probe: Probe) {
    probe.Found? && (probe.serial.None? || probe.serial.value == "" || StripNul(probe.serial.value) == SerialNumber)
  }

  /** `open` adopts the device when its serial is unreadable or, non-empty, is
      "WCH32" after removing NUL characters; otherwise the handle is kept. */
  predicate Adopts(probe: Probe) {
    probe.Found? && (probe.serial.None? || (probe.serial.value != "" && StripNul(probe.serial.value) == SerialNumber))
  }

  /** A device whose serial reads as empty counts as connected, but `open`
      does not adopt it. */
  lemma EmptySerialConnectedNotAdopted(d: UsbDevice)
    ensures IsConnected(Found(Some(""), d)) && !Adopts(Found(Some(""), d))
  {
  }

  class Wch32Panel {
    var device: Option<UsbDevice>
    /** The transfers that took place on the handles, in order. */
    var log: seq<Step>

    /** `__init__`: no handle (its `close()` call is then a no-op). */
    constructor ()
      ensures device == None && log == []
    {
      device := None;
      log := [];
    }

    predicate IsOpen()
      reads this
    {
      device.Some?
    }

    method Open(probe: Probe)
      modifies this`device
      ensures device == if Adopts(probe) then Some(probe.handle) else old(device)
    {
      if Adopts(probe) {
        device := Some(probe.handle);
      }
    }

    /** One transfer: `write` (raising `ConnectionError` when the transfer
        returns 0), `read`/`__do_ack`, or `device.reset()`. */
    method Transfer(step: Step) returns (ok: bool)
      modifies this
      ensures var r := Run(old(device), [step]);
        device == r.device && log == old(log) + r.done && ok == r.ok
    {
      if device.None? || !Takes(device.value, step) {
        ok := false;
        return;
      }
      device := Some(Spend(device.value, step));
      log := log + [step];
      ok := true;
      assert [step][1..] == [];
    }

    /** Performs the transfers in order until one raises. */
    method Perform(plan: seq<Step>) returns (ok: bool)
      modifies this
      ensures var r := Run(old(device), plan);
        device == r.device && log == old(log) + r.done && ok == r.ok
    {
      ghost var d0, l0 := device, log;
      var i := 0;
      assert plan[..0] == [] && plan[0..] == plan;
      assert l0 + [] == l0;
      while i < |plan|
        invariant 0 <= i <= |plan|
        invariant log == l0 + plan[..i]
        invariant Run(d0, plan) == After(plan[..i], Run(device, plan[i..]))
      {
        RunFirst(device, plan, i);
        ok := Transfer(plan[i]);
        assert [plan[i]][1..] == [];
        if !ok {
          assert log == l0 + (plan[..i] + []);
          return;
        }
        ghost var rest := Run(device, plan[i + 1..]);
        assert plan[..i + 1] == plan[..i] + [plan[i]];
        AppendAssoc(plan[..i], [plan[i]], rest.done);
        i := i + 1;
      }
      assert plan[..i] == plan && plan[i..] == [];
      ok := true;
    }

    /** `display` of a native-size image. */
    method Display(img: PC.Image) returns (ok: bool)
      requires PC.WellFormed(img) && img.width == Width && img.height == Height
      modifies this
      ensures var r := Run(old(device), DisplayPlan(img));
        device == r.device && log == old(log) + r.done && ok == r.ok
    {
      ok := Perform(DisplayPlan(img));
    }

    /** `clear`: display the white image. */
    method Clear() returns (ok: bool)
      modifies this
      ensures var r := Run(old(device), DisplayPlan(WhiteImage()));
        device == r.device && log == old(log) + r.done && ok == r.ok
    {
      ok := Display(WhiteImage());
    }

    method SetBrightness(b: int) returns (ok: bool)
      modifies this
      ensures var r := Run(old(device), BrightnessPlan(b));
        device == r.device && log == old(log) + r.done && ok == r.ok
    {
      ok := Perform(BrightnessPlan(b));
    }

    method Handshake() returns (ok: bool)
      modifies this
      ensures var r := Run(old(device), HandshakePlan());
        device == r.device && log == old(log) + r.done && ok == r.ok
    {
      ok := Perform(HandshakePlan());
    }

    /** `close`: nothing without a handle; otherwise clear and reset with
        errors swallowed, and the handle is always dropped. */
    method Close()
      modifies this
      ensures device == None
      ensures log == old(log) + if old(device).None? then [] else Run(old(device), ClosePlan()).done
    {
      if device.None? {
        return;
      }
      ghost var d0 := device;
      var _ := Perform(ClosePlan());
      device := None;
    }
  }

  /** A display on a handle that takes at least two more writes and one more
      read sends the header, then the frame, then reads the acknowledgement,
      and uses two writes and one read. */
  lemma DisplayComplete(w: nat, r: nat, img: PC.Image)
    requires PC.WellFormed(img) && w >= 2 && r >= 1
    ensures Run(Some(UsbDevice(w, r)), DisplayPlan(img))
         == Outcome(Some(UsbDevice(w - 2, r - 1)), DisplayPlan(img), true)
  {
    var plan := DisplayPlan(img);
    assert plan[1..][1..] == plan[2..];
    assert Writes(plan[2..]) == 0 && Reads(plan[2..]) == 1;
    assert Writes(plan) == 2 && Reads(plan) == 1;
    RunSpec(Some(UsbDevice(w, r)), plan);
  }

  /** A handle that accepts only one more write takes the header and then
      raises on the frame: no acknowledgement is read. */
  lemma DisplayStopsAtFrame(r: nat, img: PC.Image)
    requires PC.WellFormed(img)
    ensures Run(Some(UsbDevice(1, r)), DisplayPlan(img))
         == Outcome(Some(UsbDevice(0, r)), [Out(InitDisplayBlock(0, 0, Width, Height))], false)
  {
    var plan := DisplayPlan(img);
    assert plan[1..][1..] == [In(13)];
  }

  /** A handle that takes both writes but no further read sends the header
      and the whole frame, and then the acknowledgement read raises: the
      display fails after the frame reached the device. */
  lemma DisplayFailsAtAck(w: nat, img: PC.Image)
    requires PC.WellFormed(img) && w >= 2
    ensures Run(Some(UsbDevice(w, 0)), DisplayPlan(img))
         == Outcome(Some(UsbDevice(w - 2, 0)), [Out(InitDisplayBlock(0, 0, Width, Height)), Out(PB.Encode(img))], false)
  {
    var plan := DisplayPlan(img);
    assert plan[1..][1..] == [In(13)];
    assert Run(Some(UsbDevice(w - 2, 0)), [In(13)]) == Outcome(Some(UsbDevice(w - 2, 0)), [], false);
    assert Run(Some(UsbDevice(w - 1, 0)), plan[1..]) == Outcome(Some(UsbDevice(w - 2, 0)), [plan[1]], false);
  }

  /** Closing after the device stopped accepting writes still drops the handle
      and sends nothing. */
  lemma CloseOnDeadDevice(r: nat)
    ensures Run(Some(UsbDevice(0, r)), ClosePlan()) == Outcome(Some(UsbDevice(0, r)), [], false)
  {
    assert ClosePlan()[0] == Out(InitDisplayBlock(0, 0, Width, Height));
  }

  /** A `close` whose clear completes but whose reset raises has still sent
      the whole white frame and read its acknowledgement. */
  lemma CloseResetRaises(w: nat)
    requires w >= 2
    ensures Run(Some(UsbDevice(w, 1)), ClosePlan())
         == Outcome(Some(UsbDevice(w - 2, 0)), DisplayPlan(WhiteImage()), false)
  {
    DisplayComplete(w, 1, WhiteImage());
    RunAppend(Some(UsbDevice(w, 1)), DisplayPlan(WhiteImage()), [Reset]);
    assert DisplayPlan(WhiteImage()) + [] == DisplayPlan(WhiteImage());
  }
}
