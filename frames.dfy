/**
 * The frames the client sends: the 15-byte configuration frame built in
 * `connect_daq` / `connect_novecento`, the 2-byte command frames of
 * `send_request`, and the all-zero stop frame of `disconnect` / `stop` /
 * `closeEvent`.  The three copies of the source build these identically.
 */
module Frames {
  import opened Crc

  /** One slot's entry in the Mode, Gain, HPF, HRES and Fsamp lists, and its IN_Active flag. */
  datatype Slot = Slot(active: bool, mode: nat, gain: nat, hpf: nat, hres: nat, fsamp: nat)

  /** The configuration the client requests: ten slots, the aux rate selector and the analog output. */
  datatype Request = Request(
    slots: seq<Slot>,
    fselAux: nat,
    anOutInSource: nat,
    anOutChan: nat,
    anOutGain: nat)

  const NUM_SLOTS: nat := 10
  const CONF_LEN: nat := 15

  /** AuxFsamp: the aux rate code folded into byte 0, one per aux selector. */
  const AUX_FSAMP: seq<nat> := [0, 16, 32, 48]

  /** What every list index in the encoder needs: ten slots and a selector inside AuxFsamp. */
  predicate WellFormed(r: Request)
  {
    |r.slots| == NUM_SLOTS && r.fselAux < |AUX_FSAMP|
  }

  /** The field ranges under which every slot byte fits in one byte. */
  predicate SlotInRange(s: Slot)
  {
    s.mode <= 3 && s.gain <= 3 && s.hpf <= 1 && s.hres <= 1 && s.fsamp <= 3
  }

  /** A well-formed request whose every frame entry fits in a byte, as bytearray requires. */
  predicate ByteSized(r: Request)
  {
    WellFormed(r) &&
    (forall i :: 0 <= i < NUM_SLOTS ==> SlotInRange(r.slots[i])) &&
    r.anOutGain + r.anOutInSource < 256 && r.anOutChan < 256
  }

  function Bit(b: bool): nat
  {
    if b then 1 else 0
  }

  /** Byte 0: streaming flag 0b10000000, aux rate code, and the IN_Active flags of slots 9 and 8. */
  function HeaderByte(r: Request): nat
    requires WellFormed(r)
  {
    128 + AUX_FSAMP[r.fselAux] + Bit(r.slots[9].active) * 2 + Bit(r.slots[8].active)
  }

  /** The sum of IN_Active[i] * 2**i over the given slots, slot 0 in the lowest bit. */
  function ActiveMask(slots: seq<Slot>): nat
  {
    if slots == [] then 0 else Bit(slots[0].active) + 2 * ActiveMask(slots[1..])
  }

  /** Bit i of x, counting from the least significant. */
  function BitOf(x: nat, i: nat): nat
  {
    if i == 0 then x % 2 else BitOf(x / 2, i - 1)
  }

  /** Mode*64 + Gain*16 + HPF*8 + HRES*4 + Fsamp. */
  function SlotByte(s: Slot): nat
  {
    s.mode * 64 + s.gain * 16 + s.hpf * 8 + s.hres * 4 + s.fsamp
  }

  /** Bytes 0..13 of the configuration frame. */
  function ConfigBody(r: Request): (body: seq<nat>)
    requires WellFormed(r)
  {
    [HeaderByte(r), ActiveMask(r.slots[..8]), r.anOutGain + r.anOutInSource, r.anOutChan]
      + seq(NUM_SLOTS, i requires 0 <= i < NUM_SLOTS => SlotByte(r.slots[i]))
  }

  /** The whole frame: the body and its checksum. */
  function ConfigFrame(r: Request): (f: seq<nat>)
    requires WellFormed(r)
    ensures |f| == CONF_LEN && f[CONF_LEN - 1] < 256
  {
    ConfigBody(r) + [Checksum(ConfigBody(r))]
  }

  /**
   * The ConfString construction: a list of fifteen zeros filled by index,
   * byte 1 accumulated over slots 0..7, bytes 4..13 one per slot, and the
   * checksum of the first fourteen entries stored last.
   */
  method BuildConfString(r: Request) returns (conf: seq<nat>)
    requires WellFormed(r)
    ensures |conf| == CONF_LEN
    ensures conf[..14] == ConfigBody(r)
    ensures conf[14] == Checksum(conf[..14])
    ensures conf == ConfigFrame(r)
  {
    conf := seq(CONF_LEN, _ => 0);
    conf := conf[0 := 128 + AUX_FSAMP[r.fselAux] + Bit(r.slots[9].active) * 2 + Bit(r.slots[8].active)];
    conf := conf[1 := 0];
    for i := 0 to 8
      invariant |conf| == CONF_LEN
      invariant conf[1] == ActiveMask(r.slots[..i])
      invariant conf[0] == HeaderByte(r)
    {
      ActiveMaskSnoc(r.slots[..i], r.slots[i]);
      assert r.slots[..i + 1] == r.slots[..i] + [r.slots[i]];
      conf := conf[1 := conf[1] + Bit(r.slots[i].active) * Pow2(i)];
    }
    conf := conf[2 := r.anOutGain + r.anOutInSource];
    conf := conf[3 := r.anOutChan];
    for i := 0 to NUM_SLOTS
      invariant |conf| == CONF_LEN
      invariant conf[..4] == ConfigBody(r)[..4]
      invariant forall k :: 0 <= k < i ==> conf[4 + k] == SlotByte(r.slots[k])
    {
      var s := r.slots[i];
      conf := conf[4 + i := s.mode * 64 + s.gain * 16 + s.hpf * 8 + s.hres * 4 + s.fsamp];
    }
    assert conf[..14] == ConfigBody(r);
    var crc := Crc8(conf, 14);
    conf := conf[14 := crc];
    assert conf[..14] == ConfigBody(r);
    assert conf == conf[..14] + [conf[14]];
  }

  // ---------------------------------------------------------------------
  // Layout of the configuration frame.
  // ---------------------------------------------------------------------

  /**
   * Byte 0 has bit 7 set, the aux selector in bits 4..6, bits 2..3 clear,
   * and the IN_Active flags of slots 9 and 8 in bits 1 and 0: no field
   * overlaps another.
   */
  lemma HeaderFields(r: Request)
    requires WellFormed(r)
    ensures HeaderByte(r) < 256
    ensures HeaderByte(r) / 128 == 1
    ensures (HeaderByte(r) / 16) % 8 == r.fselAux
    ensures (HeaderByte(r) / 4) % 4 == 0
    ensures (HeaderByte(r) / 2) % 2 == Bit(r.slots[9].active)
    ensures HeaderByte(r) % 2 == Bit(r.slots[8].active)
  {
    var h := HeaderByte(r);
    var f := r.fselAux;
    assert AUX_FSAMP[f] == 16 * f;
    assert h / 2 == 64 + 8 * f + Bit(r.slots[9].active);
    assert h / 4 == 32 + 4 * f;
    assert h / 16 == 8 + f;
  }

  /** The accumulation `ConfString[1] += IN_Active[i] * 2**i` extends the mask by one slot. */
  lemma {:induction false} ActiveMaskSnoc(slots: seq<Slot>, s: Slot)
    ensures ActiveMask(slots + [s]) == ActiveMask(slots) + Bit(s.active) * Pow2(|slots|)
  {
    if slots != [] {
      assert (slots + [s])[1..] == slots[1..] + [s];
      ActiveMaskSnoc(slots[1..], s);
    }
  }

  lemma {:induction false} ActiveMaskBound(slots: seq<Slot>)
    ensures ActiveMask(slots) < Pow2(|slots|)
  {
    if slots != [] {
      ActiveMaskBound(slots[1..]);
    }
  }

  lemma {:induction false} ActiveMaskBits(slots: seq<Slot>, i: nat)
    requires i < |slots|
    ensures BitOf(ActiveMask(slots), i) == Bit(slots[i].active)
  {
    var low, rest := Bit(slots[0].active), ActiveMask(slots[1..]);
    assert ActiveMask(slots) == low + 2 * rest;
    HalveOdd(low, rest);
    if i > 0 {
      ActiveMaskBits(slots[1..], i - 1);
      assert slots[1..][i - 1] == slots[i];
    }
  }

  /** Splitting off the low bit: `b + 2 * r` halves to `r` with remainder `b`. */
  lemma HalveOdd(b: nat, r: nat)
    requires b < 2
    ensures (b + 2 * r) / 2 == r && (b + 2 * r) % 2 == b
  {
  }

  /** Byte 1 fits in a byte and has bit i set exactly when slot i (i < 8) is requested active. */
  lemma ActiveMaskLayout(r: Request, i: nat)
    requires WellFormed(r) && i < 8
    ensures ActiveMask(r.slots[..8]) < 256
    ensures BitOf(ActiveMask(r.slots[..8]), i) == 1 <==> r.slots[i].active
  {
    ActiveMaskBound(r.slots[..8]);
    assert Pow2(8) == 256;
    ActiveMaskBits(r.slots[..8], i);
  }

  /** The five fields of a slot byte, read back by division and remainder. */
  function UnpackSlot(b: nat, active: bool): Slot
  {
    Slot(active, b / 64, (b / 16) % 4, (b / 8) % 2, (b / 4) % 2, b % 4)
  }

  /** A slot byte of in-range fields fits in a byte and gives its fields back. */
  lemma SlotByteRoundTrip(s: Slot)
    requires SlotInRange(s)
    ensures SlotByte(s) < 256
    ensures UnpackSlot(SlotByte(s), s.active) == s
  {
    var b := SlotByte(s);
    assert b == 4 * (s.mode * 16 + s.gain * 4 + s.hpf * 2 + s.hres) + s.fsamp;
    assert b / 4 == s.mode * 16 + s.gain * 4 + s.hpf * 2 + s.hres;
    assert b / 8 == s.mode * 8 + s.gain * 2 + s.hpf;
    assert b / 16 == s.mode * 4 + s.gain;
  }

  /** Every byte is the slot byte of the fields read back from it. */
  lemma UnpackSlotRoundTrip(b: nat, active: bool)
    requires b < 256
    ensures SlotInRange(UnpackSlot(b, active))
    ensures SlotByte(UnpackSlot(b, active)) == b
  {
    var q4 := b / 4;
    assert b == 4 * q4 + b % 4;
    var q8 := b / 8;
    assert q8 == q4 / 2;
    assert q4 == 2 * q8 + q4 % 2;
    var q16 := b / 16;
    assert q16 == q8 / 2;
    assert q8 == 2 * q16 + q8 % 2;
    assert b / 64 == q16 / 4;
    assert q16 == 4 * (b / 64) + q16 % 4;
  }

  /** Every entry of a byte-sized request's frame fits in a byte. */
  lemma ConfigFrameBytes(r: Request)
    requires ByteSized(r)
    ensures |ConfigFrame(r)| == CONF_LEN
    ensures forall k :: 0 <= k < CONF_LEN ==> ConfigFrame(r)[k] < 256
  {
    HeaderFields(r);
    ActiveMaskLayout(r, 0);
    forall i | 0 <= i < NUM_SLOTS
      ensures SlotByte(r.slots[i]) < 256
    {
      SlotByteRoundTrip(r.slots[i]);
    }
  }

  /** The device's check: the checksum over all fifteen bytes of a configuration frame is 0. */
  lemma ConfigFrameResidue(r: Request)
    requires WellFormed(r)
    ensures Checksum(ConfigFrame(r)) == 0
  {
    ChecksumResidue(ConfigBody(r));
  }

  // ---------------------------------------------------------------------
  // The configuration the three copies hard-code.
  // ---------------------------------------------------------------------

  /**
   * IN_Active = [1,1,1,0,0,0,0,0,0,0], Mode = Gain = HRES = 0, HPF = 1,
   * Fsamp = [1]*8 + [0,0]; FSelAux = 0, AnOutINSource = 2, AnOutChan = 1,
   * AnOutGain = 0b00100000.
   */
  const DEFAULT_REQUEST: Request :=
    Request(
      seq(NUM_SLOTS, i => Slot(i < 3, 0, 0, 1, 0, if i < 8 then 1 else 0)),
      0, 2, 1, 32)

  /** With the hard-coded settings, bytes 0..13 are 128,7,34,1,9 (eight times),8,8. */
  lemma DefaultConfigBody()
    ensures WellFormed(DEFAULT_REQUEST) && ByteSized(DEFAULT_REQUEST)
    ensures ConfigBody(DEFAULT_REQUEST) == [128, 7, 34, 1, 9, 9, 9, 9, 9, 9, 9, 9, 8, 8]
  {
    var body := ConfigBody(DEFAULT_REQUEST);
    var want: seq<nat> := [128, 7, 34, 1, 9, 9, 9, 9, 9, 9, 9, 9, 8, 8];
    DefaultActiveMask();
    assert body[..4] == want[..4];
    forall k | 4 <= k < 14
      ensures body[k] == want[k]
    {
      assert body[k] == SlotByte(DEFAULT_REQUEST.slots[k - 4]);
    }
    assert body == body[..4] + body[4..];
    assert want == want[..4] + want[4..];
  }

  /** With the hard-coded settings, byte 1 is 7: slots 0-2 requested. */
  lemma DefaultActiveMask()
    ensures ActiveMask(DEFAULT_REQUEST.slots[..8]) == 7
  {
    var m := DEFAULT_REQUEST.slots[..8];
    assert m[8..] == [];
    ActiveMaskSuffix(m, 7);
    ActiveMaskSuffix(m, 6);
    ActiveMaskSuffix(m, 5);
    ActiveMaskSuffix(m, 4);
    ActiveMaskSuffix(m, 3);
    assert ActiveMask(m[3..]) == 0;
    ActiveMaskSuffix(m, 2);
    ActiveMaskSuffix(m, 1);
    ActiveMaskSuffix(m, 0);
    assert m[0..] == m;
  }

  /** One step of the mask, taken at position k of the slots. */
  lemma ActiveMaskSuffix(slots: seq<Slot>, k: nat)
    requires k < |slots|
    ensures ActiveMask(slots[k..]) == Bit(slots[k].active) + 2 * ActiveMask(slots[k + 1..])
  {
    assert slots[k..][1..] == slots[k + 1..];
  }

  // ---------------------------------------------------------------------
  // Command and stop frames.
  // ---------------------------------------------------------------------

  const CMD_SETTINGS: nat := 1
  const CMD_FIRMWARE: nat := 2
  const CMD_BATTERY: nat := 3

  /** The three queries as they go on the wire (see CommandFrameBytes). */
  const SETTINGS_QUERY: seq<nat> := [CMD_SETTINGS, 0x5E]
  const FIRMWARE_QUERY: seq<nat> := [CMD_FIRMWARE, 0xBC]
  const BATTERY_QUERY: seq<nat> := [CMD_BATTERY, 0xE2]

  /** [command, CRC8([command], 1)]. */
  function CommandFrame(code: nat): (f: seq<nat>)
    ensures |f| == 2 && f[0] == code && f[1] < 256
  {
    [code, Checksum([code])]
  }

  /** The three command frames on the wire. */
  lemma CommandFrameBytes()
    ensures CommandFrame(CMD_SETTINGS) == SETTINGS_QUERY == [1, 0x5E]
    ensures CommandFrame(CMD_FIRMWARE) == FIRMWARE_QUERY == [2, 0xBC]
    ensures CommandFrame(CMD_BATTERY) == BATTERY_QUERY == [3, 0xE2]
  {
    CommandChecksums();
  }

  /** Every command frame has a zero residue: the device's check passes. */
  lemma CommandFrameResidue(code: nat)
    ensures Checksum(CommandFrame(code)) == 0
  {
    ChecksumResidue([code]);
  }

  /**
   * The stop frame: fifteen zeros, byte 0 (0b00000000) and bytes 1..13
   * left at zero, byte 14 the checksum of the first fourteen.
   */
  method BuildStopFrame() returns (conf: seq<nat>)
    ensures |conf| == CONF_LEN
    ensures forall k :: 0 <= k < CONF_LEN ==> conf[k] == 0
    ensures conf[14] == Checksum(conf[..14])
    ensures conf == StopFrame()
  {
    conf := seq(CONF_LEN, _ => 0);
    conf := conf[0 := 0];
    ChecksumOfZeros(conf[..14]);
    var crc := Crc8(conf, 14);
    conf := conf[14 := crc];
    assert conf[..14] == StopFrame()[..14];
  }

  /** The stop frame as a value: fifteen zero bytes. */
  function StopFrame(): (f: seq<nat>)
    ensures |f| == CONF_LEN
    // bit 7 of byte 0 is clear, which no configuration frame has, and no slot is active
    ensures f[0] < 128 && f[1] == 0
  {
    seq(CONF_LEN, _ => 0)
  }
}
