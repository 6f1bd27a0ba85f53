/**
 * The protocol part of `MainWindow` in new_app.py: the connection
 * handshake of `connect_novecento`, run on the module-global slot tables;
 * the `receive_data` thread body; the aux extraction of
 * `update_realtime_data`; and the stop frame of `closeEvent`.  Replies to
 * `recv(20)` are given as byte sequences, the reads of the receive thread
 * as a sequence of chunks, and every frame written to the socket is logged
 * in `sent`.
 */
module Novecento {
  import opened Crc
  import opened Frames
  import opened Geometry
  import opened Stream

  /** `self.tcp_socket`: never created, created but not connected, or connected. */
  datatype Socket = NoSocket | Unconnected | Open

  /** The status label: before any attempt, after a successful one, after one that raised. */
  datatype Status = Disconnected | Connected | Failed

  /** The settings with each slot's requested flag taken from the IN_Active list `active`. */
  function WithActive(req: Request, active: seq<bool>): (r: Request)
    requires WellFormed(req) && |active| == NUM_SLOTS
    ensures WellFormed(r)
  {
    req.(slots := seq(NUM_SLOTS, i requires 0 <= i < NUM_SLOTS => req.slots[i].(active := active[i])))
  }

  /**
   * The frames `connect_novecento` writes before it gets past the settings
   * query or raises: the firmware and battery queries, then (unless the
   * battery reply has no byte 1) the settings query, then (unless the
   * settings reply has no byte 19) the configuration frame `conf` and a
   * second settings query.
   */
  function HandshakeFrames(conf: seq<nat>, battery: seq<byte>, settings: seq<byte>): (frames: seq<seq<nat>>)
    ensures |frames| == (if |battery| < 2 then 2 else if |settings| < 20 then 3 else 5)
  {
    var queries := [FIRMWARE_QUERY] + [BATTERY_QUERY];
    if |battery| < 2 then queries
    else
      var asked := queries + [SETTINGS_QUERY];
      if |settings| < 20 then asked
      else asked + [conf] + [SETTINGS_QUERY]
  }

  /** A battery reply without byte 1 stops the handshake after [2, 0xBC] and [3, 0xE2]. */
  lemma HandshakeShortBattery(conf: seq<nat>, battery: seq<byte>, settings: seq<byte>)
    requires |battery| < 2
    ensures HandshakeFrames(conf, battery, settings) == [[2, 0xBC], [3, 0xE2]]
    ensures HandshakeFrames(conf, battery, settings) == [CommandFrame(CMD_FIRMWARE), CommandFrame(CMD_BATTERY)]
  {
    CommandFrameBytes();
  }

  /** A settings reply without byte 19 stops it after the settings query [1, 0x5E]. */
  lemma HandshakeShortSettings(conf: seq<nat>, battery: seq<byte>, settings: seq<byte>)
    requires |battery| >= 2 && |settings| < 20
    ensures HandshakeFrames(conf, battery, settings) == [[2, 0xBC], [3, 0xE2], [1, 0x5E]]
    ensures HandshakeFrames(conf, battery, settings) ==
      [CommandFrame(CMD_FIRMWARE), CommandFrame(CMD_BATTERY), CommandFrame(CMD_SETTINGS)]
  {
    CommandFrameBytes();
  }

  /**
   * A full handshake is the five frames [2, 0xBC], [3, 0xE2], [1, 0x5E],
   * the configuration frame and [1, 0x5E].
   */
  lemma HandshakeFull(conf: seq<nat>, battery: seq<byte>, settings: seq<byte>)
    requires |battery| >= 2 && |settings| >= 20
    ensures HandshakeFrames(conf, battery, settings) == [[2, 0xBC], [3, 0xE2], [1, 0x5E], conf, [1, 0x5E]]
    ensures HandshakeFrames(conf, battery, settings) ==
      [CommandFrame(CMD_FIRMWARE), CommandFrame(CMD_BATTERY), CommandFrame(CMD_SETTINGS), conf, CommandFrame(CMD_SETTINGS)]
  {
    var asked := [FIRMWARE_QUERY] + [BATTERY_QUERY] + [SETTINGS_QUERY];
    assert HandshakeFrames(conf, battery, settings) == asked + [conf] + [SETTINGS_QUERY];
    assert asked + [conf] + [SETTINGS_QUERY] == [FIRMWARE_QUERY, BATTERY_QUERY, SETTINGS_QUERY, conf, SETTINGS_QUERY];
    CommandFrameBytes();
  }

  /** Proof scaffolding: regroups the appends of the handshake. */
  lemma Associative<T>(a: seq<T>, b: seq<T>, c: seq<T>)
    ensures a + b + c == a + (b + c)
  {
  }

  /** The tables the slot loop starts from: Size_IN cleared and Ptr_IN[0] = 0. */
  function Restart(t: Tables): (t': Tables)
    requires Shaped(t)
    ensures Shaped(t') && Cleared(t')
    ensures t'.active == t.active && t'.numChan == t.numChan
  {
    t.(sizeIn := seq(NUM_SLOTS + 1, _ => 0), ptrIn := t.ptrIn[0 := 0])
  }

  /** The module-global tables after the slot loop of one connection attempt on `reply`. */
  function Attempt(t0: Tables, slots: seq<Slot>, reply: seq<nat>): (t: Tables)
    requires Shaped(t0) && SlotsOk(slots)
    ensures Shaped(t)
  {
    Apply(Restart(t0), slots, Chans(reply), FirstFailure(reply))
  }

  /**
   * After an attempt that gets through every slot, a slot that is not
   * active contributes size 0, Ptr_IN is non-decreasing, and Ptr_IN[10]
   * is the sum of the sizes of the slots that were requested and report
   * channels, whatever earlier attempts left in the tables.
   */
  lemma AttemptSizes(t0: Tables, slots: seq<Slot>, reply: seq<nat>)
    requires Shaped(t0) && SlotsOk(slots) && FirstFailure(reply) == NUM_SLOTS
    ensures var t := Attempt(t0, slots, reply);
      t.ptrIn[0] == 0 &&
      (forall j :: 0 <= j < NUM_SLOTS ==> !t.active[j] ==> t.sizeIn[j] == 0) &&
      (forall i, j :: 0 <= i <= j <= NUM_SLOTS ==> t.ptrIn[i] <= t.ptrIn[j]) &&
      t.ptrIn[NUM_SLOTS] == TotalSize(t0.active, slots, Chans(reply), NUM_SLOTS)
  {
    var t0' := Restart(t0);
    ClearedGeometry(t0', slots, Chans(reply), NUM_SLOTS);
    forall i, j | 0 <= i <= j <= NUM_SLOTS
      ensures Attempt(t0, slots, reply).ptrIn[i] <= Attempt(t0, slots, reply).ptrIn[j]
    {
      PtrNonDecreasing(t0', slots, Chans(reply), i, j);
    }
  }

  /**
   * The slot loop as new_app.py writes it: only Ptr_IN[0] is reset, so a
   * slot that is not active keeps the Size_IN an earlier attempt gave it.
   */
  function AttemptAsWritten(t0: Tables, slots: seq<Slot>, reply: seq<nat>): (t: Tables)
    requires Shaped(t0) && SlotsOk(slots)
    ensures Shaped(t)
  {
    Apply(t0.(ptrIn := t0.ptrIn[0 := 0]), slots, Chans(reply), FirstFailure(reply))
  }

  /**
   * As written, an attempt whose reply is readable throughout but reports
   * no channels leaves every slot inactive, yet keeps every Size_IN an
   * earlier attempt left, so Ptr_IN still adds them up.
   */
  lemma StaleSizesKept(t0: Tables, slots: seq<Slot>, reply: seq<nat>)
    requires Shaped(t0) && SlotsOk(slots) && FirstFailure(reply) == NUM_SLOTS
    requires forall j :: 0 <= j < NUM_SLOTS ==> Chans(reply)[j] == 0
    ensures var t := AttemptAsWritten(t0, slots, reply);
      t.ptrIn[0] == 0 &&
      forall j :: 0 <= j < NUM_SLOTS ==> !t.active[j] && t.sizeIn[j] == t0.sizeIn[j] && Linked(t, j)
  {
    var s := t0.(ptrIn := t0.ptrIn[0 := 0]);
    ApplyFacts(s, slots, Chans(reply), NUM_SLOTS);
    ApplyUntouched(s, slots, Chans(reply), NUM_SLOTS);
    ApplyPrefixSums(s, slots, Chans(reply), NUM_SLOTS);
  }

  /** A settings reply whose slots 0-2 report type 1 (14 channels) and slot 3 the code 16. */
  const FIRST_REPLY: seq<nat> := [0, 1, 1, 1, 16] + seq(15, _ => 0)

  /** The unguarded loop raises at slot 3 of FIRST_REPLY, after reading 14 channels for slots 0-2. */
  lemma FirstReplyFacts()
    ensures FirstFailure(FIRST_REPLY) == 3
    ensures Chans(FIRST_REPLY)[0] == 14 && Chans(FIRST_REPLY)[1] == 14 && Chans(FIRST_REPLY)[2] == 14
  {
    assert Readable(FIRST_REPLY, 0) && Readable(FIRST_REPLY, 1) && Readable(FIRST_REPLY, 2);
    assert !Readable(FIRST_REPLY, 3);
  }

  /** Twenty zero bytes can be read for every slot and report no channels. */
  lemma ZeroReplyFacts()
    ensures FirstFailure(FailedReply()) == NUM_SLOTS
    ensures forall j :: 0 <= j < NUM_SLOTS ==> Chans(FailedReply())[j] == 0
  {
    assert forall i :: 0 <= i < NUM_SLOTS ==> Readable(FailedReply(), i);
  }

  /** With the hard-coded settings, the attempt on FIRST_REPLY gives slots 0-2 size 56 and the rest 0. */
  lemma FirstAttemptSizes()
    ensures var slots := DEFAULT_REQUEST.slots;
      SlotsOk(slots) &&
      var t1 := AttemptAsWritten(Fresh(slots), slots, FIRST_REPLY);
      t1.sizeIn[0] == 56 && t1.sizeIn[1] == 56 && t1.sizeIn[2] == 56 &&
      forall j :: 3 <= j < NUM_SLOTS ==> t1.sizeIn[j] == 0
  {
    var slots := DEFAULT_REQUEST.slots;
    DefaultSlotsOk();
    FirstReplyFacts();
    FreshIsCleared(slots);
    var f := Fresh(slots);
    var s := f.(ptrIn := f.ptrIn[0 := 0]);
    var chans := Chans(FIRST_REPLY);
    var t1 := Apply(s, slots, chans, 3);
    assert t1 == AttemptAsWritten(f, slots, FIRST_REPLY);
    ApplyFacts(s, slots, chans, 3);
    ApplyUntouched(s, slots, chans, 3);
    forall j | 0 <= j < 3
      ensures t1.sizeIn[j] == 56
    {
      assert slots[j].active && slots[j].hres == 0 && slots[j].fsamp == 1;
      assert Survives(s, chans, j);
      assert SlotSize(slots[j], 14) == 56;
    }
    forall j | 3 <= j < NUM_SLOTS
      ensures t1.sizeIn[j] == 0
    {
      assert t1.sizeIn[j] == s.sizeIn[j] == f.sizeIn[j];
    }
  }

  /**
   * With the hard-coded settings, a first attempt that raises at slot 3
   * gives slots 0-2 size 56 each; a second attempt whose reply reports no
   * channels at all makes every slot inactive, yet as written Ptr_IN[10]
   * is 168, while the corrected loop gives 0.
   */
  lemma StaleSizeCounterexample()
    ensures var slots := DEFAULT_REQUEST.slots;
      SlotsOk(slots) &&
      FirstFailure(FIRST_REPLY) == 3 && FirstFailure(FailedReply()) == NUM_SLOTS &&
      var t1 := AttemptAsWritten(Fresh(slots), slots, FIRST_REPLY);
      var t2 := AttemptAsWritten(t1, slots, FailedReply());
      (forall j :: 0 <= j < NUM_SLOTS ==> !t2.active[j]) &&
      t2.ptrIn[NUM_SLOTS] == 168 &&
      Attempt(t1, slots, FailedReply()).ptrIn[NUM_SLOTS] == 0
  {
    var slots := DEFAULT_REQUEST.slots;
    DefaultSlotsOk();
    FirstReplyFacts();
    ZeroReplyFacts();
    FirstAttemptSizes();
    var t1 := AttemptAsWritten(Fresh(slots), slots, FIRST_REPLY);
    StaleSizesKept(t1, slots, FailedReply());
    var t2 := AttemptAsWritten(t1, slots, FailedReply());
    StaleSum(t2);
    var t0 := Restart(t1);
    NoChannelsNoSlots(t0, slots, Chans(FailedReply()));
    assert Attempt(t1, slots, FailedReply()) == Apply(t0, slots, Chans(FailedReply()), NUM_SLOTS);
  }

  /** Pointers chained over sizes 56, 56, 56 and then zeros from Ptr_IN[0] = 0 end at 168. */
  lemma StaleSum(t: Tables)
    requires Shaped(t) && t.ptrIn[0] == 0
    requires forall j :: 0 <= j < NUM_SLOTS ==> Linked(t, j)
    requires t.sizeIn[0] == 56 && t.sizeIn[1] == 56 && t.sizeIn[2] == 56
    requires forall j :: 3 <= j < NUM_SLOTS ==> t.sizeIn[j] == 0
    ensures t.ptrIn[NUM_SLOTS] == 168
  {
    assert Linked(t, 0) && Linked(t, 1) && Linked(t, 2);
    var i := 3;
    while i < NUM_SLOTS
      invariant 3 <= i <= NUM_SLOTS && t.ptrIn[i] == 168
    {
      assert Linked(t, i);
      i := i + 1;
    }
  }

  class MainWindow {
    /**
     * Mode, Gain, HPF, HRES and Fsamp of each slot, FSelAux and the AnOut
     * bytes, as new_app.py hard-codes them; the slots' requested flags are
     * the initial IN_Active list.
     */
    const settings: Request
    /** The module-global lists IN_Active, NumChan, Size_IN and Ptr_IN. */
    var tables: Tables
    var socket: Socket
    var status: Status
    /** `self.PacketSize1Block` and `self.blockData`. */
    var packetSize: nat
    var blockData: nat
    /** `self.Data`: the latest decoded block, and `self.Temp`: the samples of the latest block read. */
    var data: Option<seq<seq<int>>>
    var temp: Option<seq<int>>
    /** `self.terminate_thread` is set. */
    var terminated: bool
    /** Every frame written to the socket, in order. */
    var sent: seq<seq<nat>>

    /**
     * The settings index every table; once connected, the block geometry
     * follows from the current Ptr_IN[10]; `Data` only ever holds a block
     * of that geometry.
     */
    predicate Valid()
      reads this
    {
      Usable(settings) && Shaped(tables) &&
      (status == Connected ==>
        socket == Open &&
        packetSize == PacketSize(tables.ptrIn[NUM_SLOTS], settings.fselAux) &&
        blockData == BlockData(packetSize)) &&
      (data.Some? ==> status == Connected && IsMatrix(data.value, packetSize, BLOCK_COLS))
    }

    /** The window before any connection: the module globals as initialised, nothing received. */
    constructor ()
      ensures Valid() && settings == DEFAULT_REQUEST && tables == Fresh(DEFAULT_REQUEST.slots)
      ensures socket == NoSocket && status == Disconnected && data == None && temp == None
      ensures sent == [] && !terminated
    {
      DefaultSlotsOk();
      settings := DEFAULT_REQUEST;
      tables := Fresh(DEFAULT_REQUEST.slots);
      socket := NoSocket;
      status := Disconnected;
      packetSize := 0;
      blockData := 0;
      data := None;
      temp := None;
      terminated := false;
      sent := [];
    }

    /** Writes `[code, CRC8([code], 1)]`. */
    method SendCommand(code: nat)
      modifies this`sent
      ensures sent == old(sent) + [CommandFrame(code)]
    {
      var crc := Crc8([code], 1);
      sent := sent + [[code, crc]];
    }

    /**
     * The queries and the configuration frame of `connect_novecento`,
     * built from the current IN_Active list; `ok` is false where reading
     * `battery_level[1]` or `settings[19]` raises.
     */
    method Handshake(req: Request, battery: seq<byte>, settings1: seq<byte>) returns (ok: bool)
      requires WellFormed(req)
      modifies this`sent
      ensures ok <==> |battery| >= 2 && |settings1| >= 20
      ensures sent == old(sent) + HandshakeFrames(ConfigFrame(req), battery, settings1)
    {
      CommandFrameBytes();
      ghost var sent0 := sent;
      SendCommand(CMD_FIRMWARE);
      SendCommand(CMD_BATTERY);
      ghost var queries := [CommandFrame(CMD_FIRMWARE)] + [CommandFrame(CMD_BATTERY)];
      Associative(sent0, [CommandFrame(CMD_FIRMWARE)], [CommandFrame(CMD_BATTERY)]);
      if |battery| < 2 {
        return false;
      }
      SendCommand(CMD_SETTINGS);
      ghost var asked := queries + [CommandFrame(CMD_SETTINGS)];
      Associative(sent0, queries, [CommandFrame(CMD_SETTINGS)]);
      if |settings1| < 20 {
        return false;
      }
      SendConfig(req);
      Associative(sent0, asked, [ConfigFrame(req)]);
      Associative(sent0, asked + [ConfigFrame(req)], [CommandFrame(CMD_SETTINGS)]);
      ok := true;
    }

    /** Writes the configuration frame of `req`, then queries the settings again. */
    method SendConfig(req: Request)
      requires WellFormed(req)
      modifies this`sent
      ensures sent == old(sent) + [ConfigFrame(req)] + [CommandFrame(CMD_SETTINGS)]
    {
      var conf := BuildConfString(req);
      sent := sent + [conf];
      SendCommand(CMD_SETTINGS);
    }

    /**
     * `connect_novecento`: connect, run the handshake, then the slot loop
     * on the second settings reply over the module-global tables, which
     * keep whatever the loop wrote even when it raises; only a loop that
     * gets through every slot sets the block geometry and starts
     * receiving.  Only Ptr_IN[0] is reset before the loop, so Size_IN keeps
     * what an earlier attempt wrote for a slot that is now inactive (see
     * StaleSizeCounterexample).
     */
    method ConnectNovecento(reachable: bool, battery: seq<byte>, settings1: seq<byte>, settings2: seq<byte>)
      requires Valid() && status != Connected
      modifies this`socket, this`sent, this`tables, this`status, this`packetSize, this`blockData, this`terminated
      ensures Valid()
      ensures socket == (if reachable then Open else Unconnected)
      ensures sent == old(sent) +
        (if reachable then HandshakeFrames(ConfigFrame(WithActive(settings, old(tables).active)), battery, settings1) else [])
      ensures var reached := reachable && |battery| >= 2 && |settings1| >= 20;
        tables == (if reached then AttemptAsWritten(old(tables), settings.slots, settings2) else old(tables)) &&
        (status == Connected <==> reached && FirstFailure(settings2) == NUM_SLOTS)
      ensures status == Connected || status == Failed
      ensures status == Connected ==> !terminated
      ensures status == Failed ==> packetSize == old(packetSize) && blockData == old(blockData) && terminated == old(terminated)
      ensures data == None && temp == old(temp)
    {
      if reachable {
        socket := Open;
        Negotiate(battery, settings1, settings2);
      } else {
        socket := Unconnected;
        status := Failed;
      }
    }

    /**
     * What `connect_novecento` does on a connected socket: the handshake
     * from the current IN_Active list, then, unless reading a reply
     * raised, the slot loop.
     */
    method Negotiate(battery: seq<byte>, settings1: seq<byte>, settings2: seq<byte>)
      requires Usable(settings) && Shaped(tables) && socket == Open && data == None
      modifies this`sent, this`tables, this`status, this`packetSize, this`blockData, this`terminated
      ensures Valid()
      ensures sent == old(sent) + HandshakeFrames(ConfigFrame(WithActive(settings, old(tables).active)), battery, settings1)
      ensures var reached := |battery| >= 2 && |settings1| >= 20;
        tables == (if reached then AttemptAsWritten(old(tables), settings.slots, settings2) else old(tables)) &&
        status == (if reached && FirstFailure(settings2) == NUM_SLOTS then Connected else Failed)
      ensures status == Connected ==> !terminated
      ensures status == Failed ==> packetSize == old(packetSize) && blockData == old(blockData) && terminated == old(terminated)
    {
      var ok := Handshake(WithActive(settings, tables.active), battery, settings1);
      if !ok {
        status := Failed;
        return;
      }
      ComputePacketSize(settings2);
    }

    /**
     * The slot loop of `connect_novecento` on the second settings reply,
     * then, when it gets through every slot, the block geometry and the
     * start of receiving.
     */
    method ComputePacketSize(reply: seq<byte>)
      requires Usable(settings) && Shaped(tables) && socket == Open && data == None
      modifies this`tables, this`status, this`packetSize, this`blockData, this`terminated
      ensures Valid()
      ensures tables == AttemptAsWritten(old(tables), settings.slots, reply)
      ensures status == (if FirstFailure(reply) == NUM_SLOTS then Connected else Failed)
      ensures status == Connected ==> !terminated
      ensures status == Failed ==> packetSize == old(packetSize) && blockData == old(blockData) && terminated == old(terminated)
    {
      var t, numActInputs, done := UncheckedGeometry(settings.slots, reply, tables.(ptrIn := tables.ptrIn[0 := 0]));
      tables := t;
      if !done {
        status := Failed;
        return;
      }
      BlockSizes(t.ptrIn[NUM_SLOTS], settings.fselAux);
      packetSize := PacketSize(t.ptrIn[NUM_SLOTS], settings.fselAux);
      blockData := packetSize * BLOCK_COLS * PLOT_TIME * 2;
      terminated := false;
      status := Connected;
    }

    /** The stored geometry as one record. */
    function Config(): (cfg: DaqConfig)
      requires Valid() && status == Connected
      reads this
      ensures Consistent(cfg) && cfg.blockData > 0
    {
      BlockSizes(tables.ptrIn[NUM_SLOTS], settings.fselAux);
      DaqConfig(tables.ptrIn, packetSize, blockData, settings.fselAux)
    }

    /**
     * The `receive_data` thread over the given reads (their running out
     * stands for `closeEvent` setting the terminate event; an empty read
     * does not end it): `Data` ends as the latest block that passes the
     * length check, `Temp` as the samples of the latest block.
     */
    method ReceiveData(chunks: seq<seq<byte>>)
      requires Valid() && status == Connected
      modifies this`data, this`temp
      ensures Valid()
      ensures var ps := Blocks(Joined(chunks), blockData);
        EvenPackets(ps) &&
        data == Latest(ps, packetSize, old(data)) &&
        temp == LastSamples(ps, old(temp)) &&
        (ps != [] ==> data.Some? && data == DecodeBlock(ps[|ps| - 1], packetSize))
    {
      var buffer: seq<byte> := [];
      var i := 0;
      while i < |chunks|
        invariant i <= |chunks| && Valid()
        invariant buffer == Remainder(Joined(chunks[..i]), blockData)
        invariant EvenPackets(Blocks(Joined(chunks[..i]), blockData))
        invariant data == Latest(Blocks(Joined(chunks[..i]), blockData), packetSize, old(data))
        invariant temp == LastSamples(Blocks(Joined(chunks[..i]), blockData), old(temp))
      {
        JoinedPrefix(chunks, i);
        buffer := Take(buffer, chunks[i], Joined(chunks[..i]), old(data), old(temp));
        i := i + 1;
      }
      assert chunks[..i] == chunks;
      LatestOfStream(Joined(chunks), Config(), old(data));
    }

    /** One read: `buffer += chunk`, then every whole block cut off and decoded. */
    method Take(buffer: seq<byte>, chunk: seq<byte>, ghost read: seq<byte>,
                ghost data0: Option<seq<seq<int>>>, ghost temp0: Option<seq<int>>)
      returns (rest: seq<byte>)
      requires Valid() && status == Connected
      requires buffer == Remainder(read, blockData) && EvenPackets(Blocks(read, blockData))
      requires data == Latest(Blocks(read, blockData), packetSize, data0)
      requires temp == LastSamples(Blocks(read, blockData), temp0)
      modifies this`data, this`temp
      ensures Valid()
      ensures rest == Remainder(read + chunk, blockData) && |rest| < blockData
      ensures EvenPackets(Blocks(read + chunk, blockData))
      ensures data == Latest(Blocks(read + chunk, blockData), packetSize, data0)
      ensures temp == LastSamples(Blocks(read + chunk, blockData), temp0)
    {
      var packets;
      packets, rest := Reassemble(buffer, chunk, blockData);
      BlocksAppend(read, chunk, blockData);
      BlocksEven(buffer + chunk, Config());
      LatestAppend(Blocks(read, blockData), packets, packetSize, data0);
      Decode(packets);
    }

    /** The decode step for each block cut off, in order. */
    method Decode(packets: seq<seq<byte>>)
      requires Valid() && status == Connected && EvenPackets(packets)
      modifies this`data, this`temp
      ensures Valid()
      ensures data == Latest(packets, packetSize, old(data))
      ensures temp == LastSamples(packets, old(temp))
    {
      var j := 0;
      while j < |packets|
        invariant j <= |packets| && Valid()
        invariant data == Latest(packets[..j], packetSize, old(data))
        invariant temp == LastSamples(packets[..j], old(temp))
      {
        var packet := packets[j];
        LatestSnoc(packets[..j], packet, packetSize, old(data));
        assert packets[..j + 1] == packets[..j] + [packet];
        var samples := Samples(packet);
        temp := Some(samples);
        if |samples| == packetSize * BLOCK_COLS {
          data := Some(ReshapeF(samples, packetSize, BLOCK_COLS));
        }
        j := j + 1;
      }
      assert packets[..j] == packets;
    }

    /**
     * The aux extraction of `update_realtime_data`: nothing while no block
     * has arrived or no animation runs; otherwise the 16 aux rows of the
     * latest block, which with FSelAux = 0 are rows Ptr_IN[10] .. +16 of
     * it unchanged.
     */
    method UpdateRealtimeData(animating: bool) returns (aux: Option<seq<seq<int>>>)
      requires Valid()
      ensures aux.Some? <==> data.Some? && animating
      ensures aux.Some? ==> IsMatrix(aux.value, 16, AuxCols(settings.fselAux))
      ensures aux.Some? && settings.fselAux == 0 ==>
        aux.value == data.value[tables.ptrIn[NUM_SLOTS] .. tables.ptrIn[NUM_SLOTS] + 16]
    {
      if data.None? || !animating {
        return None;
      }
      aux := AuxOf(data.value, tables.ptrIn[NUM_SLOTS], settings.fselAux);
      if settings.fselAux == 0 {
        AuxRowsDefault(data.value, tables.ptrIn[NUM_SLOTS]);
      }
    }

    /**
     * `closeEvent`: with a socket, set the terminate event and write the
     * all-zero stop frame, a write that raises, silently, on a socket that
     * never connected.
     */
    method CloseEvent()
      modifies this`terminated, this`sent
      ensures terminated == (old(terminated) || socket != NoSocket)
      ensures sent == old(sent) + (if socket == Open then [StopFrame()] else [])
    {
      if socket != NoSocket {
        terminated := true;
        if socket == Open {
          var conf := BuildStopFrame();
          sent := sent + [conf];
        }
      }
    }
  }
}
