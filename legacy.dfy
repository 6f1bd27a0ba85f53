/**
 * The `DAQReceiver` thread of old_code/app.py, the copy the current one
 * was derived from.  It sends the configuration frame before querying the
 * settings, reads the reply unguarded (so the slot loop can raise, which
 * ends the thread), stores the geometry only when the loop completes, and
 * keeps reading after a read that returns no bytes; `stop` clears the
 * running flag and sends the stop frame.
 */
module Legacy {
  import opened Crc
  import opened Frames
  import opened Geometry
  import opened Stream
  import Receiver

  /**
   * The `daq_config` entries `connect_daq` stores for the settings `req`
   * and the settings reply: none when the slot loop raises.
   */
  function LegacyConfig(req: Request, reply: seq<byte>): (cfg: Option<DaqConfig>)
    requires Usable(req)
    ensures cfg.Some? <==> FirstFailure(reply) == NUM_SLOTS
    ensures cfg.Some? ==> Consistent(cfg.value) && cfg.value.blockData > 0 && cfg.value.fselAux == req.fselAux
  {
    if FirstFailure(reply) == NUM_SLOTS then
      Some(ConfigOf(Apply(Fresh(req.slots), req.slots, Chans(reply), NUM_SLOTS), req.fselAux))
    else None
  }

  /**
   * Where the old copy gets through the slot loop, it stores exactly the
   * geometry the current copy computes from the same reply.
   */
  lemma LegacyAgreesWithReceiver(req: Request, reply: seq<byte>)
    requires Usable(req) && FirstFailure(reply) == NUM_SLOTS
    ensures LegacyConfig(req, reply) == Some(Receiver.ConfigFor(req, Some(reply)))
  {
    UncheckedAgreesWithGuarded(reply);
    assert Receiver.RequestReply(Some(reply)) == reply;
  }

  /** Reading one sequence of chunks after another is reading their concatenation. */
  lemma {:induction false} JoinedAppend(a: seq<seq<byte>>, b: seq<seq<byte>>)
    ensures Joined(a + b) == Joined(a) + Joined(b)
    decreases |b|
  {
    if b == [] {
      assert a + b == a;
    } else {
      var front, last := b[..|b| - 1], b[|b| - 1];
      assert (a + b)[..|a + b| - 1] == a + front;
      assert (a + b)[|a + b| - 1] == last;
      assert Joined(a + b) == Joined(a + front) + last;
      JoinedAppend(a, front);
      assert Joined(b) == Joined(front) + last;
      assert Joined(a) + Joined(front) + last == Joined(a) + (Joined(front) + last);
    }
  }

  /**
   * On the same reads, the old copy emits every matrix the current copy
   * emits, in the same order, before whatever the reads after the first
   * empty one complete.
   */
  lemma EmitsAtLeastReceiver(chunks: seq<seq<byte>>, cfg: DaqConfig)
    requires Consistent(cfg) && cfg.blockData > 0
    ensures var current := Blocks(Joined(chunks[..FirstEmpty(chunks)]), cfg.blockData);
      var legacy := Blocks(Joined(chunks), cfg.blockData);
      EvenPackets(current) && EvenPackets(legacy) &&
      Emissions(current, cfg) <= Emissions(legacy, cfg)
  {
    var n := cfg.blockData;
    var k := FirstEmpty(chunks);
    var front := Joined(chunks[..k]);
    var back := Joined(chunks[k..]);
    assert chunks == chunks[..k] + chunks[k..];
    JoinedAppend(chunks[..k], chunks[k..]);
    BlocksAppend(front, back, n);
    BlocksEven(front, cfg);
    BlocksEven(Remainder(front, n) + back, cfg);
    EmissionsAppend(Blocks(front, n), Blocks(Remainder(front, n) + back, n), cfg);
  }

  class DaqReceiver {
    /** The settings hard-coded in `connect_daq`. */
    const settings: Request
    var running: bool
    /** `self.tcp_socket` has been set. */
    var hasSocket: bool
    /** `self.daq_config` as far as `connect_daq` fills it. */
    var config: Option<DaqConfig>
    /** Every frame written to the socket, in order. */
    var sent: seq<seq<nat>>
    /** Every matrix passed to `data_received`, in order. */
    var emitted: seq<seq<seq<int>>>

    constructor ()
      ensures settings == DEFAULT_REQUEST && Usable(settings)
      ensures !running && !hasSocket && config == None && sent == [] && emitted == []
    {
      DefaultSlotsOk();
      settings := DEFAULT_REQUEST;
      running := false;
      hasSocket := false;
      config := None;
      sent := [];
      emitted := [];
    }

    /** Sends `[command, CRC8([command], 1)]` and returns the reply unchanged. */
    method SendRequest(command: nat, reply: seq<byte>) returns (response: seq<byte>)
      requires hasSocket
      modifies this`sent
      ensures sent == old(sent) + [CommandFrame(command)]
      ensures response == reply
    {
      var crc := Crc8([command], 1);
      sent := sent + [[command, crc]];
      response := reply;
    }

    /**
     * Builds and sends the configuration frame, then queries the settings
     * and runs the unguarded slot loop on fresh lists; `ok` is false where
     * the loop raises, and then nothing is stored.
     */
    method ConnectDaq(reply: seq<byte>) returns (ok: bool)
      requires Usable(settings)
      modifies this`hasSocket, this`sent, this`config
      ensures hasSocket
      ensures sent == old(sent) + [ConfigFrame(settings)] + [CommandFrame(CMD_SETTINGS)]
      ensures ok <==> FirstFailure(reply) == NUM_SLOTS
      ensures config == if ok then LegacyConfig(settings, reply) else old(config)
    {
      var conf := BuildConfString(settings);
      hasSocket := true;
      sent := sent + [conf];
      var response := SendRequest(CMD_SETTINGS, reply);
      var t, numActInputs, done := UncheckedGeometry(settings.slots, response, Fresh(settings.slots));
      if !done {
        return false;
      }
      config := Some(ConfigOf(t, settings.fselAux));
      ok := true;
    }

    /**
     * The thread body: connect; when the slot loop raised, the thread ends
     * there; otherwise read every chunk (an empty one adds nothing and
     * does not stop the loop; the given reads running out stands for
     * `stop()`), emitting the aux matrix of each whole block.  Nothing is
     * sent after the loop.
     */
    method Run(reply: seq<byte>, chunks: seq<seq<byte>>)
      requires Usable(settings)
      modifies this
      ensures running && hasSocket
      ensures sent == old(sent) + [ConfigFrame(settings)] + [CommandFrame(CMD_SETTINGS)]
      ensures config == if FirstFailure(reply) == NUM_SLOTS then LegacyConfig(settings, reply) else old(config)
      ensures FirstFailure(reply) < NUM_SLOTS ==> emitted == old(emitted)
      ensures FirstFailure(reply) == NUM_SLOTS ==>
        var cfg := LegacyConfig(settings, reply).value; var ps := Blocks(Joined(chunks), cfg.blockData);
        EvenPackets(ps) && emitted == old(emitted) + Emissions(ps, cfg)
    {
      running := true;
      var ok := ConnectDaq(reply);
      if !ok {
        return;
      }
      Receive(chunks, config.value);
    }

    /** The read loop of `run`, over every read until the thread is stopped. */
    method Receive(chunks: seq<seq<byte>>, cfg: DaqConfig)
      requires running && Consistent(cfg) && cfg.blockData > 0
      modifies this`emitted
      ensures var ps := Blocks(Joined(chunks), cfg.blockData);
        EvenPackets(ps) && emitted == old(emitted) + Emissions(ps, cfg)
    {
      var buffer: seq<byte> := [];
      var i := 0;
      while running && i < |chunks|
        invariant i <= |chunks|
        invariant buffer == Remainder(Joined(chunks[..i]), cfg.blockData)
        invariant EvenPackets(Blocks(Joined(chunks[..i]), cfg.blockData))
        invariant emitted == old(emitted) + Emissions(Blocks(Joined(chunks[..i]), cfg.blockData), cfg)
        decreases |chunks| - i
      {
        JoinedPrefix(chunks, i);
        buffer := Feed(buffer, chunks[i], cfg, Joined(chunks[..i]), old(emitted));
        i := i + 1;
      }
      assert chunks[..i] == chunks;
    }

    /** `buffer += chunk`, then every whole block cut off and its aux matrix emitted. */
    method Feed(buffer: seq<byte>, chunk: seq<byte>, cfg: DaqConfig, ghost read: seq<byte>, ghost emitted0: seq<seq<seq<int>>>)
      returns (rest: seq<byte>)
      requires Consistent(cfg) && cfg.blockData > 0
      requires buffer == Remainder(read, cfg.blockData) && EvenPackets(Blocks(read, cfg.blockData))
      requires emitted == emitted0 + Emissions(Blocks(read, cfg.blockData), cfg)
      modifies this`emitted
      ensures rest == Remainder(read + chunk, cfg.blockData)
      ensures EvenPackets(Blocks(read + chunk, cfg.blockData))
      ensures emitted == emitted0 + Emissions(Blocks(read + chunk, cfg.blockData), cfg)
    {
      var packets;
      packets, rest := Reassemble(buffer, chunk, cfg.blockData);
      BlocksAppend(read, chunk, cfg.blockData);
      BlocksEven(buffer + chunk, cfg);
      EmissionsAppend(Blocks(read, cfg.blockData), packets, cfg);
      EmitAll(packets, cfg);
    }

    /** Decodes each packet and emits its aux matrix, in order. */
    method EmitAll(packets: seq<seq<byte>>, cfg: DaqConfig)
      requires Consistent(cfg) && EvenPackets(packets)
      modifies this`emitted
      ensures emitted == old(emitted) + Emissions(packets, cfg)
    {
      var j := 0;
      while j < |packets|
        invariant j <= |packets|
        invariant emitted == old(emitted) + Emissions(packets[..j], cfg)
      {
        var packet := packets[j];
        var temp := Samples(packet);
        if |temp| == cfg.packetSize * BLOCK_COLS {
          var data := ReshapeF(temp, cfg.packetSize, BLOCK_COLS);
          emitted := emitted + [AuxMatrix(data, cfg.ptrIn[NUM_SLOTS], cfg.fselAux)];
        }
        EmissionsSnoc(packets[..j], packet, cfg);
        assert packets[..j + 1] == packets[..j] + [packet];
        j := j + 1;
      }
      assert packets[..j] == packets;
    }

    /** Clears the running flag and, if a socket was opened, sends the all-zero stop frame. */
    method Stop()
      modifies this`running, this`sent
      ensures !running
      ensures sent == old(sent) + (if hasSocket then [StopFrame()] else [])
    {
      running := false;
      if hasSocket {
        var conf := BuildStopFrame();
        sent := sent + [conf];
      }
    }
  }
}
