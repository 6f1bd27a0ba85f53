/**
 * The `DAQReceiver` thread of utils/daq_receiver.py, the copy the
 * application uses.  Socket reads are given as the successive results of
 * `recv`; the frames written to the socket are logged in `sent`, and the
 * aux matrices passed to `data_received` in `emitted`.
 */
module Receiver {
  import opened Crc
  import opened Frames
  import opened Geometry
  import opened Stream

  /**
   * What `send_request` returns: the bytes `recv(20)` read, or twenty zero
   * bytes when the exchange raised (`None`).
   */
  function RequestReply(reply: Option<seq<byte>>): (r: seq<nat>)
    ensures reply.None? ==> r == FailedReply()
  {
    if reply.Some? then reply.value else FailedReply()
  }

  /** The `daq_config` entries `connect_daq` stores for the settings `req` and the given reply. */
  function ConfigFor(req: Request, reply: Option<seq<byte>>): (cfg: DaqConfig)
    requires Usable(req)
    ensures Consistent(cfg) && cfg.blockData > 0 && cfg.fselAux == req.fselAux
  {
    ConfigOf(Apply(Fresh(req.slots), req.slots, Chans(GuardedReply(RequestReply(reply))), NUM_SLOTS),
             req.fselAux)
  }

  class DaqReceiver {
    /** The settings hard-coded in `connect_daq`: IN_Active, Mode, Gain, HPF, HRES, Fsamp, FSelAux, AnOut*. */
    const settings: Request
    var running: bool
    /** `self.tcp_socket` has been set. */
    var hasSocket: bool
    /** `self.daq_config`; `None` until `connect_daq` has filled it. */
    var config: Option<DaqConfig>
    /** Every frame written to the socket, in order. */
    var sent: seq<seq<nat>>
    /** Every matrix passed to `data_received`, in order. */
    var emitted: seq<seq<seq<int>>>

    constructor ()
      ensures settings == DEFAULT_REQUEST && Usable(settings)
      ensures !running && !hasSocket && config == None && sent == [] && emitted == []
    {
      DefaultSlotsOk();
      settings := DEFAULT_REQUEST;
      running := false;
      hasSocket := false;
      config := None;
      sent := [];
      emitted := [];
    }

    /**
     * Sends `[command, CRC8([command], 1)]` and returns the reply; any
     * failure, including a missing socket, yields twenty zero bytes.
     */
    method SendRequest(command: nat, reply: Option<seq<byte>>) returns (response: seq<nat>)
      modifies this`sent
      ensures sent == old(sent) + (if hasSocket then [CommandFrame(command)] else [])
      ensures response == (if hasSocket then RequestReply(reply) else FailedReply())
    {
      if !hasSocket {
        return FailedReply();
      }
      var crc := Crc8([command], 1);
      sent := sent + [[command, crc]];
      response := if reply.Some? then reply.value else seq(20, _ => 0);
    }

    /**
     * Builds and sends the configuration frame of the hard-coded settings,
     * queries the settings, and stores the packet geometry computed from
     * the guarded reply.
     */
    method ConnectDaq(reply: Option<seq<byte>>)
      requires Usable(settings)
      modifies this`hasSocket, this`sent, this`config
      ensures hasSocket
      ensures sent == old(sent) + [ConfigFrame(settings)] + [CommandFrame(CMD_SETTINGS)]
      ensures config == Some(ConfigFor(settings, reply))
    {
      var conf := BuildConfString(settings);
      hasSocket := true;
      sent := sent + [conf];
      var cfg := QuerySettings(reply);
      config := Some(cfg);
    }

    /** The settings query of `connect_daq` and the geometry computed from its guarded reply. */
    method QuerySettings(reply: Option<seq<byte>>) returns (cfg: DaqConfig)
      requires Usable(settings) && hasSocket
      modifies this`sent
      ensures sent == old(sent) + [CommandFrame(CMD_SETTINGS)]
      ensures cfg == ConfigFor(settings, reply)
    {
      var response := SendRequest(CMD_SETTINGS, reply);
      var t := GuardedGeometry(settings.slots, response);
      cfg := ConfigOf(t, settings.fselAux);
    }

    /**
     * The thread body: connect, then read until a read returns no bytes
     * (the given reads running out stands for `stop()`), cutting whole
     * blocks off the buffer and emitting the aux matrix of each; finally
     * `disconnect`.  The matrices emitted are those of the whole blocks of
     * the bytes read, in order, whatever the read boundaries.
     */
    method Run(reply: Option<seq<byte>>, chunks: seq<seq<byte>>)
      requires Usable(settings)
      modifies this
      ensures running && hasSocket && config == Some(ConfigFor(settings, reply))
      ensures var cfg := ConfigFor(settings, reply); var ps := Blocks(Joined(chunks[..FirstEmpty(chunks)]), cfg.blockData);
        EvenPackets(ps) && emitted == old(emitted) + Emissions(ps, cfg)
      ensures sent == old(sent) + [ConfigFrame(settings)] + [CommandFrame(CMD_SETTINGS)] + [StopFrame()]
    {
      running := true;
      ConnectDaq(reply);
      var cfg := config.value;
      assert cfg == ConfigFor(settings, reply);
      ghost var connected := sent;
      Receive(chunks, cfg);
      Disconnect();
      assert sent == connected + [StopFrame()];
    }

    /**
     * The read loop of `run`: reads until a read returns no bytes, cutting
     * whole blocks of `blockData` bytes off the buffer and emitting the
     * aux matrix of each.
     */
    method Receive(chunks: seq<seq<byte>>, cfg: DaqConfig)
      requires running && Consistent(cfg) && cfg.blockData > 0
      modifies this`emitted
      ensures var ps := Blocks(Joined(chunks[..FirstEmpty(chunks)]), cfg.blockData);
        EvenPackets(ps) && emitted == old(emitted) + Emissions(ps, cfg)
    {
      var buffer: seq<byte> := [];
      var i := 0;
      while running && i < |chunks|
        invariant i <= FirstEmpty(chunks)
        invariant buffer == Remainder(Joined(chunks[..i]), cfg.blockData)
        invariant EvenPackets(Blocks(Joined(chunks[..i]), cfg.blockData))
        invariant emitted == old(emitted) + Emissions(Blocks(Joined(chunks[..i]), cfg.blockData), cfg)
        decreases |chunks| - i
      {
        var chunk := chunks[i];
        if chunk == [] {
          break;
        }
        JoinedPrefix(chunks, i);
        buffer := Feed(buffer, chunk, cfg, Joined(chunks[..i]), old(emitted));
        i := i + 1;
      }
      assert i == FirstEmpty(chunks);
    }

    /**
     * One pass of the read loop: `buffer += chunk`, then every whole block
     * cut off and its aux matrix emitted.  What has been emitted so far is
     * always the emissions of the blocks of everything read.
     */
    method Feed(buffer: seq<byte>, chunk: seq<byte>, cfg: DaqConfig, ghost read: seq<byte>, ghost emitted0: seq<seq<seq<int>>>)
      returns (rest: seq<byte>)
      requires Consistent(cfg) && cfg.blockData > 0
      requires buffer == Remainder(read, cfg.blockData) && EvenPackets(Blocks(read, cfg.blockData))
      requires emitted == emitted0 + Emissions(Blocks(read, cfg.blockData), cfg)
      modifies this`emitted
      ensures rest == Remainder(read + chunk, cfg.blockData)
      ensures EvenPackets(Blocks(read + chunk, cfg.blockData))
      ensures emitted == emitted0 + Emissions(Blocks(read + chunk, cfg.blockData), cfg)
    {
      var packets;
      packets, rest := Reassemble(buffer, chunk, cfg.blockData);
      BlocksAppend(read, chunk, cfg.blockData);
      BlocksEven(buffer + chunk, cfg);
      EmissionsAppend(Blocks(read, cfg.blockData), packets, cfg);
      EmitAll(packets, cfg);
    }

    /** Decodes each packet and emits its aux matrix, in order. */
    method EmitAll(packets: seq<seq<byte>>, cfg: DaqConfig)
      requires Consistent(cfg) && EvenPackets(packets)
      modifies this`emitted
      ensures emitted == old(emitted) + Emissions(packets, cfg)
    {
      var j := 0;
      while j < |packets|
        invariant j <= |packets|
        invariant emitted == old(emitted) + Emissions(packets[..j], cfg)
      {
        var packet := packets[j];
        var temp := Samples(packet);
        if |temp| == cfg.packetSize * BLOCK_COLS {
          var data := ReshapeF(temp, cfg.packetSize, BLOCK_COLS);
          emitted := emitted + [AuxMatrix(data, cfg.ptrIn[NUM_SLOTS], cfg.fselAux)];
        }
        EmissionsSnoc(packets[..j], packet, cfg);
        assert packets[..j + 1] == packets[..j] + [packet];
        j := j + 1;
      }
      assert packets[..j] == packets;
    }

    method Stop()
      modifies this`running
      ensures !running
    {
      running := false;
    }

    /** Sends the all-zero stop frame if a socket was opened, then closes it. */
    method Disconnect()
      modifies this`sent
      ensures sent == old(sent) + (if hasSocket then [StopFrame()] else [])
    {
      if hasSocket {
        var conf := BuildStopFrame();
        sent := sent + [conf];
      }
    }
  }
}
