/**
 * Packet geometry: how the client turns the device's settings reply into the
 * per-slot channel counts `NumChan`, the slot sizes `Size_IN`, the prefix
 * sums `Ptr_IN`, and from those the block sizes `PacketSize1Block` and
 * `blockData`.
 *
 * All three copies run the same slot loop.  utils/daq_receiver.py guards the
 * reply (a reply shorter than 11 bytes is read as zeros, a type code outside
 * `ChVsType` as 0 channels) and starts from fresh tables.  old_code/app.py and
 * new_app.py index the reply and the table unguarded, so a short reply or a
 * code >= 16 raises in the middle of the loop; new_app.py also keeps the
 * tables in module globals across connection attempts.
 */
module Geometry {
  import opened Frames

  /** ChVsType: the number of channels of each probe type code. */
  const CH_VS_TYPE: seq<nat> := [0, 14, 22, 38, 46, 70, 102, 0, 0, 0, 0, 0, 0, 0, 0, 0]
  /** FsampVal: samples per second of each sampling-rate code. */
  const FSAMP_VAL: seq<nat> := [500, 2000, 4000, 8000]
  /** SizeAux: the rows the aux channels take in one block, per aux selector. */
  const SIZE_AUX: seq<nat> := [16, 64, 128, 256]
  /** PlotTime: seconds of signal per block. */
  const PLOT_TIME: nat := 1
  /** Rows at the end of every block that follow the aux rows. */
  const TRAILER_ROWS: nat := 128
  /** Columns of one block (samples per row). */
  const BLOCK_COLS: nat := 500

  /** The lists IN_Active, NumChan, Size_IN and Ptr_IN. */
  datatype Tables = Tables(active: seq<bool>, numChan: seq<nat>, sizeIn: seq<nat>, ptrIn: seq<nat>)

  predicate Shaped(t: Tables)
  {
    |t.active| == NUM_SLOTS && |t.numChan| == NUM_SLOTS &&
    |t.sizeIn| == NUM_SLOTS + 1 && |t.ptrIn| == NUM_SLOTS + 1
  }

  /** Ten slots whose Fsamp code indexes FsampVal. */
  predicate SlotsOk(slots: seq<Slot>)
  {
    |slots| == NUM_SLOTS && forall i :: 0 <= i < NUM_SLOTS ==> slots[i].fsamp < |FSAMP_VAL|
  }

  /** Settings whose every entry indexes the tables the slot loop reads. */
  predicate Usable(req: Request)
  {
    WellFormed(req) && SlotsOk(req.slots) && req.fselAux < |SIZE_AUX|
  }

  /** The hard-coded settings of `connect_daq` index every table. */
  lemma DefaultSlotsOk()
    ensures Usable(DEFAULT_REQUEST)
  {
    DefaultConfigBody();
  }

  /** The tables as `connect_daq` allocates them: requested flags, everything else zero. */
  function Fresh(slots: seq<Slot>): (t: Tables)
    requires |slots| == NUM_SLOTS
    ensures Shaped(t)
  {
    Tables(seq(NUM_SLOTS, i requires 0 <= i < NUM_SLOTS => slots[i].active),
           seq(NUM_SLOTS, _ => 0), seq(NUM_SLOTS + 1, _ => 0), seq(NUM_SLOTS + 1, _ => 0))
  }

  /**
   * Size_IN of an active slot, (HRES + 1) * FsampVal[Fsamp] // 500 * NumChan,
   * with the division taken first, which every FsampVal entry allows.
   */
  function SlotSize(s: Slot, numChan: nat): (size: nat)
    requires s.fsamp < |FSAMP_VAL|
    ensures size == 0 <==> numChan == 0
  {
    (s.hres + 1) * (FSAMP_VAL[s.fsamp] / 500) * numChan
  }

  /** The size is the one the slot loop computes, the division taken after the product. */
  lemma SlotSizeAsWritten(s: Slot, numChan: nat)
    requires s.fsamp < |FSAMP_VAL|
    ensures SlotSize(s, numChan) == (s.hres + 1) * FSAMP_VAL[s.fsamp] / 500 * numChan
  {
    var q := FSAMP_VAL[s.fsamp] / 500;
    assert FSAMP_VAL[s.fsamp] == 500 * q;
    assert (s.hres + 1) * FSAMP_VAL[s.fsamp] == ((s.hres + 1) * q) * 500;
  }

  /** One pass of the slot loop body for slot i, whose channel count is `nc`. */
  function Step(t: Tables, slots: seq<Slot>, nc: nat, i: nat): (t': Tables)
    requires Shaped(t) && SlotsOk(slots) && i < NUM_SLOTS
    ensures Shaped(t')
  {
    var active := if nc == 0 then t.active[i := false] else t.active;
    var sizeIn := if active[i] then t.sizeIn[i := SlotSize(slots[i], nc)] else t.sizeIn;
    Tables(active, t.numChan[i := nc], sizeIn, t.ptrIn[i + 1 := t.ptrIn[i] + sizeIn[i]])
  }

  /** The tables after the loop body has run for slots 0 .. k-1. */
  function Apply(t: Tables, slots: seq<Slot>, chans: seq<nat>, k: nat): (t': Tables)
    requires Shaped(t) && SlotsOk(slots) && |chans| == NUM_SLOTS && k <= NUM_SLOTS
    ensures Shaped(t')
    // `chans` in the measure keeps the slot count literal from unrolling the whole loop
    decreases k, chans
  {
    if k == 0 then t else Step(Apply(t, slots, chans, k - 1), slots, chans[k - 1], k - 1)
  }

  /** A slot stays active iff it was requested active and the device reports channels for it. */
  predicate Survives(t0: Tables, chans: seq<nat>, j: nat)
    requires Shaped(t0) && |chans| == NUM_SLOTS && j < NUM_SLOTS
  {
    t0.active[j] && chans[j] != 0
  }

  /** Ptr_IN[j+1] is Ptr_IN[j] plus Size_IN[j]. */
  predicate Linked(t: Tables, j: nat)
    requires Shaped(t) && j < NUM_SLOTS
  {
    t.ptrIn[j + 1] == t.ptrIn[j] + t.sizeIn[j]
  }

  /** One pass changes slot i's entries and Ptr_IN[i+1], and nothing else. */
  lemma StepFacts(t: Tables, slots: seq<Slot>, nc: nat, i: nat)
    requires Shaped(t) && SlotsOk(slots) && i < NUM_SLOTS
    ensures var t' := Step(t, slots, nc, i);
      t'.active[i] == (t.active[i] && nc != 0) && t'.numChan[i] == nc &&
      t'.sizeIn[i] == (if t'.active[i] then SlotSize(slots[i], nc) else t.sizeIn[i]) &&
      Linked(t', i) &&
      (forall j :: 0 <= j < NUM_SLOTS && j != i ==>
        t'.active[j] == t.active[j] && t'.numChan[j] == t.numChan[j]) &&
      (forall j :: 0 <= j <= NUM_SLOTS && j != i ==> t'.sizeIn[j] == t.sizeIn[j]) &&
      (forall j :: 0 <= j <= NUM_SLOTS && j != i + 1 ==> t'.ptrIn[j] == t.ptrIn[j])
  {
  }

  /**
   * What the loop computes for slots 0 .. k-1, entry by entry: the forced
   * IN_Active flags, the channel counts, and the sizes (left as they were
   * for a slot that is not active).
   */
  lemma {:induction false} ApplyFacts(t0: Tables, slots: seq<Slot>, chans: seq<nat>, k: nat)
    requires Shaped(t0) && SlotsOk(slots) && |chans| == NUM_SLOTS && k <= NUM_SLOTS
    ensures var t := Apply(t0, slots, chans, k);
      (forall j :: 0 <= j < k ==> t.active[j] == Survives(t0, chans, j)) &&
      (forall j :: 0 <= j < k ==> t.numChan[j] == chans[j]) &&
      (forall j :: 0 <= j < k ==>
        t.sizeIn[j] == if Survives(t0, chans, j) then SlotSize(slots[j], chans[j]) else t0.sizeIn[j])
  {
    if k > 0 {
      var prev := Apply(t0, slots, chans, k - 1);
      var t := Apply(t0, slots, chans, k);
      assert t == Step(prev, slots, chans[k - 1], k - 1);
      ApplyFacts(t0, slots, chans, k - 1);
      ApplyUntouched(t0, slots, chans, k - 1);
      StepFacts(prev, slots, chans[k - 1], k - 1);
      assert prev.active[k - 1] == t0.active[k - 1] && prev.sizeIn[k - 1] == t0.sizeIn[k - 1];
    }
  }

  /** The slots the loop has not reached yet still hold their old entries. */
  lemma {:induction false} ApplyUntouched(t0: Tables, slots: seq<Slot>, chans: seq<nat>, k: nat)
    requires Shaped(t0) && SlotsOk(slots) && |chans| == NUM_SLOTS && k <= NUM_SLOTS
    ensures var t := Apply(t0, slots, chans, k);
      t.ptrIn[0] == t0.ptrIn[0] && t.sizeIn[NUM_SLOTS] == t0.sizeIn[NUM_SLOTS] &&
      (forall j :: k <= j < NUM_SLOTS ==>
        t.active[j] == t0.active[j] && t.numChan[j] == t0.numChan[j] && t.sizeIn[j] == t0.sizeIn[j]) &&
      (forall j :: k < j <= NUM_SLOTS ==> t.ptrIn[j] == t0.ptrIn[j])
  {
    if k > 0 {
      ApplyUntouched(t0, slots, chans, k - 1);
      StepFacts(Apply(t0, slots, chans, k - 1), slots, chans[k - 1], k - 1);
    }
  }

  /** Each Ptr_IN[j+1] the loop has written is Ptr_IN[j] plus Size_IN[j]. */
  lemma {:induction false} ApplyPrefixSums(t0: Tables, slots: seq<Slot>, chans: seq<nat>, k: nat)
    requires Shaped(t0) && SlotsOk(slots) && |chans| == NUM_SLOTS && k <= NUM_SLOTS
    ensures forall j :: 0 <= j < k ==> Linked(Apply(t0, slots, chans, k), j)
  {
    if k > 0 {
      var prev := Apply(t0, slots, chans, k - 1);
      var t := Apply(t0, slots, chans, k);
      assert t == Step(prev, slots, chans[k - 1], k - 1);
      ApplyPrefixSums(t0, slots, chans, k - 1);
      StepFacts(prev, slots, chans[k - 1], k - 1);
      forall j | 0 <= j < k
        ensures Linked(t, j)
      {
        if j < k - 1 {
          assert Linked(prev, j);
          assert t.ptrIn[j + 1] == prev.ptrIn[j + 1];
          assert t.ptrIn[j] == prev.ptrIn[j];
          assert t.sizeIn[j] == prev.sizeIn[j];
        }
      }
    }
  }

  /** Ptr_IN is non-decreasing once the loop has run over all ten slots. */
  lemma PtrNonDecreasing(t0: Tables, slots: seq<Slot>, chans: seq<nat>, i: nat, j: nat)
    requires Shaped(t0) && SlotsOk(slots) && |chans| == NUM_SLOTS
    requires i <= j <= NUM_SLOTS
    ensures Apply(t0, slots, chans, NUM_SLOTS).ptrIn[i] <= Apply(t0, slots, chans, NUM_SLOTS).ptrIn[j]
    decreases j - i
  {
    var t := Apply(t0, slots, chans, NUM_SLOTS);
    ApplyPrefixSums(t0, slots, chans, NUM_SLOTS);
    if i < j {
      PtrNonDecreasing(t0, slots, chans, i, j - 1);
      assert Linked(t, j - 1);
    }
  }

  // ---------------------------------------------------------------------
  // Sizes from cleared tables and their sum.
  // ---------------------------------------------------------------------

  /** Size_IN and Ptr_IN[0] all zero, as freshly allocated lists are. */
  predicate Cleared(t: Tables)
    requires Shaped(t)
  {
    t.ptrIn[0] == 0 && forall j :: 0 <= j <= NUM_SLOTS ==> t.sizeIn[j] == 0
  }

  lemma FreshIsCleared(slots: seq<Slot>)
    requires |slots| == NUM_SLOTS
    ensures Cleared(Fresh(slots))
    ensures forall j :: 0 <= j < NUM_SLOTS ==> Fresh(slots).active[j] == slots[j].active
  {
  }

  /** The size a slot contributes: its own size if it was requested and has channels, else 0. */
  function EffectiveSize(requested: bool, s: Slot, numChan: nat): nat
    requires s.fsamp < |FSAMP_VAL|
  {
    if requested && numChan != 0 then SlotSize(s, numChan) else 0
  }

  /** The sum of the effective sizes of slots 0 .. k-1. */
  function TotalSize(requested: seq<bool>, slots: seq<Slot>, chans: seq<nat>, k: nat): nat
    requires |requested| == NUM_SLOTS && SlotsOk(slots) && |chans| == NUM_SLOTS && k <= NUM_SLOTS
    decreases k, chans
  {
    if k == 0 then 0
    else TotalSize(requested, slots, chans, k - 1) + EffectiveSize(requested[k - 1], slots[k - 1], chans[k - 1])
  }

  /**
   * From cleared tables (the fresh lists of utils/daq_receiver.py and
   * old_code/app.py), a slot that does not stay active contributes size 0,
   * and Ptr_IN[k] is the sum of the effective sizes of the first k slots.
   */
  lemma {:induction false} ClearedGeometry(t0: Tables, slots: seq<Slot>, chans: seq<nat>, k: nat)
    requires Shaped(t0) && Cleared(t0) && SlotsOk(slots) && |chans| == NUM_SLOTS && k <= NUM_SLOTS
    ensures var t := Apply(t0, slots, chans, NUM_SLOTS);
      t.ptrIn[0] == 0 &&
      (forall j :: 0 <= j < NUM_SLOTS ==> t.sizeIn[j] == EffectiveSize(t0.active[j], slots[j], chans[j])) &&
      (forall j :: 0 <= j < NUM_SLOTS ==> !t.active[j] ==> t.sizeIn[j] == 0) &&
      t.ptrIn[k] == TotalSize(t0.active, slots, chans, k)
  {
    var t := Apply(t0, slots, chans, NUM_SLOTS);
    ApplyFacts(t0, slots, chans, NUM_SLOTS);
    ApplyUntouched(t0, slots, chans, NUM_SLOTS);
    ApplyPrefixSums(t0, slots, chans, NUM_SLOTS);
    if k > 0 {
      ClearedGeometry(t0, slots, chans, k - 1);
      assert Linked(t, k - 1);
    }
  }

  /** With every channel count 0, no slot stays active and every pointer is 0. */
  lemma NoChannelsNoSlots(t0: Tables, slots: seq<Slot>, chans: seq<nat>)
    requires Shaped(t0) && Cleared(t0) && SlotsOk(slots) && |chans| == NUM_SLOTS
    requires forall j :: 0 <= j < NUM_SLOTS ==> chans[j] == 0
    ensures var t := Apply(t0, slots, chans, NUM_SLOTS);
      (forall j :: 0 <= j < NUM_SLOTS ==> !t.active[j]) &&
      (forall j :: 0 <= j <= NUM_SLOTS ==> t.ptrIn[j] == 0)
  {
    var t := Apply(t0, slots, chans, NUM_SLOTS);
    ApplyFacts(t0, slots, chans, NUM_SLOTS);
    forall j | 0 <= j <= NUM_SLOTS
      ensures t.ptrIn[j] == 0
    {
      ClearedGeometry(t0, slots, chans, j);
      ZeroTotal(t0.active, slots, chans, j);
    }
  }

  lemma {:induction false} ZeroTotal(requested: seq<bool>, slots: seq<Slot>, chans: seq<nat>, k: nat)
    requires |requested| == NUM_SLOTS && SlotsOk(slots) && |chans| == NUM_SLOTS && k <= NUM_SLOTS
    requires forall j :: 0 <= j < NUM_SLOTS ==> chans[j] == 0
    ensures TotalSize(requested, slots, chans, k) == 0
  {
    if k > 0 {
      ZeroTotal(requested, slots, chans, k - 1);
    }
  }

  // ---------------------------------------------------------------------
  // Reading the channel counts out of the settings reply.
  // ---------------------------------------------------------------------

  /** The guarded table lookup: a code outside ChVsType has 0 channels. */
  function Lookup(code: nat): (n: nat)
    ensures code >= |CH_VS_TYPE| ==> n == 0
    ensures code < |CH_VS_TYPE| ==> n == CH_VS_TYPE[code]
  {
    if code < |CH_VS_TYPE| then CH_VS_TYPE[code] else 0
  }

  /** The channel count of every slot from the type codes in reply bytes 1..10; a missing byte reads as 0. */
  function Chans(reply: seq<nat>): (c: seq<nat>)
    ensures |c| == NUM_SLOTS
  {
    seq(NUM_SLOTS, i requires 0 <= i < NUM_SLOTS => if i + 1 < |reply| then Lookup(reply[i + 1]) else 0)
  }

  /** `settings_arr`: the reply itself when it has at least 11 bytes, otherwise eleven zeros. */
  function GuardedReply(reply: seq<nat>): (arr: seq<nat>)
    ensures |arr| >= NUM_SLOTS + 1
  {
    if |reply| >= NUM_SLOTS + 1 then reply else seq(NUM_SLOTS + 1, _ => 0)
  }

  /** The reply `send_request` stands in when the exchange raises: twenty zero bytes. */
  function FailedReply(): seq<nat>
  {
    seq(20, _ => 0)
  }

  /** A short reply, and the failed-request reply, give no channels to any slot. */
  lemma ZeroReplies(reply: seq<nat>)
    ensures |reply| < NUM_SLOTS + 1 ==> Chans(GuardedReply(reply)) == seq(NUM_SLOTS, _ => 0)
    ensures Chans(GuardedReply(FailedReply())) == seq(NUM_SLOTS, _ => 0)
  {
    var z := Chans(GuardedReply(FailedReply()));
    forall i | 0 <= i < NUM_SLOTS
      ensures z[i] == 0
    {
      assert GuardedReply(FailedReply())[i + 1] == 0;
    }
  }

  /** Whether the unguarded loop can read slot i: the byte exists and indexes ChVsType. */
  predicate Readable(reply: seq<nat>, i: nat)
  {
    i + 1 < |reply| && reply[i + 1] < |CH_VS_TYPE|
  }

  /** The first slot at or after i whose lookup raises in the unguarded loop; NUM_SLOTS if none. */
  function FirstFailureFrom(reply: seq<nat>, i: nat): (k: nat)
    requires i <= NUM_SLOTS
    ensures i <= k <= NUM_SLOTS
    ensures forall j :: i <= j < k ==> Readable(reply, j)
    ensures k < NUM_SLOTS ==> !Readable(reply, k)
    decreases NUM_SLOTS - i, reply
  {
    if i == NUM_SLOTS || !Readable(reply, i) then i else FirstFailureFrom(reply, i + 1)
  }

  /** The slot at which the unguarded loop raises (NUM_SLOTS when it does not): the least unreadable one. */
  function FirstFailure(reply: seq<nat>): (k: nat)
    ensures k <= NUM_SLOTS
    ensures forall j :: 0 <= j < k ==> Readable(reply, j)
    ensures k < NUM_SLOTS ==> !Readable(reply, k)
  {
    FirstFailureFrom(reply, 0)
  }

  /**
   * When the unguarded loop gets through every slot, it read exactly the
   * channel counts the guarded loop reads.
   */
  lemma UncheckedAgreesWithGuarded(reply: seq<nat>)
    requires FirstFailure(reply) == NUM_SLOTS
    ensures |reply| >= NUM_SLOTS + 1
    ensures Chans(GuardedReply(reply)) == Chans(reply)
    ensures forall i :: 0 <= i < NUM_SLOTS ==> Readable(reply, i) && Chans(reply)[i] == CH_VS_TYPE[reply[i + 1]]
  {
    assert Readable(reply, NUM_SLOTS - 1);
    forall i | 0 <= i < NUM_SLOTS
      ensures Readable(reply, i) && Chans(reply)[i] == CH_VS_TYPE[reply[i + 1]]
    {
      assert Readable(reply, i);
    }
  }

  /** A code outside ChVsType in a long enough reply stops the unguarded loop at that slot or before. */
  lemma OutOfTableFails(reply: seq<nat>, i: nat)
    requires i < NUM_SLOTS && i + 1 < |reply| && reply[i + 1] >= |CH_VS_TYPE|
    ensures FirstFailure(reply) <= i
  {
    assert !Readable(reply, i);
  }

  // ---------------------------------------------------------------------
  // The slot loops as the copies write them.
  // ---------------------------------------------------------------------

  /**
   * The body of the slot loop, common to all three copies, once NumChan[i]
   * is known: a slot without channels is forced inactive, an active slot
   * gets its size, and Ptr_IN[i+1] follows from Ptr_IN[i].
   */
  method UpdateSlot(slots: seq<Slot>, i: nat, nc: nat,
                    inActive: seq<bool>, numChan: seq<nat>, sizeIn: seq<nat>, ptrIn: seq<nat>)
    returns (inActive': seq<bool>, numChan': seq<nat>, sizeIn': seq<nat>, ptrIn': seq<nat>)
    requires SlotsOk(slots) && i < NUM_SLOTS && Shaped(Tables(inActive, numChan, sizeIn, ptrIn))
    ensures Tables(inActive', numChan', sizeIn', ptrIn') == Step(Tables(inActive, numChan, sizeIn, ptrIn), slots, nc, i)
  {
    inActive', numChan', sizeIn', ptrIn' := inActive, numChan, sizeIn, ptrIn;
    numChan' := numChan'[i := nc];
    if numChan'[i] == 0 {
      inActive' := inActive'[i := false];
    }
    if inActive'[i] {
      sizeIn' := sizeIn'[i := SlotSize(slots[i], numChan'[i])];
    }
    ptrIn' := ptrIn'[i + 1 := ptrIn'[i] + sizeIn'[i]];
  }

  /**
   * The loop of utils/daq_receiver.py: fresh tables, guarded reply, guarded
   * lookup.  It never fails.
   */
  method GuardedGeometry(slots: seq<Slot>, reply: seq<nat>) returns (t: Tables)
    requires SlotsOk(slots)
    ensures t == Apply(Fresh(slots), slots, Chans(GuardedReply(reply)), NUM_SLOTS)
  {
    var settingsArr := if |reply| >= NUM_SLOTS + 1 then reply else seq(NUM_SLOTS + 1, _ => 0);
    ghost var chans := Chans(settingsArr);
    var inActive := seq(NUM_SLOTS, i requires 0 <= i < NUM_SLOTS => slots[i].active);
    var numChan: seq<nat> := seq(NUM_SLOTS, _ => 0);
    var ptrIn: seq<nat> := seq(NUM_SLOTS + 1, _ => 0);
    var sizeIn: seq<nat> := seq(NUM_SLOTS + 1, _ => 0);
    for i := 0 to NUM_SLOTS
      invariant Tables(inActive, numChan, sizeIn, ptrIn) == Apply(Fresh(slots), slots, chans, i)
    {
      var idx := if i + 1 < |settingsArr| then settingsArr[i + 1] else 0;
      var nc := if idx < |CH_VS_TYPE| then CH_VS_TYPE[idx] else 0;
      assert nc == chans[i];
      inActive, numChan, sizeIn, ptrIn := UpdateSlot(slots, i, nc, inActive, numChan, sizeIn, ptrIn);
    }
    t := Tables(inActive, numChan, sizeIn, ptrIn);
  }

  /** How many of slots 0 .. k-1 are flagged active. */
  function CountActive(active: seq<bool>, k: nat): (n: nat)
    requires k <= |active|
    ensures n <= k
    decreases k, active
  {
    if k == 0 then 0 else CountActive(active, k - 1) + (if active[k - 1] then 1 else 0)
  }

  /**
   * The loop of old_code/app.py and new_app.py, starting from the tables
   * `t0` (fresh in old_code/app.py, the module globals in new_app.py).  It
   * raises at the first slot it cannot read, leaving the earlier slots
   * updated; `numAct` is new_app.py's NumActInputs.
   */
  method UncheckedGeometry(slots: seq<Slot>, reply: seq<nat>, t0: Tables)
    returns (t: Tables, numAct: nat, ok: bool)
    requires SlotsOk(slots) && Shaped(t0)
    ensures ok <==> FirstFailure(reply) == NUM_SLOTS
    ensures t == Apply(t0, slots, Chans(reply), FirstFailure(reply))
    ensures numAct == CountActive(t.active, FirstFailure(reply))
  {
    ghost var chans := Chans(reply);
    ghost var stop := FirstFailure(reply);
    var inActive: seq<bool>, numChan: seq<nat>, sizeIn: seq<nat>, ptrIn: seq<nat> :=
      t0.active, t0.numChan, t0.sizeIn, t0.ptrIn;
    numAct := 0;
    var i := 0;
    ok := true;
    while i < NUM_SLOTS
      invariant i <= stop
      invariant Tables(inActive, numChan, sizeIn, ptrIn) == Apply(t0, slots, chans, i)
      invariant numAct == CountActive(inActive, i)
      invariant ok
    {
      if !Readable(reply, i) {
        ok := false;
        break;
      }
      ghost var before := inActive;
      var nc := CH_VS_TYPE[reply[i + 1]];
      inActive, numChan, sizeIn, ptrIn := UpdateSlot(slots, i, nc, inActive, numChan, sizeIn, ptrIn);
      if inActive[i] {
        numAct := numAct + 1;
      }
      CountActiveFrame(before, inActive, i);
      i := i + 1;
    }
    assert i == stop;
    t := Tables(inActive, numChan, sizeIn, ptrIn);
  }

  /** Changing flag i leaves the count of the flags before it alone. */
  lemma {:induction false} CountActiveFrame(a: seq<bool>, b: seq<bool>, k: nat)
    requires k <= |a| == |b|
    requires forall j :: 0 <= j < k ==> a[j] == b[j]
    ensures CountActive(a, k) == CountActive(b, k)
  {
    if k > 0 {
      CountActiveFrame(a, b, k - 1);
    }
  }

  // ---------------------------------------------------------------------
  // Block sizes.
  // ---------------------------------------------------------------------

  /** PacketSize1Block: the slot rows, the aux rows and the 128 trailing rows. */
  function PacketSize(ptrEnd: nat, fselAux: nat): (p: nat)
    requires fselAux < |SIZE_AUX|
    ensures ptrEnd + 16 + TRAILER_ROWS <= p <= ptrEnd + 256 + TRAILER_ROWS
  {
    ptrEnd + SIZE_AUX[fselAux] + TRAILER_ROWS
  }

  /** blockData: bytes per block, two per int16 sample. */
  function BlockData(packetSize: nat): (b: nat)
    ensures b > 0 <==> packetSize > 0
  {
    packetSize * BLOCK_COLS * PLOT_TIME * 2
  }

  /**
   * A block has at least 144 rows, and blockData is positive, even and
   * exactly two bytes for each of the PacketSize1Block x 500 samples.
   */
  lemma BlockSizes(ptrEnd: nat, fselAux: nat)
    requires fselAux < |SIZE_AUX|
    ensures PacketSize(ptrEnd, fselAux) >= 144
    ensures BlockData(PacketSize(ptrEnd, fselAux)) > 0
    ensures BlockData(PacketSize(ptrEnd, fselAux)) % 2 == 0
    ensures BlockData(PacketSize(ptrEnd, fselAux)) == 2 * (PacketSize(ptrEnd, fselAux) * BLOCK_COLS)
  {
  }

  /**
   * The aux rows of a block hold exactly the 16 x FsampVal[FSelAux] *
   * PlotTime samples the aux reshape asks for, for every selector.
   */
  lemma AuxFits(fselAux: nat)
    requires fselAux < |SIZE_AUX|
    ensures SIZE_AUX[fselAux] * BLOCK_COLS == 16 * FSAMP_VAL[fselAux] * PLOT_TIME
  {
  }
}
