/**
 * The receive path shared by the three copies: TCP chunks are appended to a
 * byte buffer from which whole blocks of `blockData` bytes are cut; a block
 * is read as little-endian int16 samples, laid out column-major as
 * PacketSize1Block rows by 500 columns, and the aux rows are reshaped into a
 * 16 x FsampVal[FSelAux] * PlotTime matrix.
 */
module Stream {
  import opened Crc
  import opened Frames
  import opened Geometry

  datatype Option<T> = None | Some(value: T)

  // ---------------------------------------------------------------------
  // Cutting blocks out of the byte stream.
  // ---------------------------------------------------------------------

  /** The whole blocks of n bytes at the front of s, in order. */
  function Blocks(s: seq<byte>, n: nat): (ps: seq<seq<byte>>)
    requires n > 0
    ensures ps == [] <==> |s| < n
    decreases |s|
  {
    if |s| < n then [] else [s[..n]] + Blocks(s[n..], n)
  }

  /** What stays buffered after the whole blocks are cut off. */
  function Remainder(s: seq<byte>, n: nat): (r: seq<byte>)
    requires n > 0
    ensures |r| <= |s|
    decreases |s|
  {
    if |s| < n then s else Remainder(s[n..], n)
  }

  /** The blocks joined back together. */
  function Concat(ps: seq<seq<byte>>): seq<byte>
  {
    if ps == [] then [] else ps[0] + Concat(ps[1..])
  }

  lemma {:induction false} ConcatAppend(a: seq<seq<byte>>, b: seq<seq<byte>>)
    ensures Concat(a + b) == Concat(a) + Concat(b)
  {
    if a == [] {
      assert a + b == b;
    } else {
      assert (a + b)[0] == a[0];
      assert (a + b)[1..] == a[1..] + b;
      ConcatAppend(a[1..], b);
    }
  }

  /**
   * Cutting loses and reorders nothing: the blocks followed by the
   * remainder are the stream itself; every block has exactly n bytes and
   * fewer than n bytes remain.
   */
  lemma {:induction false} BlocksSplit(s: seq<byte>, n: nat)
    requires n > 0
    ensures Concat(Blocks(s, n)) + Remainder(s, n) == s
    ensures forall p :: p in Blocks(s, n) ==> |p| == n
    ensures |Remainder(s, n)| < n
  {
    BlocksRejoin(s, n);
    BlocksFull(s, n);
    RemainderShort(s, n);
  }

  lemma ConcatCons(p: seq<byte>, ps: seq<seq<byte>>)
    ensures Concat([p] + ps) == p + Concat(ps)
  {
    assert ([p] + ps)[0] == p && ([p] + ps)[1..] == ps;
  }

  lemma {:induction false} BlocksRejoin(s: seq<byte>, n: nat)
    requires n > 0
    ensures Concat(Blocks(s, n)) + Remainder(s, n) == s
    decreases |s|
  {
    if |s| >= n {
      BlocksUnfold(s, n);
      BlocksRejoin(s[n..], n);
      Regroup(s[..n], Concat(Blocks(s[n..], n)), Remainder(s[n..], n), s[n..]);
      assert s == s[..n] + s[n..];
    }
  }

  /** One block cut off the front. */
  lemma BlocksUnfold(s: seq<byte>, n: nat)
    requires 0 < n <= |s|
    ensures Concat(Blocks(s, n)) == s[..n] + Concat(Blocks(s[n..], n))
    ensures Remainder(s, n) == Remainder(s[n..], n)
  {
    assert Blocks(s, n) == [s[..n]] + Blocks(s[n..], n);
    ConcatCons(s[..n], Blocks(s[n..], n));
  }

  lemma Regroup(h: seq<byte>, c: seq<byte>, r: seq<byte>, t: seq<byte>)
    requires c + r == t
    ensures (h + c) + r == h + t
  {
  }

  lemma {:induction false} BlocksFull(s: seq<byte>, n: nat)
    requires n > 0
    ensures forall p :: p in Blocks(s, n) ==> |p| == n
    decreases |s|
  {
    if |s| >= n {
      BlocksFull(s[n..], n);
      assert Blocks(s, n) == [s[..n]] + Blocks(s[n..], n);
    }
  }

  lemma {:induction false} RemainderShort(s: seq<byte>, n: nat)
    requires n > 0
    ensures |Remainder(s, n)| < n
    decreases |s|
  {
    if |s| >= n {
      RemainderShort(s[n..], n);
    }
  }

  /**
   * Feeding more bytes after a prefix yields the prefix's blocks, then the
   * blocks of what was left over followed by the new bytes: the blocks do
   * not depend on where the chunk boundaries fall.
   */
  lemma {:induction false} BlocksAppend(s: seq<byte>, chunk: seq<byte>, n: nat)
    requires n > 0
    ensures Blocks(s + chunk, n) == Blocks(s, n) + Blocks(Remainder(s, n) + chunk, n)
    ensures Remainder(s + chunk, n) == Remainder(Remainder(s, n) + chunk, n)
    decreases |s|
  {
    if |s| >= n {
      assert (s + chunk)[..n] == s[..n];
      assert (s + chunk)[n..] == s[n..] + chunk;
      BlocksAppend(s[n..], chunk, n);
    }
  }

  /**
   * The inner `while len(buffer) >= blockData` loop after `buffer += chunk`:
   * cut off every whole block, in order, and keep the rest.
   */
  method Reassemble(buffer: seq<byte>, chunk: seq<byte>, blockData: nat)
    returns (packets: seq<seq<byte>>, rest: seq<byte>)
    requires blockData > 0
    ensures packets == Blocks(buffer + chunk, blockData)
    ensures rest == Remainder(buffer + chunk, blockData)
    ensures |rest| < blockData
  {
    rest := buffer + chunk;
    packets := [];
    while |rest| >= blockData
      invariant packets + Blocks(rest, blockData) == Blocks(buffer + chunk, blockData)
      invariant Remainder(rest, blockData) == Remainder(buffer + chunk, blockData)
      decreases |rest|
    {
      var packet := rest[..blockData];
      rest := rest[blockData..];
      packets := packets + [packet];
    }
    BlocksSplit(rest, blockData);
  }

  // ---------------------------------------------------------------------
  // Little-endian int16 samples.
  // ---------------------------------------------------------------------

  /** One '<i2' sample: low byte first, two's complement. */
  function Int16(lo: byte, hi: byte): (v: int)
    ensures -32768 <= v < 32768
  {
    var u := lo + 256 * hi;
    if u >= 32768 then u - 65536 else u
  }

  /** The two bytes that encode a sample, low byte first. */
  function Int16Bytes(v: int): (b: (byte, byte))
    requires -32768 <= v < 32768
  {
    var u := if v < 0 then v + 65536 else v;
    (u % 256, u / 256)
  }

  /** Decoding and encoding a sample are inverse to each other. */
  lemma Int16RoundTrip(lo: byte, hi: byte, v: int)
    requires -32768 <= v < 32768
    ensures Int16Bytes(Int16(lo, hi)) == (lo, hi)
    ensures Int16(Int16Bytes(v).0, Int16Bytes(v).1) == v
  {
  }

  /** `np.frombuffer(packet, dtype="<i2")`: the packet as int16 samples. */
  function Samples(packet: seq<byte>): (s: seq<int>)
    requires |packet| % 2 == 0
    ensures |s| == |packet| / 2
    ensures forall i :: 0 <= i < |s| ==> -32768 <= s[i] < 32768
  {
    seq(|packet| / 2, i requires 0 <= i < |packet| / 2 => Int16(packet[2 * i], packet[2 * i + 1]))
  }

  // ---------------------------------------------------------------------
  // Column-major reshapes.
  // ---------------------------------------------------------------------

  predicate IsMatrix(m: seq<seq<int>>, rows: nat, cols: nat)
  {
    |m| == rows && forall r :: 0 <= r < rows ==> |m[r]| == cols
  }

  lemma ColumnMajorIndex(r: nat, c: nat, rows: nat, cols: nat)
    requires r < rows && c < cols
    ensures r + c * rows < rows * cols
  {
    var d: nat := cols - c - 1;
    assert rows * cols == rows * (c + 1) + rows * d;
    assert rows * (c + 1) == c * rows + rows;
  }

  /** Column c of row r of the order="F" reshape of `flat`. */
  function ColumnMajorAt(flat: seq<int>, rows: nat, cols: nat, r: nat, c: nat): int
    requires |flat| == rows * cols && r < rows && c < cols
  {
    ColumnMajorIndex(r, c, rows, cols);
    flat[r + c * rows]
  }

  /** `flat.reshape(rows, cols, order="F")`. */
  function ReshapeF(flat: seq<int>, rows: nat, cols: nat): (m: seq<seq<int>>)
    requires |flat| == rows * cols
    ensures IsMatrix(m, rows, cols)
  {
    seq(rows, r requires 0 <= r < rows =>
      seq(cols, c requires 0 <= c < cols => ColumnMajorAt(flat, rows, cols, r, c)))
  }

  lemma ZeroFactor(x: int, d: int)
    requires d > 0 && -d < x * d < d
    ensures x == 0
  {
  }

  lemma LessFactor(q: int, cols: int, rows: int)
    requires rows > 0 && q * rows < cols * rows
    ensures q < cols
  {
    assert (cols - q) * rows > 0;
  }

  /** Index k of a column-major flattening is row k % rows of column k / rows. */
  lemma SplitIndex(k: nat, rows: nat, cols: nat)
    requires k < rows * cols
    ensures rows > 0 && k % rows < rows && k / rows < cols
    ensures k == k % rows + (k / rows) * rows
  {
    assert rows != 0;
    assert (k / rows) * rows <= k;
    LessFactor(k / rows, cols, rows);
  }

  /** Row r of column c sits at index r + c * rows of a column-major flattening. */
  lemma JoinIndex(r: nat, c: nat, rows: nat)
    requires r < rows
    ensures (r + c * rows) % rows == r && (r + c * rows) / rows == c
  {
    var a := r + c * rows;
    var q, m := a / rows, a % rows;
    assert a == q * rows + m;
    assert (q - c) * rows == r - m;
    ZeroFactor(q - c, rows);
  }

  /** `m.reshape(rows * cols, order="F")`: the entries column by column. */
  function FlattenF(m: seq<seq<int>>, rows: nat, cols: nat): (flat: seq<int>)
    requires IsMatrix(m, rows, cols)
    ensures |flat| == rows * cols
  {
    seq(rows * cols, k requires 0 <= k < rows * cols =>
      SplitIndex(k, rows, cols); m[k % rows][k / rows])
  }

  /** Reshaping column-major and flattening column-major undo each other. */
  lemma ReshapeRoundTrip(flat: seq<int>, m: seq<seq<int>>, rows: nat, cols: nat)
    requires |flat| == rows * cols && IsMatrix(m, rows, cols)
    ensures FlattenF(ReshapeF(flat, rows, cols), rows, cols) == flat
    ensures ReshapeF(FlattenF(m, rows, cols), rows, cols) == m
  {
    var f := FlattenF(ReshapeF(flat, rows, cols), rows, cols);
    forall k | 0 <= k < rows * cols
      ensures f[k] == flat[k]
    {
      SplitIndex(k, rows, cols);
    }
    var g := ReshapeF(FlattenF(m, rows, cols), rows, cols);
    forall r | 0 <= r < rows
      ensures g[r] == m[r]
    {
      forall c | 0 <= c < cols
        ensures g[r][c] == m[r][c]
      {
        ColumnMajorIndex(r, c, rows, cols);
        JoinIndex(r, c, rows);
      }
    }
  }

  // ---------------------------------------------------------------------
  // Decoding a block.
  // ---------------------------------------------------------------------

  /** The entries of `daq_config` the receive loop reads. */
  datatype DaqConfig = DaqConfig(ptrIn: seq<nat>, packetSize: nat, blockData: nat, fselAux: nat)

  /** The block sizes follow from Ptr_IN[10] and FSelAux as `connect_daq` computes them. */
  predicate Consistent(cfg: DaqConfig)
  {
    |cfg.ptrIn| == NUM_SLOTS + 1 && cfg.fselAux < |SIZE_AUX| &&
    cfg.packetSize == PacketSize(cfg.ptrIn[NUM_SLOTS], cfg.fselAux) &&
    cfg.blockData == BlockData(cfg.packetSize)
  }

  /** The configuration stored after the slot loop has produced `t`. */
  function ConfigOf(t: Tables, fselAux: nat): (cfg: DaqConfig)
    requires Shaped(t) && fselAux < |SIZE_AUX|
    ensures Consistent(cfg) && cfg.ptrIn == t.ptrIn && cfg.fselAux == fselAux
    ensures cfg.blockData > 0 && cfg.blockData % 2 == 0 && cfg.packetSize >= 144
  {
    BlockSizes(t.ptrIn[NUM_SLOTS], fselAux);
    var p := PacketSize(t.ptrIn[NUM_SLOTS], fselAux);
    DaqConfig(t.ptrIn, p, BlockData(p), fselAux)
  }

  /**
   * `Temp = np.frombuffer(packet, "<i2")`, and when
   * `len(Temp) == PacketSize1Block * 500` the PacketSize1Block x 500
   * column-major matrix `Data`; a block of any other length is dropped.
   */
  function DecodeBlock(packet: seq<byte>, packetSize: nat): (d: Option<seq<seq<int>>>)
    requires |packet| % 2 == 0
    ensures d.Some? ==> IsMatrix(d.value, packetSize, BLOCK_COLS)
  {
    var temp := Samples(packet);
    if |temp| == packetSize * BLOCK_COLS then Some(ReshapeF(temp, packetSize, BLOCK_COLS))
    else None
  }

  /**
   * The length check passes exactly for packets of 2 x PacketSize1Block x
   * 500 bytes, so with PlotTime = 1 every packet of blockData bytes is
   * decoded.
   */
  lemma DecodeBlockAccepts(packet: seq<byte>, cfg: DaqConfig)
    requires Consistent(cfg) && |packet| % 2 == 0
    ensures DecodeBlock(packet, cfg.packetSize).Some? <==> |packet| == 2 * cfg.packetSize * BLOCK_COLS
    ensures DecodeBlock(packet, cfg.packetSize).Some? <==> |packet| == cfg.blockData
  {
  }

  /** Columns of the aux matrix: FsampVal[FSelAux] * PlotTime. */
  function AuxCols(fselAux: nat): nat
    requires fselAux < |FSAMP_VAL|
  {
    FSAMP_VAL[fselAux] * PLOT_TIME
  }

  /**
   * `Data[Ptr_IN[10]:-128, :]` reshaped column-major to one row of
   * 16 * FsampVal[FSelAux] * PlotTime entries and then column-major to 16
   * rows: the aux channels, one per row.  `ptrEnd` is Ptr_IN[10].
   */
  function AuxMatrix(data: seq<seq<int>>, ptrEnd: nat, fselAux: nat): (aux: seq<seq<int>>)
    requires fselAux < |SIZE_AUX| && IsMatrix(data, PacketSize(ptrEnd, fselAux), BLOCK_COLS)
    ensures IsMatrix(aux, 16, AuxCols(fselAux))
  {
    var rows := data[ptrEnd .. |data| - TRAILER_ROWS];
    AuxFits(fselAux);
    ReshapeF(FlattenF(rows, SIZE_AUX[fselAux], BLOCK_COLS), 16, AuxCols(fselAux))
  }

  /**
   * The aux extraction on a matrix of any height: the reshapes raise unless
   * rows Ptr_IN[10] .. -128 are exactly SizeAux[FSelAux] rows.
   */
  function AuxOf(data: seq<seq<int>>, ptrEnd: nat, fselAux: nat): (aux: Option<seq<seq<int>>>)
    requires fselAux < |SIZE_AUX| && IsMatrix(data, |data|, BLOCK_COLS)
    ensures aux.Some? <==> |data| == PacketSize(ptrEnd, fselAux)
    ensures aux.Some? ==> IsMatrix(aux.value, 16, AuxCols(fselAux))
  {
    if |data| == PacketSize(ptrEnd, fselAux) then Some(AuxMatrix(data, ptrEnd, fselAux)) else None
  }

  /**
   * Aux entry (r, c) is sample Ptr_IN[10] + k % SizeAux + (k / SizeAux) *
   * PacketSize1Block of the block, where k = r + 16 * c.
   */
  lemma AuxEntry(samples: seq<int>, ptrEnd: nat, fselAux: nat, r: nat, c: nat)
    requires fselAux < |SIZE_AUX| && |samples| == PacketSize(ptrEnd, fselAux) * BLOCK_COLS
    requires r < 16 && c < AuxCols(fselAux)
    ensures var a := SIZE_AUX[fselAux]; var k := r + 16 * c; var p := PacketSize(ptrEnd, fselAux);
      ptrEnd + k % a + (k / a) * p < |samples| &&
      AuxMatrix(ReshapeF(samples, p, BLOCK_COLS), ptrEnd, fselAux)[r][c]
        == samples[ptrEnd + k % a + (k / a) * p]
  {
    var a := SIZE_AUX[fselAux];
    var k := r + 16 * c;
    var p := PacketSize(ptrEnd, fselAux);
    AuxFits(fselAux);
    var data := ReshapeF(samples, p, BLOCK_COLS);
    var rows := data[ptrEnd .. p - TRAILER_ROWS];
    assert IsMatrix(rows, a, BLOCK_COLS);
    var flat := FlattenF(rows, a, BLOCK_COLS);
    ColumnMajorIndex(r, c, 16, AuxCols(fselAux));
    assert AuxMatrix(data, ptrEnd, fselAux)[r][c] == flat[k];
    SplitIndex(k, a, BLOCK_COLS);
    assert flat[k] == data[ptrEnd + k % a][k / a];
    ColumnMajorIndex(ptrEnd + k % a, k / a, p, BLOCK_COLS);
  }

  /** With FSelAux = 0, aux entry (r, c) is sample Ptr_IN[10] + r + c * PacketSize1Block. */
  lemma AuxEntryDefault(samples: seq<int>, ptrEnd: nat, r: nat, c: nat)
    requires |samples| == PacketSize(ptrEnd, 0) * BLOCK_COLS
    requires r < 16 && c < AuxCols(0)
    ensures ptrEnd + r + c * PacketSize(ptrEnd, 0) < |samples|
    ensures AuxMatrix(ReshapeF(samples, PacketSize(ptrEnd, 0), BLOCK_COLS), ptrEnd, 0)[r][c]
      == samples[ptrEnd + r + c * PacketSize(ptrEnd, 0)]
  {
    AuxEntry(samples, ptrEnd, 0, r, c);
    JoinIndex(r, c, 16);
  }

  /**
   * With FSelAux = 0 the aux rows are 16 rows of 500 samples, reshaped to
   * 16 x 500 and back: the aux matrix is exactly those rows of the block.
   */
  lemma AuxRowsDefault(data: seq<seq<int>>, ptrEnd: nat)
    requires IsMatrix(data, PacketSize(ptrEnd, 0), BLOCK_COLS)
    ensures AuxMatrix(data, ptrEnd, 0) == data[ptrEnd .. ptrEnd + 16]
  {
    var rows := data[ptrEnd .. |data| - TRAILER_ROWS];
    assert IsMatrix(rows, 16, BLOCK_COLS);
    ReshapeRoundTrip(FlattenF(rows, 16, BLOCK_COLS), rows, 16, BLOCK_COLS);
  }

  /** What one packet contributes to the output: its aux matrix, if the length check passes. */
  function PacketAux(packet: seq<byte>, cfg: DaqConfig): (aux: Option<seq<seq<int>>>)
    requires Consistent(cfg) && |packet| % 2 == 0
    ensures aux.Some? <==> |packet| == cfg.blockData
  {
    var d := DecodeBlock(packet, cfg.packetSize);
    if d.Some? then Some(AuxMatrix(d.value, cfg.ptrIn[NUM_SLOTS], cfg.fselAux)) else None
  }

  // ---------------------------------------------------------------------
  // The output of a receive loop.
  // ---------------------------------------------------------------------

  /** The bytes of the reads so far, in order. */
  function Joined(chunks: seq<seq<byte>>): seq<byte>
    decreases |chunks|
  {
    if chunks == [] then [] else Joined(chunks[..|chunks| - 1]) + chunks[|chunks| - 1]
  }

  lemma JoinedPrefix(chunks: seq<seq<byte>>, i: nat)
    requires i < |chunks|
    ensures Joined(chunks[..i + 1]) == Joined(chunks[..i]) + chunks[i]
  {
    assert chunks[..i + 1][..i] == chunks[..i];
  }

  /** The first read that returns no bytes (`if not chunk: break`), or |chunks| if none does. */
  function FirstEmpty(chunks: seq<seq<byte>>): (k: nat)
    ensures k <= |chunks|
    ensures forall j :: 0 <= j < k ==> chunks[j] != []
    ensures k < |chunks| ==> chunks[k] == []
    decreases |chunks|
  {
    if chunks == [] then 0
    else if chunks[0] == [] then 0
    else
      var k := FirstEmpty(chunks[1..]);
      assert forall j :: 1 <= j < k + 1 ==> chunks[j] == chunks[1..][j - 1];
      k + 1
  }

  predicate EvenPackets(ps: seq<seq<byte>>)
  {
    forall i :: 0 <= i < |ps| ==> |ps[i]| % 2 == 0
  }

  /** The aux matrices a run emits for the packets `ps`, in order, skipping packets of the wrong length. */
  function Emissions(ps: seq<seq<byte>>, cfg: DaqConfig): (e: seq<seq<seq<int>>>)
    requires Consistent(cfg) && EvenPackets(ps)
    ensures |e| <= |ps|
    ensures forall k :: 0 <= k < |e| ==> IsMatrix(e[k], 16, AuxCols(cfg.fselAux))
    decreases |ps|
  {
    if ps == [] then []
    else
      var front := Emissions(ps[..|ps| - 1], cfg);
      var aux := PacketAux(ps[|ps| - 1], cfg);
      if aux.Some? then front + [aux.value] else front
  }

  lemma EmissionsSnoc(ps: seq<seq<byte>>, p: seq<byte>, cfg: DaqConfig)
    requires Consistent(cfg) && EvenPackets(ps) && |p| % 2 == 0
    ensures EvenPackets(ps + [p])
    ensures Emissions(ps + [p], cfg) ==
      Emissions(ps, cfg) + (if PacketAux(p, cfg).Some? then [PacketAux(p, cfg).value] else [])
  {
    assert (ps + [p])[..|ps|] == ps;
  }

  /** Emitting for two runs of packets, one after the other, is emitting for their concatenation. */
  lemma {:induction false} EmissionsAppend(ps: seq<seq<byte>>, qs: seq<seq<byte>>, cfg: DaqConfig)
    requires Consistent(cfg) && EvenPackets(ps) && EvenPackets(qs)
    ensures EvenPackets(ps + qs)
    ensures Emissions(ps + qs, cfg) == Emissions(ps, cfg) + Emissions(qs, cfg)
    decreases |qs|
  {
    if qs == [] {
      assert ps + qs == ps;
    } else {
      var front, last := qs[..|qs| - 1], qs[|qs| - 1];
      assert qs == front + [last];
      assert ps + qs == (ps + front) + [last];
      EmissionsAppend(ps, front, cfg);
      EmissionsSnoc(ps + front, last, cfg);
      EmissionsSnoc(front, last, cfg);
    }
  }

  /** Every block cut at blockData bytes is even-sized. */
  lemma BlocksEven(s: seq<byte>, cfg: DaqConfig)
    requires Consistent(cfg) && cfg.blockData > 0
    ensures EvenPackets(Blocks(s, cfg.blockData))
  {
    BlocksSplit(s, cfg.blockData);
    var ps := Blocks(s, cfg.blockData);
    forall i | 0 <= i < |ps|
      ensures |ps[i]| % 2 == 0
    {
      assert ps[i] in ps;
    }
  }

  /**
   * Every block cut at blockData bytes passes the length check, so a run
   * emits exactly one aux matrix per block, in block order.
   */
  lemma {:induction false} EmissionsOfBlocks(ps: seq<seq<byte>>, cfg: DaqConfig)
    requires Consistent(cfg) && forall i :: 0 <= i < |ps| ==> |ps[i]| == cfg.blockData
    ensures EvenPackets(ps)
    ensures |Emissions(ps, cfg)| == |ps|
    ensures forall i :: 0 <= i < |ps| ==> Emissions(ps, cfg)[i] == PacketAux(ps[i], cfg).value
    decreases |ps|
  {
    BlockSizes(cfg.ptrIn[NUM_SLOTS], cfg.fselAux);
    if ps != [] {
      EmissionsOfBlocks(ps[..|ps| - 1], cfg);
    }
  }

  /**
   * `self.Data` after the packets `ps`: the matrix of the last packet that
   * passes the length check, or `d0` when none does.
   */
  function Latest(ps: seq<seq<byte>>, packetSize: nat, d0: Option<seq<seq<int>>>): (d: Option<seq<seq<int>>>)
    requires EvenPackets(ps)
    ensures d == d0 || (d.Some? && IsMatrix(d.value, packetSize, BLOCK_COLS))
    decreases |ps|
  {
    if ps == [] then d0
    else
      var d := DecodeBlock(ps[|ps| - 1], packetSize);
      if d.Some? then d else Latest(ps[..|ps| - 1], packetSize, d0)
  }

  lemma LatestSnoc(ps: seq<seq<byte>>, p: seq<byte>, packetSize: nat, d0: Option<seq<seq<int>>>)
    requires EvenPackets(ps) && |p| % 2 == 0
    ensures EvenPackets(ps + [p])
    ensures Latest(ps + [p], packetSize, d0) ==
      (if DecodeBlock(p, packetSize).Some? then DecodeBlock(p, packetSize) else Latest(ps, packetSize, d0))
  {
    assert (ps + [p])[..|ps|] == ps;
  }

  /** Decoding two runs of packets in turn is decoding their concatenation. */
  lemma {:induction false} LatestAppend(ps: seq<seq<byte>>, qs: seq<seq<byte>>, packetSize: nat, d0: Option<seq<seq<int>>>)
    requires EvenPackets(ps) && EvenPackets(qs)
    ensures EvenPackets(ps + qs)
    ensures Latest(ps + qs, packetSize, d0) == Latest(qs, packetSize, Latest(ps, packetSize, d0))
    decreases |qs|
  {
    if qs == [] {
      assert ps + qs == ps;
    } else {
      var front, last := qs[..|qs| - 1], qs[|qs| - 1];
      assert qs == front + [last];
      assert ps + qs == (ps + front) + [last];
      LatestAppend(ps, front, packetSize, d0);
      LatestSnoc(ps + front, last, packetSize, d0);
      LatestSnoc(front, last, packetSize, Latest(ps, packetSize, d0));
    }
  }

  /** `self.Temp` after the packets `ps`: the samples of the last one, or `t0` when there is none. */
  function LastSamples(ps: seq<seq<byte>>, t0: Option<seq<int>>): (t: Option<seq<int>>)
    requires EvenPackets(ps)
    ensures ps != [] ==> t.Some? && |t.value| == |ps[|ps| - 1]| / 2
    ensures ps == [] ==> t == t0
  {
    if ps == [] then t0 else Some(Samples(ps[|ps| - 1]))
  }

  /** When every packet is a full block, `self.Data` is always the last one. */
  lemma LatestIsLast(ps: seq<seq<byte>>, cfg: DaqConfig, d0: Option<seq<seq<int>>>)
    requires Consistent(cfg) && ps != [] && forall i :: 0 <= i < |ps| ==> |ps[i]| == cfg.blockData
    ensures EvenPackets(ps)
    ensures Latest(ps, cfg.packetSize, d0) == Some(ReshapeF(Samples(ps[|ps| - 1]), cfg.packetSize, BLOCK_COLS))
  {
    BlockSizes(cfg.ptrIn[NUM_SLOTS], cfg.fselAux);
  }

  /**
   * Of a stream cut into blocks, `self.Data` ends as the decode of the
   * last whole block, which always passes the length check.
   */
  lemma LatestOfStream(s: seq<byte>, cfg: DaqConfig, d0: Option<seq<seq<int>>>)
    requires Consistent(cfg) && cfg.blockData > 0
    ensures var ps := Blocks(s, cfg.blockData);
      EvenPackets(ps) &&
      (ps != [] ==> Latest(ps, cfg.packetSize, d0).Some? &&
                    Latest(ps, cfg.packetSize, d0) == DecodeBlock(ps[|ps| - 1], cfg.packetSize))
  {
    var ps := Blocks(s, cfg.blockData);
    BlocksEven(s, cfg);
    if ps != [] {
      BlocksSplit(s, cfg.blockData);
      forall k | 0 <= k < |ps|
        ensures |ps[k]| == cfg.blockData
      {
        assert ps[k] in ps;
      }
      LatestIsLast(ps, cfg, d0);
    }
  }
}
