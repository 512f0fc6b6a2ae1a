/**
 * The loops of GetData written out step by step, with explicit bounds on
 * every access to `Fluffer` (72 bytes), `Voltage` (8 rows) and `ChipV`
 * (8 entries).
 *
 * As written, the receive loop runs `count2 = 0, 2, ..., 72` and so stores a
 * 37th reply word at Fluffer[72] and Fluffer[73], and the decoders of
 * registers 0x47..0x4C run `h = 0..8` and so touch a ninth chip that the
 * stores do not have. The corrected loops stop after 36 words and 8 chips;
 * they compute exactly Registers.FrameOf and Registers.DecodeCells /
 * DecodeChipV, which the rest of the model uses.
 */
module DecodeLoops {
  import opened Common
  import opened Registers

  // ------------------------------------------------------------ receive loop

  /** Byte i of the frame the first words of `replies` fill, high byte first. */
  function ReplyByte(replies: seq<u16>, i: nat): byte
    requires i / 2 < |replies|
  {
    if i % 2 == 0 then Hi(replies[i / 2]) else Lo(replies[i / 2])
  }

  /**
   * The receive loop as written (`count2 <= 72`): 37 reply words are
   * clocked in; the first 36 fill the frame and the 37th is stored at
   * positions 72 and 73, past the end of the 72-byte buffer.
   */
  method ReceiveAsWritten(replies: seq<u16>) returns (f: Frame, overrun: seq<nat>)
    requires |replies| == FrameBytes / 2 + 1
    ensures f == FrameOf(replies[..FrameBytes / 2])
    ensures overrun == [72, 73]
    ensures forall i | 0 <= i < |overrun| :: overrun[i] >= FrameBytes
  {
    var buf: seq<byte> := seq(72, i => 0);
    overrun := [];
    var count2 := 0;
    while count2 <= 72
      invariant count2 % 2 == 0 && count2 <= 74 && |buf| == 72
      invariant forall i | 0 <= i < count2 && i < 72 :: buf[i] == ReplyByte(replies, i)
      invariant overrun == if count2 > 72 then [72, 73] else []
      decreases 74 - count2
    {
      var w := replies[count2 / 2];
      if count2 < 72 {
        buf := buf[count2 := Hi(w)];
      } else {
        overrun := overrun + [count2];
      }
      if count2 + 1 < 72 {
        buf := buf[count2 + 1 := Lo(w)];
      } else {
        overrun := overrun + [count2 + 1];
      }
      count2 := count2 + 2;
    }
    f := buf;
    assert f == FrameOf(replies[..FrameBytes / 2]);
  }

  /** The corrected receive loop (`count2 < 72`): 36 reply words fill the frame exactly. */
  method Receive(replies: seq<u16>) returns (f: Frame)
    requires |replies| == FrameBytes / 2
    ensures f == FrameOf(replies)
    ensures forall k | 0 <= k < FrameBytes / 2 :: BeWord(f, 2 * k) == replies[k]
  {
    var buf: seq<byte> := seq(72, i => 0);
    var count2 := 0;
    while count2 < 72
      invariant count2 % 2 == 0 && count2 <= 72 && |buf| == 72
      invariant forall i | 0 <= i < count2 :: buf[i] == ReplyByte(replies, i)
      decreases 72 - count2
    {
      var w := replies[count2 / 2];
      buf := buf[count2 := Hi(w)][count2 + 1 := Lo(w)];
      count2 := count2 + 2;
    }
    f := buf;
    assert f == FrameOf(replies);
    forall k | 0 <= k < FrameBytes / 2 ensures BeWord(f, 2 * k) == replies[k] {
      FrameOfWords(replies, k);
    }
  }

  // ------------------------------------------------------- cell decode loops

  /** Row h of register 0x47+k: slots 3k..3k+2 of chip h from the little-endian words at 9h, 9h+2, 9h+4. */
  function CellRow(row: seq<u16>, f: Frame, k: nat, h: nat): seq<u16>
    requires |row| == SlotCount && k < 5 && h < ChipCount
  {
    seq(15, y requires 0 <= y < 15 =>
      if 3 * k <= y < 3 * k + 3
      then Sampled(row[y], LeWord(f, 9 * h + 2 * (y - 3 * k)), VoltageOf(LeWord(f, 9 * h + 2 * (y - 3 * k))))
      else row[y])
  }

  /**
   * The `for (h = 0; h < rows; h++)` loop of registers 0x47..0x4B from row h
   * on: None as soon as a row would read past Fluffer or write past Voltage.
   */
  function CellRows(s: Store, f: Frame, k: nat, h: nat, rows: nat): (r: Option<Store>)
    requires Valid(s) && k < 5 && h <= rows
    ensures r.Some? ==> Valid(r.value)
    decreases rows - h
  {
    if h == rows then Some(s)
    else if h >= |s.voltage| || 9 * h + 2 * 2 + 1 >= FrameBytes then None
    else CellRows(s.(voltage := s.voltage[h := CellRow(s.voltage[h], f, k, h)]), f, k, h + 1, rows)
  }

  /** The loop as written runs h = 0..8: row 8 reads Fluffer[72..77] and writes Voltage[8], whatever the frame. */
  lemma CellLoopOverruns(s: Store, f: Frame, k: nat)
    requires Valid(s) && k < 5
    ensures CellRows(s, f, k, 0, ChipCount + 1) == None
  {
    CellRowsReachEnd(s, f, k, 0, ChipCount + 1);
  }

  /** Rows 0..7 are always within bounds, so the loop reaches row 8 and fails there when it has nine rows to do. */
  lemma {:induction false} CellRowsReachEnd(s: Store, f: Frame, k: nat, h: nat, rows: nat)
    requires Valid(s) && k < 5 && h <= ChipCount && rows == ChipCount + 1
    ensures CellRows(s, f, k, h, rows) == None
    decreases ChipCount - h
  {
    if h < ChipCount {
      CellRowsReachEnd(s.(voltage := s.voltage[h := CellRow(s.voltage[h], f, k, h)]), f, k, h + 1, rows);
    }
  }

  /** The state after rows 0..h-1 of the corrected loop: those rows decoded, the rest as before. */
  function CellsUpTo(s: Store, f: Frame, k: nat, h: nat): Store
    requires Valid(s) && k < 5
  {
    s.(voltage := seq(8, i requires 0 <= i < 8 => if i < h then CellRow(s.voltage[i], f, k, i) else s.voltage[i]))
  }

  lemma CellsUpToNext(s: Store, f: Frame, k: nat, h: nat)
    requires Valid(s) && k < 5 && h < ChipCount
    ensures Valid(CellsUpTo(s, f, k, h))
    ensures var t := CellsUpTo(s, f, k, h);
      t.(voltage := t.voltage[h := CellRow(t.voltage[h], f, k, h)]) == CellsUpTo(s, f, k, h + 1)
  {
  }

  lemma {:induction false} CellRowsFrom(s: Store, f: Frame, k: nat, h: nat)
    requires Valid(s) && k < 5 && h <= ChipCount
    ensures Valid(CellsUpTo(s, f, k, h))
    ensures CellRows(CellsUpTo(s, f, k, h), f, k, h, ChipCount) == Some(CellsUpTo(s, f, k, ChipCount))
    decreases ChipCount - h
  {
    if h < ChipCount {
      CellsUpToNext(s, f, k, h);
      CellRowsFrom(s, f, k, h + 1);
    }
  }

  /** The corrected loop (h < 8) stays within bounds and computes Registers.DecodeCells. */
  lemma CellLoopCorrected(s: Store, f: Frame, k: nat)
    requires Valid(s) && k < 5
    ensures CellRows(s, f, k, 0, ChipCount) == Some(DecodeCells(s, f, k))
  {
    CellRowsFrom(s, f, k, 0);
    assert CellsUpTo(s, f, k, 0) == s;
    var a, b := CellsUpTo(s, f, k, ChipCount), DecodeCells(s, f, k);
    forall h | 0 <= h < ChipCount ensures a.voltage[h] == b.voltage[h] {
      assert |a.voltage[h]| == |b.voltage[h]| == SlotCount;
      forall y | 0 <= y < SlotCount ensures a.voltage[h][y] == b.voltage[h][y] { }
    }
    assert a.voltage == b.voltage;
  }

  // --------------------------------------------------- chip-voltage loop

  /**
   * The `for (h = 0; h < rows; h++)` loop of register 0x4C from row h on:
   * None as soon as it would read past Fluffer or write past ChipV.
   */
  function ChipVRows(s: Store, f: Frame, h: nat, rows: nat): (r: Option<Store>)
    requires Valid(s) && h <= rows
    ensures r.Some? ==> Valid(r.value)
    decreases rows - h
  {
    if h == rows then Some(s)
    else if 7 * h + 3 >= FrameBytes || h >= |s.chipV| then None
    else
      var w := LeWord(f, 7 * h + 2);
      ChipVRows(s.(chipV := s.chipV[h := Sampled(s.chipV[h], w, w)]), f, h + 1, rows)
  }

  /** As written (h = 0..8) the reads stay inside Fluffer but row 8 writes ChipV[8], past the store. */
  lemma {:induction false} ChipVLoopOverruns(s: Store, f: Frame, h: nat)
    requires Valid(s) && h <= ChipCount
    ensures ChipVRows(s, f, h, ChipCount + 1) == None
    ensures 7 * ChipCount + 3 < FrameBytes
    decreases ChipCount - h
  {
    if h < ChipCount {
      var w := LeWord(f, 7 * h + 2);
      ChipVLoopOverruns(s.(chipV := s.chipV[h := Sampled(s.chipV[h], w, w)]), f, h + 1);
    }
  }

  /** The state after rows 0..h-1 of the corrected 0x4C loop. */
  function ChipVUpTo(s: Store, f: Frame, h: nat): Store
    requires Valid(s)
  {
    s.(chipV := seq(8, i requires 0 <= i < 8 =>
      if i < h then Sampled(s.chipV[i], LeWord(f, 7 * i + 2), LeWord(f, 7 * i + 2)) else s.chipV[i]))
  }

  lemma {:induction false} ChipVRowsFrom(s: Store, f: Frame, h: nat)
    requires Valid(s) && h <= ChipCount
    ensures Valid(ChipVUpTo(s, f, h))
    ensures ChipVRows(ChipVUpTo(s, f, h), f, h, ChipCount) == Some(ChipVUpTo(s, f, ChipCount))
    decreases ChipCount - h
  {
    if h < ChipCount {
      var t := ChipVUpTo(s, f, h);
      var w := LeWord(f, 7 * h + 2);
      assert t.(chipV := t.chipV[h := Sampled(t.chipV[h], w, w)]) == ChipVUpTo(s, f, h + 1);
      ChipVRowsFrom(s, f, h + 1);
    }
  }

  /** The corrected loop (h < 8) computes Registers.DecodeChipV. */
  lemma ChipVLoopCorrected(s: Store, f: Frame)
    requires Valid(s)
    ensures ChipVRows(s, f, 0, ChipCount) == Some(DecodeChipV(s, f))
  {
    ChipVRowsFrom(s, f, 0);
    assert ChipVUpTo(s, f, 0) == s;
    assert ChipVUpTo(s, f, ChipCount) == DecodeChipV(s, f);
  }
}
