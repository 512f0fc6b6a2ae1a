/**
 * The chip-register stores of src/BatMan.cpp and the decoders that GetData
 * and GetTempData apply to a received frame.
 *
 * A read of register `ReqID` returns a 72-byte frame (`Fluffer`), nine bytes
 * per chip for the cell and auxiliary registers and seven bytes per chip for
 * the chip-voltage and configuration registers. A word equal to 0xFFFF means
 * "no sample" and leaves its target field as it was.
 */
module Registers {
  import opened Common

  const ChipCount: nat := 8
  const SlotCount: nat := 15
  const FrameBytes: nat := 72

  /** The receive buffer `Fluffer`. */
  type Frame = f: seq<byte> | |f| == FrameBytes witness seq(72, i => 0)

  /** The uint16_t stores declared in include/BatMan.h. */
  datatype Store = Store(
    voltage: seq<seq<u16>>,   // Voltage[8][15], cell voltage in units of 1 mV
    chipV: seq<u16>,          // ChipV[8]
    temp1: seq<u16>,          // Temp1[8]
    volts5v: seq<u16>,        // Volts5v[8]
    temp2: seq<u16>,          // Temp2[8]
    temps: seq<u16>,          // Temps[8]
    cfg: seq<seq<u16>>)       // Cfg[8][2]

  /** Every store has the declared bounds: chip index < 8, slot < 15, config word < 2. */
  predicate Valid(s: Store)
  {
    && |s.voltage| == ChipCount
    && (forall h | 0 <= h < ChipCount :: |s.voltage[h]| == SlotCount)
    && |s.chipV| == ChipCount && |s.temp1| == ChipCount && |s.volts5v| == ChipCount
    && |s.temp2| == ChipCount && |s.temps| == ChipCount
    && |s.cfg| == ChipCount
    && (forall h | 0 <= h < ChipCount :: |s.cfg[h]| == 2)
  }

  function Zeros(n: nat): (z: seq<u16>)
    ensures |z| == n && forall i | 0 <= i < n :: z[i] == 0
  {
    seq(n, i => 0)
  }

  /** The zero-initialised stores at power-up. */
  function InitialStore(): (s: Store)
    ensures Valid(s)
    ensures forall h, y | 0 <= h < ChipCount && 0 <= y < SlotCount :: s.voltage[h][y] == 0
  {
    Store(seq(8, h => Zeros(15)), Zeros(8), Zeros(8), Zeros(8), Zeros(8), Zeros(8), seq(8, h => Zeros(2)))
  }

  // ------------------------------------------------------------ word access

  /** `Fluffer[i+1] * 256 + Fluffer[i]`: a little-endian word of the frame. */
  function LeWord(f: Frame, i: nat): u16
    requires i + 1 < FrameBytes
  {
    WordOf(f[i + 1], f[i])
  }

  /** `Fluffer[i] * 256 + Fluffer[i+1]`: a big-endian word of the frame. */
  function BeWord(f: Frame, i: nat): u16
    requires i + 1 < FrameBytes
  {
    WordOf(f[i], f[i + 1])
  }

  /** The value a field holds after a read returned raw word `w` decoding to `v`; `prev` is its value before. */
  function Sampled(prev: u16, w: u16, v: u16): (r: u16)
    ensures w == Sentinel ==> r == prev
    ensures w != Sentinel ==> r == v
  {
    if w == Sentinel then prev else v
  }

  /**
   * The uint16_t conversion of `tempvol / 12.5`: the cell voltage is the raw
   * word scaled by 2/25 and truncated toward zero.
   */
  function VoltageOf(w: u16): (r: u16)
    ensures 25 * r <= 2 * w < 25 * (r + 1)
    ensures r <= 5242
  {
    (2 * w) / 25
  }

  /** The truncation stated over the reals: `r <= w / 12.5 < r + 1`. */
  lemma VoltageOfIsTruncation(w: u16)
    ensures (VoltageOf(w) as real) <= (w as real) / 12.5 < (VoltageOf(w) as real) + 1.0
  {
    var r := VoltageOf(w);
    assert (w as real) / 12.5 == (2 * w) as real / 25.0;
    assert 25 * r <= 2 * w < 25 * (r + 1);
    assert (25 * r) as real <= (2 * w) as real < (25 * (r + 1)) as real;
  }

  // --------------------------------------------------------------- decoders

  /**
   * Registers 0x47+k (k = 0..4, cell groups A..E): slot 3k+j of chip h takes the
   * little-endian word at 9h+2j, scaled by VoltageOf.
   */
  function DecodeCells(s: Store, f: Frame, k: nat): (r: Store)
    requires Valid(s) && k < 5
    ensures Valid(r)
    ensures r.chipV == s.chipV && r.temp1 == s.temp1 && r.volts5v == s.volts5v
    ensures r.temp2 == s.temp2 && r.temps == s.temps && r.cfg == s.cfg
    ensures forall h, y | 0 <= h < ChipCount && 0 <= y < SlotCount && !(3 * k <= y < 3 * k + 3) ::
      r.voltage[h][y] == s.voltage[h][y]
  {
    s.(voltage := seq(8, h requires 0 <= h < 8 => seq(15, y requires 0 <= y < 15 =>
      if 3 * k <= y < 3 * k + 3
      then Sampled(s.voltage[h][y], LeWord(f, 9 * h + 2 * (y - 3 * k)), VoltageOf(LeWord(f, 9 * h + 2 * (y - 3 * k))))
      else s.voltage[h][y])))
  }

  /** Register 0x4C: ChipV[h] is the little-endian word at 7h+2. */
  function DecodeChipV(s: Store, f: Frame): (r: Store)
    requires Valid(s)
    ensures Valid(r)
    ensures r.voltage == s.voltage && r.temp1 == s.temp1 && r.volts5v == s.volts5v
    ensures r.temp2 == s.temp2 && r.temps == s.temps && r.cfg == s.cfg
  {
    s.(chipV := seq(8, h requires 0 <= h < 8 => Sampled(s.chipV[h], LeWord(f, 7 * h + 2), LeWord(f, 7 * h + 2))))
  }

  /** The chips whose 5 V word arrives byte-reversed. */
  predicate Reversed5v(h: nat)
  {
    h == 0 || h == 3 || h == 5 || h == 7
  }

  /**
   * Register 0x4D (auxiliary A): Temp1, Volts5v and Temp2 are the
   * little-endian words at 9h, 9h+2 and 9h+4; Volts5v is byte-swapped for the
   * chips of Reversed5v.
   */
  function DecodeAux(s: Store, f: Frame): (r: Store)
    requires Valid(s)
    ensures Valid(r)
    ensures r.voltage == s.voltage && r.chipV == s.chipV && r.temps == s.temps && r.cfg == s.cfg
  {
    s.(temp1 := seq(8, h requires 0 <= h < 8 => Sampled(s.temp1[h], LeWord(f, 9 * h), LeWord(f, 9 * h))),
       volts5v := seq(8, h requires 0 <= h < 8 =>
         var w := LeWord(f, 9 * h + 2);
         Sampled(s.volts5v[h], w, if Reversed5v(h) then Rev16(w) else w)),
       temp2 := seq(8, h requires 0 <= h < 8 => Sampled(s.temp2[h], LeWord(f, 9 * h + 4), LeWord(f, 9 * h + 4))))
  }

  /** Register 0x50 (configuration): Cfg[h][0] and Cfg[h][1] are the big-endian words at 7h and 7h+2. */
  function DecodeCfg(s: Store, f: Frame): (r: Store)
    requires Valid(s)
    ensures Valid(r)
    ensures r.voltage == s.voltage && r.chipV == s.chipV && r.temp1 == s.temp1
    ensures r.volts5v == s.volts5v && r.temp2 == s.temp2 && r.temps == s.temps
  {
    s.(cfg := seq(8, h requires 0 <= h < 8 =>
      [Sampled(s.cfg[h][0], BeWord(f, 7 * h), BeWord(f, 7 * h)),
       Sampled(s.cfg[h][1], BeWord(f, 7 * h + 2), BeWord(f, 7 * h + 2))]))
  }

  /** The `switch (ReqID)` of GetData; any other register (0x4E, 0x4F, ...) changes nothing. */
  function Decode(s: Store, id: bv8, f: Frame): (r: Store)
    requires Valid(s)
    ensures Valid(r)
    ensures !(0x47 <= id <= 0x4D || id == 0x50) ==> r == s
  {
    if 0x47 <= id <= 0x4B then DecodeCells(s, f, (id - 0x47) as nat)
    else if id == 0x4C then DecodeChipV(s, f)
    else if id == 0x4D then DecodeAux(s, f)
    else if id == 0x50 then DecodeCfg(s, f)
    else s
  }

  /**
   * GetTempData: `replies` are the 32 words clocked in after the 0x0E1B request;
   * Temps[g] is reply 4g+1, kept raw.
   */
  function DecodeTemps(s: Store, replies: seq<u16>): (r: Store)
    requires Valid(s) && |replies| == 32
    ensures Valid(r)
    ensures r.voltage == s.voltage && r.chipV == s.chipV && r.temp1 == s.temp1
    ensures r.volts5v == s.volts5v && r.temp2 == s.temp2 && r.cfg == s.cfg
  {
    s.(temps := seq(8, g requires 0 <= g < 8 => Sampled(s.temps[g], replies[4 * g + 1], replies[4 * g + 1])))
  }

  // --------------------------------------------------------------- framing

  /**
   * The receive loop: each reply word is stored high byte first, so word k
   * fills bytes 2k and 2k+1 of the frame.
   */
  function FrameOf(replies: seq<u16>): (f: Frame)
    requires |replies| == FrameBytes / 2
  {
    seq(72, i requires 0 <= i < 72 => if i % 2 == 0 then Hi(replies[i / 2]) else Lo(replies[i / 2]))
  }

  /** Reading the frame back big-endian at an even offset yields the reply word stored there. */
  lemma FrameOfWords(replies: seq<u16>, k: nat)
    requires |replies| == FrameBytes / 2 && k < FrameBytes / 2
    ensures BeWord(FrameOf(replies), 2 * k) == replies[k]
    ensures LeWord(FrameOf(replies), 2 * k) == Rev16(replies[k])
  {
    var f := FrameOf(replies);
    assert f[2 * k] == Hi(replies[k]) && f[2 * k + 1] == Lo(replies[k]);
    WordOfSplit(replies[k], 0, 0);
    Rev16OfWord(Hi(replies[k]), Lo(replies[k]));
  }

  /** A frame of all-one bytes: every chip answered "no sample". */
  const Silent: Frame := seq(72, i => 0xFF)

  /** A silent frame leaves every store bit-for-bit unchanged, whatever register was read. */
  lemma SilentFrameChangesNothing(s: Store, id: bv8)
    requires Valid(s)
    ensures Decode(s, id, Silent) == s
  {
    forall i | 0 <= i < FrameBytes - 1
      ensures LeWord(Silent, i) == Sentinel && BeWord(Silent, i) == Sentinel
    {
      WordOfSentinel(0xFF, 0xFF);
    }
    if 0x47 <= id <= 0x4B {
      var r := Decode(s, id, Silent);
      forall h | 0 <= h < ChipCount ensures r.voltage[h] == s.voltage[h] { }
    } else if id == 0x4D {
      var r := Decode(s, id, Silent);
      assert r.volts5v == s.volts5v;
    } else if id == 0x50 {
      var r := Decode(s, id, Silent);
      forall h | 0 <= h < ChipCount ensures r.cfg[h] == s.cfg[h] { }
    }
  }

  // ------------------------------------------------- frames the chips send

  /** Byte `half` (0 or 1) of word `w` as it appears on the wire in the given byte order. */
  function WireByte(w: u16, half: nat, bigEndian: bool): byte
  {
    if (half == 0) == bigEndian then Hi(w) else Lo(w)
  }

  /**
   * A frame as the chips lay it out: chip h owns `stride` bytes starting at
   * stride*h, the first `count` words of which are `word(h, 0..count-1)`; the
   * remaining bytes are PEC and padding, left zero here.
   */
  function Laid(stride: nat, count: nat, word: (nat, nat) -> u16, bigEndian: bool): Frame
    requires stride == 7 || stride == 9
    requires 2 * count <= stride
  {
    seq(72, i requires 0 <= i < 72 => LaidByte(stride, count, word, bigEndian, i))
  }

  /** Byte i of a laid-out frame. */
  function LaidByte(stride: nat, count: nat, word: (nat, nat) -> u16, bigEndian: bool, i: nat): byte
    requires stride == 7 || stride == 9
  {
    var h: nat, o: nat := if stride == 9 then i / 9 else i / 7, if stride == 9 then i % 9 else i % 7;
    if h < ChipCount && o < 2 * count then WireByte(word(h, o / 2), o % 2, bigEndian) else 0
  }

  lemma Stride9(h: nat, o: nat)
    requires o < 9
    ensures (9 * h + o) / 9 == h && (9 * h + o) % 9 == o
  {
  }

  lemma Stride7(h: nat, o: nat)
    requires o < 7
    ensures (7 * h + o) / 7 == h && (7 * h + o) % 7 == o
  {
  }

  /** Word j of chip h reads back from a nine-byte-stride frame in the byte order it was laid in. */
  lemma LaidWord9(count: nat, word: (nat, nat) -> u16, bigEndian: bool, h: nat, j: nat)
    requires 2 * count <= 9 && h < ChipCount && j < count
    ensures bigEndian ==> BeWord(Laid(9, count, word, bigEndian), 9 * h + 2 * j) == word(h, j)
    ensures !bigEndian ==> LeWord(Laid(9, count, word, bigEndian), 9 * h + 2 * j) == word(h, j)
  {
    var f := Laid(9, count, word, bigEndian);
    var i := 9 * h + 2 * j;
    Stride9(h, 2 * j);
    Stride9(h, 2 * j + 1);
    assert f[i] == LaidByte(9, count, word, bigEndian, i) == WireByte(word(h, j), 0, bigEndian);
    assert f[i + 1] == LaidByte(9, count, word, bigEndian, i + 1) == WireByte(word(h, j), 1, bigEndian);
    WordOfSplit(word(h, j), 0, 0);
  }

  /** Word j of chip h reads back from a seven-byte-stride frame in the byte order it was laid in. */
  lemma LaidWord7(count: nat, word: (nat, nat) -> u16, bigEndian: bool, h: nat, j: nat)
    requires 2 * count <= 7 && h < ChipCount && j < count
    ensures bigEndian ==> BeWord(Laid(7, count, word, bigEndian), 7 * h + 2 * j) == word(h, j)
    ensures !bigEndian ==> LeWord(Laid(7, count, word, bigEndian), 7 * h + 2 * j) == word(h, j)
  {
    var f := Laid(7, count, word, bigEndian);
    var i := 7 * h + 2 * j;
    Stride7(h, 2 * j);
    Stride7(h, 2 * j + 1);
    assert f[i] == LaidByte(7, count, word, bigEndian, i) == WireByte(word(h, j), 0, bigEndian);
    assert f[i + 1] == LaidByte(7, count, word, bigEndian, i + 1) == WireByte(word(h, j), 1, bigEndian);
    WordOfSplit(word(h, j), 0, 0);
  }

  /** The cell-group frame for raw words `raw[h][j]`: nine bytes per chip, three little-endian words. */
  function CellFrame(raw: seq<seq<u16>>): Frame
  {
    Laid(9, 3, (h: nat, j: nat) => if h < |raw| && j < |raw[h]| then raw[h][j] else 0, false)
  }

  /** Decoding cell group k of a chip-sent frame scales every sampled word into slots 3k..3k+2. */
  lemma CellRoundTrip(s: Store, raw: seq<seq<u16>>, k: nat, h: nat, j: nat)
    requires Valid(s) && k < 5 && h < ChipCount && j < 3
    requires |raw| == ChipCount && forall c | 0 <= c < ChipCount :: |raw[c]| == 3
    ensures DecodeCells(s, CellFrame(raw), k).voltage[h][3 * k + j]
         == Sampled(s.voltage[h][3 * k + j], raw[h][j], VoltageOf(raw[h][j]))
  {
    LaidWord9(3, (h: nat, j: nat) => if h < |raw| && j < |raw[h]| then raw[h][j] else 0, false, h, j);
  }

  /** The chip-voltage frame: seven bytes per chip, the word little-endian at offset 2. */
  function ChipVFrame(w: seq<u16>): Frame
  {
    Laid(7, 2, (h: nat, j: nat) => if j == 1 && h < |w| then w[h] else 0, false)
  }

  lemma ChipVRoundTrip(s: Store, w: seq<u16>, h: nat)
    requires Valid(s) && |w| == ChipCount && h < ChipCount
    ensures DecodeChipV(s, ChipVFrame(w)).chipV[h] == Sampled(s.chipV[h], w[h], w[h])
  {
    LaidWord7(2, (h: nat, j: nat) => if j == 1 && h < |w| then w[h] else 0, false, h, 1);
  }

  /** The word the auxiliary frame carries for chip h at offset 2j, as it appears on the wire. */
  function AuxWire(t1: seq<u16>, v5: seq<u16>, t2: seq<u16>, h: nat, j: nat): u16
  {
    if h >= ChipCount || |t1| != ChipCount || |v5| != ChipCount || |t2| != ChipCount then 0
    else if j == 0 then t1[h]
    else if j == 1 then (if Reversed5v(h) then Rev16(v5[h]) else v5[h])
    else t2[h]
  }

  /**
   * The auxiliary frame: per chip the little-endian words Temp1, 5 V and
   * Temp2; chips of Reversed5v put the 5 V word on the wire byte-swapped.
   */
  function AuxFrame(t1: seq<u16>, v5: seq<u16>, t2: seq<u16>): Frame
  {
    Laid(9, 3, (h: nat, j: nat) => AuxWire(t1, v5, t2, h, j), false)
  }

  /** Decoding a chip-sent auxiliary frame recovers both sampled temperatures of every chip. */
  lemma AuxTempRoundTrip(s: Store, t1: seq<u16>, v5: seq<u16>, t2: seq<u16>, h: nat)
    requires Valid(s) && h < ChipCount
    requires |t1| == ChipCount && |v5| == ChipCount && |t2| == ChipCount
    ensures DecodeAux(s, AuxFrame(t1, v5, t2)).temp1[h] == Sampled(s.temp1[h], t1[h], t1[h])
    ensures DecodeAux(s, AuxFrame(t1, v5, t2)).temp2[h] == Sampled(s.temp2[h], t2[h], t2[h])
  {
    var f := AuxFrame(t1, v5, t2);
    LaidWord9(3, (h: nat, j: nat) => AuxWire(t1, v5, t2, h, j), false, h, 0);
    LaidWord9(3, (h: nat, j: nat) => AuxWire(t1, v5, t2, h, j), false, h, 2);
    assert LeWord(f, 9 * h) == t1[h] && LeWord(f, 9 * h + 4) == t2[h];
    var r := DecodeAux(s, f);
    assert r.temp1[h] == Sampled(s.temp1[h], LeWord(f, 9 * h), LeWord(f, 9 * h));
    assert r.temp2[h] == Sampled(s.temp2[h], LeWord(f, 9 * h + 4), LeWord(f, 9 * h + 4));
  }

  /**
   * Decoding a chip-sent auxiliary frame recovers every sampled 5 V value, the
   * swap on the wire and the swap in the decoder cancelling for Reversed5v chips.
   */
  lemma Aux5vRoundTrip(s: Store, t1: seq<u16>, v5: seq<u16>, t2: seq<u16>, h: nat)
    requires Valid(s) && h < ChipCount
    requires |t1| == ChipCount && |v5| == ChipCount && |t2| == ChipCount
    ensures DecodeAux(s, AuxFrame(t1, v5, t2)).volts5v[h] == Sampled(s.volts5v[h], v5[h], v5[h])
  {
    LaidWord9(3, (h: nat, j: nat) => AuxWire(t1, v5, t2, h, j), false, h, 1);
    Rev16Sentinel(v5[h]);
    Rev16Involution(v5[h]);
  }

  /** The configuration frame: seven bytes per chip, two big-endian words at offsets 0 and 2. */
  function CfgFrame(c: seq<seq<u16>>): Frame
  {
    Laid(7, 2, (h: nat, j: nat) => if h < |c| && j < |c[h]| then c[h][j] else 0, true)
  }

  lemma CfgRoundTrip(s: Store, c: seq<seq<u16>>, h: nat, j: nat)
    requires Valid(s) && h < ChipCount && j < 2
    requires |c| == ChipCount && forall g | 0 <= g < ChipCount :: |c[g]| == 2
    ensures DecodeCfg(s, CfgFrame(c)).cfg[h][j] == Sampled(s.cfg[h][j], c[h][j], c[h][j])
  {
    LaidWord7(2, (h: nat, j: nat) => if h < |c| && j < |c[h]| then c[h][j] else 0, true, h, j);
    DecodeCfgAt(s, CfgFrame(c), h, j);
  }

  /** Cfg[h][j] is read from the big-endian word at 7h + 2j, whatever the frame. */
  lemma DecodeCfgAt(s: Store, f: Frame, h: nat, j: nat)
    requires Valid(s) && h < ChipCount && j < 2
    ensures DecodeCfg(s, f).cfg[h][j] == Sampled(s.cfg[h][j], BeWord(f, 7 * h + 2 * j), BeWord(f, 7 * h + 2 * j))
  {
  }

  /** The 32 replies a temperature request yields when sensor g reports `t[g]`. */
  function TempReplies(t: seq<u16>): (r: seq<u16>)
    requires |t| == ChipCount
    ensures |r| == 32
  {
    seq(32, i requires 0 <= i < 32 => if i % 4 == 1 then t[i / 4] else Sentinel)
  }

  lemma TempRoundTrip(s: Store, t: seq<u16>, g: nat)
    requires Valid(s) && |t| == ChipCount && g < ChipCount
    ensures DecodeTemps(s, TempReplies(t)).temps[g] == Sampled(s.temps[g], t[g], t[g])
  {
    assert (4 * g + 1) % 4 == 1 && (4 * g + 1) / 4 == g;
  }
}
