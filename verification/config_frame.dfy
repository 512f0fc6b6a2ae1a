/**
 * WriteCfg: the 25-word configuration write that carries the per-chip
 * balance commands to the chain. Each call balances only the slots of one
 * parity, so that no two neighbouring cells of a chip bleed at once, and
 * protects each chip's data with a CRC-14.
 */
module ConfigFrame {
  import opened Common
  import opened Bits
  import opened Bus
  import Checksum

  /** Word 0 of the frame: the write-configuration command with its PEC byte. */
  const WriteCommand: u16 := 0x112F

  /** First word of each chip's group: configuration register 0xF3, offset 0. */
  const RegisterWord: u16 := 0xF300

  /** The byte mask of a pass: 0x55 keeps slots 0, 2, 4, ... when BalEven is set, 0xAA keeps slots 1, 3, 5, ... otherwise. */
  function ByteMask(balEven: bool): byte
  {
    if balEven then 0x55 else 0xAA
  }

  /** The same mask over all sixteen slots of a command. */
  function WordMask(balEven: bool): u16
  {
    if balEven then 0x5555 else 0xAAAA
  }

  /** A slot survives the pass mask exactly when its parity matches the pass. */
  lemma MaskBits(balEven: bool, k: nat)
    requires k < 16
    ensures Bit(WordMask(balEven), k) <==> (k % 2 == 0 <==> balEven)
    ensures k < 8 ==> (Bit(ByteMask(balEven), k) <==> (k % 2 == 0 <==> balEven))
  {
    AlternatingWordMasks(k);
    if k < 8 {
      AlternatingMasks(k);
    }
  }

  /** The share of command c a pass balances: `c & 0x5555` when BalEven is set, `c & 0xAAAA` otherwise. */
  function PassShare(c: u16, balEven: bool): u16
  {
    AndBound(c, WordMask(balEven), 16);
    Pow2Facts();
    And(c, WordMask(balEven), 16)
  }

  /** A byte of a command after the pass mask, as `tempData[2]`/`tempData[3]` hold it. */
  function MaskByte(b: byte, balEven: bool): byte
  {
    AndBound(b, ByteMask(balEven), 8);
    Pow2Facts();
    And(b, ByteMask(balEven), 8)
  }

  /** Slot k is in the pass's share exactly when it is set in the command and has the pass parity. */
  lemma PassShareBits(c: u16, balEven: bool, k: nat)
    ensures Bit(PassShare(c, balEven), k) <==> k < 16 && Bit(c, k) && (k % 2 == 0 <==> balEven)
  {
    AndBit(c, WordMask(balEven), 16, k);
    if k < 16 {
      MaskBits(balEven, k);
    }
  }

  /** Masking the two bytes of a command separately and reassembling them gives the pass's share. */
  lemma MaskedBytesAreShare(c: u16, balEven: bool)
    ensures WordOf(MaskByte(Hi(c), balEven), MaskByte(Lo(c), balEven)) == PassShare(c, balEven)
  {
    var t2, t3 := MaskByte(Lo(c), balEven), MaskByte(Hi(c), balEven);
    var lhs, rhs := WordOf(t3, t2), PassShare(c, balEven);
    forall k | 0 <= k < 16 ensures Bit(lhs, k) == Bit(rhs, k) {
      WordBits(t3, t2, k);
      WordBits(Hi(c), Lo(c), k);
      assert Hi(c) * 256 + Lo(c) == c;
      PassShareBits(c, balEven, k);
      if k < 8 {
        AndBit(Lo(c), ByteMask(balEven), 8, k);
        MaskBits(balEven, k);
      } else {
        AndBit(Hi(c), ByteMask(balEven), 8, k - 8);
        MaskBits(balEven, k - 8);
        assert (k - 8) % 2 == k % 2;
      }
    }
    Pow2Facts();
    BitsDetermine(lhs, rhs, 16);
  }

  /**
   * The balance word chip h receives: the masked low byte of its command
   * goes out first, in the high half of the word (`tempData[3] + (tempData[2] << 8)`),
   * so byte-swapping the word gives back the pass's share of the command.
   */
  function BalanceWord(c: u16, balEven: bool): (w: u16)
    ensures Rev16(w) == PassShare(c, balEven)
  {
    var t2, t3 := MaskByte(Lo(c), balEven), MaskByte(Hi(c), balEven);
    Rev16OfWord(t2, t3);
    MaskedBytesAreShare(c, balEven);
    WordOf(t2, t3)
  }

  /** No pass ever asks a chip to balance two neighbouring slots. */
  lemma NoAdjacentSlots(c: u16, balEven: bool, k: nat)
    ensures !(Bit(PassShare(c, balEven), k) && Bit(PassShare(c, balEven), k + 1))
  {
    PassShareBits(c, balEven, k);
    PassShareBits(c, balEven, k + 1);
  }

  /** The two passes split a command into shares with no slot in common that add up to the command. */
  lemma PassesPartition(c: u16, balEven: bool)
    ensures PassShare(c, balEven) + PassShare(c, !balEven) == c
    ensures forall k :: !(Bit(PassShare(c, balEven), k) && Bit(PassShare(c, !balEven), k))
  {
    Pow2Facts();
    AndComplement(c, 0x5555, 16);
    forall k ensures !(Bit(PassShare(c, balEven), k) && Bit(PassShare(c, !balEven), k)) {
      PassShareBits(c, balEven, k);
      PassShareBits(c, !balEven, k);
    }
  }

  /** The PEC word that follows balance word w. */
  function Pec(w: u16): (p: u16)
    ensures p < 0x4000
  {
    Checksum.ConfigPec(w)
  }

  /**
   * Word r (0, 1 or 2) of the group that carries command c: the register
   * word, the balance word, and `pec` of the balance word.
   */
  function GroupWord(c: u16, balEven: bool, r: nat, pec: u16 -> u16): u16
  {
    if r == 0 then RegisterWord
    else if r == 1 then BalanceWord(c, balEven)
    else pec(BalanceWord(c, balEven))
  }

  /**
   * The layout of the configuration frame for a given PEC function: word 0
   * is the write command and chip h (h < 8) contributes the register word,
   * its balance word and the PEC that protects it. The first group on the
   * wire is for the far end of the chain, so group h carries `CellBalCmd[7-h]`.
   */
  function Layout(cmds: seq<u16>, balEven: bool, pec: u16 -> u16): seq<u16>
    requires |cmds| == 8
  {
    seq(25, i requires 0 <= i < 25 =>
      if i == 0 then WriteCommand else GroupWord(cmds[7 - (i - 1) / 3], balEven, (i - 1) % 3, pec))
  }

  /** Word r of group h sits 3 * h + r words after the command word. */
  lemma LayoutAt(cmds: seq<u16>, balEven: bool, pec: u16 -> u16, h: nat, r: nat)
    requires |cmds| == 8 && h < 8 && r < 3
    ensures |Layout(cmds, balEven, pec)| == 25
    ensures Layout(cmds, balEven, pec)[1 + 3 * h + r] == GroupWord(cmds[7 - h], balEven, r, pec)
  {
    Group(h);
  }

  /** The configuration frame, with the 14-bit PEC of the balance words. */
  function CfgFrame(cmds: seq<u16>, balEven: bool): (ws: seq<u16>)
    requires |cmds| == 8
    ensures |ws| == 25 && ws[0] == WriteCommand
    ensures forall h | 0 <= h < 8 :: ws[1 + 3 * h] == RegisterWord
  {
    var ws := Layout(cmds, balEven, Pec);
    forall h | 0 <= h < 8 ensures ws[1 + 3 * h] == RegisterWord {
      LayoutAt(cmds, balEven, Pec, h, 0);
    }
    ws
  }

  lemma Group(h: nat)
    requires h < 8
    ensures (3 * h) / 3 == h && (3 * h) % 3 == 0
    ensures (3 * h + 1) / 3 == h && (3 * h + 1) % 3 == 1
    ensures (3 * h + 2) / 3 == h && (3 * h + 2) % 3 == 2
  {
  }

  /** WriteCfg: one framed transaction sending the configuration frame; BalEven flips for the next call. */
  function WriteCfg(cmds: seq<u16>, balEven: bool): (r: (seq<Op>, bool))
    requires |cmds| == 8
    ensures Framed(r.0) && Sent(r.0) == CfgFrame(cmds, balEven)
    ensures |r.0| == 27
    ensures r.1 == !balEven
  {
    TransactionFramed(CfgFrame(cmds, balEven));
    (Transaction(CfgFrame(cmds, balEven)), !balEven)
  }

  lemma IdlePecWord(w: u16)
    requires w == 0
    ensures Pec(w) == 0x38DC
  {
    Checksum.ConfigPecOfZero(w);
  }
}
