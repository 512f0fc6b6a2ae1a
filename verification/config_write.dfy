/**
 * What WriteCfg puts on the wire: the per-chip groups of the configuration
 * frame, the alternation between successive calls and a known PEC value.
 */
module ConfigWrite {
  import opened Common
  import opened Bits
  import opened Bus
  import opened ConfigFrame

  lemma FrameBalanceWord(cmds: seq<u16>, balEven: bool, h: nat)
    requires |cmds| == 8 && h < 8
    ensures CfgFrame(cmds, balEven)[2 + 3 * h] == BalanceWord(cmds[7 - h], balEven)
  {
    LayoutAt(cmds, balEven, Pec, h, 1);
  }

  lemma FramePecWord(cmds: seq<u16>, balEven: bool, h: nat)
    requires |cmds| == 8 && h < 8
    ensures CfgFrame(cmds, balEven)[3 + 3 * h] == Pec(BalanceWord(cmds[7 - h], balEven))
  {
    LayoutAt(cmds, balEven, Pec, h, 2);
  }

  /** Group h of the frame carries the pass's share of `CellBalCmd[7-h]`, byte-swapped, followed by a 14-bit PEC over it. */
  lemma FrameGroup(cmds: seq<u16>, balEven: bool, h: nat)
    requires |cmds| == 8 && h < 8
    ensures Rev16(CfgFrame(cmds, balEven)[2 + 3 * h]) == PassShare(cmds[7 - h], balEven)
    ensures CfgFrame(cmds, balEven)[3 + 3 * h] == Pec(CfgFrame(cmds, balEven)[2 + 3 * h])
    ensures CfgFrame(cmds, balEven)[3 + 3 * h] < 0x4000
  {
    FrameBalanceWord(cmds, balEven, h);
    FramePecWord(cmds, balEven, h);
  }

  /**
   * Two consecutive calls with unchanged commands send, for every chip,
   * balance words whose masks share no bit and add up to the full command.
   */
  lemma ConsecutiveCallsCoverCommand(cmds: seq<u16>, balEven: bool, h: nat)
    requires |cmds| == 8 && h < 8
    ensures var first := WriteCfg(cmds, balEven);
            var second := WriteCfg(cmds, first.1);
            var a := Rev16(Sent(first.0)[2 + 3 * h]);
            var b := Rev16(Sent(second.0)[2 + 3 * h]);
            a + b == cmds[7 - h] &&
            forall k :: !(Bit(a, k) && Bit(b, k))
  {
    FrameGroup(cmds, balEven, h);
    FrameGroup(cmds, !balEven, h);
    PassesPartition(cmds[7 - h], balEven);
  }

  /** A zero command gives a zero balance word on either pass. */
  lemma BalanceWordOfZero(c: u16, balEven: bool)
    requires c == 0
    ensures BalanceWord(c, balEven) == 0
  {
    assert Lo(c) == 0 && Hi(c) == 0;
    AndOfZero(ByteMask(balEven), 8);
    assert MaskByte(Lo(c), balEven) == 0 && MaskByte(Hi(c), balEven) == 0;
  }

  /** With nothing to balance, every chip's PEC word is 0x38DC on either pass. */
  lemma IdlePec(c: u16, balEven: bool)
    requires c == 0
    ensures Pec(BalanceWord(c, balEven)) == 0x38DC
  {
    BalanceWordOfZero(c, balEven);
    IdlePecWord(BalanceWord(c, balEven));
  }
}
