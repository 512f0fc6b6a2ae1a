/**
 * The poll loop of src/BatMan.cpp: `StateMachine`, called every 100 ms,
 * walks states 0..8 and issues the bus traffic of one state per call —
 * wake-up, mute/unmute, snapshots, register reads, the temperature request
 * and the configuration write — then idles in state 8 for `cycletime`
 * calls.
 *
 * One call is modelled as a pure step from the sequencer's variables to the
 * next ones, the bus operations it performs, the registers it reads (whose
 * frames Registers.Decode and Registers.DecodeTemps interpret), the
 * parameters it writes and BalanceFlag and CellBalCmd after it. BmbTimeout,
 * the decoded register store and ChipNum are inputs.
 */
module Sequencer {
  import opened Common
  import opened Bus
  import opened Checksum
  import opened ConfigFrame
  import opened Params
  import Registers
  import ConfigWrite
  import Bits
  import Aggregation
  import CellPass
  import CellReport

  const WakeWord: u16 := 0x2AD4
  const MuteWord: u16 := 0x20DD
  const UnmuteWord: u16 := 0x21F2
  const SnapWord: u16 := 0x2BFB
  /** `reqTemp`: the temperature request. */
  const TempRequest: u16 := 0x0E1B
  /** `SendDelay`, in microseconds. */
  const SendDelay: nat := 125
  /** `cycletime`: the number of idle calls after which a new cycle starts. */
  const CycleTime: nat := 20
  /** Padding words clocked out by one register read: `count2` runs over
    * 0, 2, ..., 72, which is 37 words, one more than the 72-byte reply
    * buffer holds (the receive side of this is `DecodeLoops`). */
  const ReplyWords: nat := 37
  /** Reply words clocked in by the temperature request. */
  const TempReplyWords: nat := 32

  const LoopCntKey: int := 1
  const LoopStateKey: int := 2

  /** The sequencer's variables: LoopState, IdleCnt, LoopRanCnt (all uint16_t) and BalEven. */
  datatype Machine = Machine(loopState: u16, idleCnt: u16, loopRanCnt: u16, balEven: bool)

  /** What a call depends on besides the sequencer: BmbTimeout, BalanceFlag and CellBalCmd. */
  datatype Inputs = Inputs(timeout: bool, balanceFlag: bool, cmds: seq<u16>)

  /** One call: the next variables, the bus operations, the registers read, the parameters, BalanceFlag and CellBalCmd after it. */
  datatype Tick = Tick(m: Machine, ops: seq<Op>, registers: seq<bv8>, ps: ParamStore, balanceFlag: bool, cmds: seq<u16>)

  // ------------------------------------------------------- bus primitives

  /** Generic_Send_Once: the first `len` words of a command in one transaction. */
  function SendOnce(command: seq<u16>): seq<Op>
  {
    Transaction(command)
  }

  /** WakeUP: five single-word transactions of the wake-up word (`count1 = 0..4`). */
  function WakeUp(): seq<Op>
  {
    var t := Transaction([WakeWord]);
    t + t + t + t + t
  }

  /** IdleWake: mute while balancing, unmute otherwise. */
  function IdleWake(balanceFlag: bool): seq<Op>
  {
    SendOnce([if balanceFlag then MuteWord else UnmuteWord, 0])
  }

  /** The two request words of GetData(id): the register id and calcCRC({id, 0}), each in the high byte. */
  function Request(id: bv8): seq<u16>
  {
    [(id as int) * 256, (ReadPec(id) as int) * 256]
  }

  /** The bus traffic of GetData(id): the request, then one zero padding word per reply word. */
  function GetData(id: bv8): seq<Op>
  {
    Transaction(Request(id) + Registers.Zeros(ReplyWords))
  }

  /** The bus traffic of GetTempData: the request, then 32 padding words. */
  function GetTempData(): seq<Op>
  {
    Transaction([TempRequest] + Registers.Zeros(TempReplyWords))
  }

  /** A sequence of GetData calls, each preceded by `delayMicroseconds(SendDelay)` when paced. */
  function ReadAll(ids: seq<bv8>, paced: bool): seq<Op>
  {
    if ids == [] then []
    else (if paced then [Delay(SendDelay)] else []) + GetData(ids[0]) + ReadAll(ids[1..], paced)
  }

  // -------------------------------------------------------------- the step

  /** The registers read in each state. */
  function StateReads(state: int): seq<bv8>
  {
    if state == 1 then [0x4D, 0x50]
    else if state == 4 then [0x4F, 0x4F, 0x47, 0x48, 0x49, 0x4A]
    else if state == 5 then [0x4F, 0x4F, 0x4B, 0x4C, 0x4D]
    else if state == 6 then [0x50, 0x50]
    else []
  }

  /** The bus traffic of one call of the `switch (LoopState)`. */
  function StateOps(m: Machine, inp: Inputs): seq<Op>
    requires |inp.cmds| == 8
  {
    match m.loopState
    case 0 => if inp.timeout then WakeUp() else []
    case 1 => IdleWake(inp.balanceFlag) + ReadAll(StateReads(1), false)
    case 2 => IdleWake(inp.balanceFlag) + [Delay(SendDelay)] + SendOnce([SnapWord])
    case 3 => IdleWake(inp.balanceFlag) + [Delay(SendDelay)] + SendOnce([SnapWord])
    case 4 => IdleWake(inp.balanceFlag) + ReadAll(StateReads(4), true)
    case 5 => IdleWake(inp.balanceFlag) + ReadAll(StateReads(5), true) + [Delay(SendDelay)] + GetTempData()
    case 6 => WakeUp() + GetData(0x50) + WriteCfg(inp.cmds, m.balEven).0 + GetData(0x50) + SendOnce([UnmuteWord, 0])
    case _ => []
  }

  /** The sequencer's variables after one call. */
  function Next(m: Machine, inp: Inputs): Machine
    requires |inp.cmds| == 8
  {
    if m.loopState < 8 then
      m.(loopState := m.loopState + 1,
         balEven := if m.loopState == 6 then !m.balEven else m.balEven)
    else if m.loopState == 8 then
      var idle := (m.idleCnt + 1) % 0x1_0000;
      if idle > CycleTime then m.(loopState := 0, idleCnt := 0, loopRanCnt := (m.loopRanCnt + 1) % 0x1_0000)
      else m.(idleCnt := idle)
    else m
  }

  /**
   * StateMachine: one call. States 0..7 do their bus work and advance; state 7
   * runs upDateCellVolts over the decoded registers, which writes the cell
   * parameters and recomputes BalanceFlag and CellBalCmd; state 8 counts idle
   * calls and starts a new cycle, writing LoopCnt, once IdleCnt exceeds
   * `cycletime`; LoopState is written on every call.
   */
  function StateMachine(m: Machine, inp: Inputs, s: Registers.Store, chipNum: nat, ps: ParamStore): (t: Tick)
    requires |inp.cmds| == 8 && Registers.Valid(s) && chipNum <= Registers.ChipCount
    ensures IntOf(t.ps, LoopStateKey) == t.m.loopState
    ensures m.loopState == 8 && t.m.loopState == 0 ==> IntOf(t.ps, LoopCntKey) == t.m.loopRanCnt
    ensures m.loopState != 7 ==>
      && (forall k | k != LoopStateKey && k != LoopCntKey :: IntOf(t.ps, k) == IntOf(ps, k))
      && t.ps.floats == ps.floats
      && t.balanceFlag == inp.balanceFlag && t.cmds == inp.cmds
    ensures m.loopState == 7 ==>
      var pass := CellReport.Report(s, ps, chipNum);
      var st := CellPass.Final(s, CellReport.SettingsOf(ps), chipNum);
      && (forall k | k != LoopStateKey :: IntOf(t.ps, k) == IntOf(pass, k))
      && t.ps.floats == pass.floats
      && t.balanceFlag == st.flag && t.cmds == st.cmd
    ensures |t.cmds| == 8
  {
    var n := Next(m, inp);
    var counted := if m.loopState == 8 && n.loopState == 0 then SetInt(ps, LoopCntKey, n.loopRanCnt) else ps;
    if m.loopState == 7 then
      var st := CellPass.Final(s, CellReport.SettingsOf(ps), chipNum);
      Tick(n, StateOps(m, inp), StateReads(m.loopState),
           SetInt(CellReport.Report(s, ps, chipNum), LoopStateKey, n.loopState), st.flag, st.cmd)
    else
      Tick(n, StateOps(m, inp), StateReads(m.loopState), SetInt(counted, LoopStateKey, n.loopState),
           inp.balanceFlag, inp.cmds)
  }

  // ------------------------------------------------------------- framing

  lemma DelayFramed(d: nat)
    ensures Framed([Delay(d)]) && Sent([Delay(d)]) == []
  {
    assert [Delay(d)][1..] == [];
  }

  lemma FramedConcat(a: seq<Op>, b: seq<Op>)
    requires Framed(a) && Framed(b)
    ensures Framed(a + b)
    ensures Sent(a + b) == Sent(a) + Sent(b)
  {
    FramedAppend(a, b, true);
    SentAppend(a, b);
  }

  /** WakeUP is five framed transactions, each sending only the wake-up word. */
  lemma WakeUpSends()
    ensures Framed(WakeUp())
    ensures Sent(WakeUp()) == [WakeWord, WakeWord, WakeWord, WakeWord, WakeWord]
  {
    FiveTimes(WakeWord);
  }

  /** Five one-word transactions in a row are framed and send the word five times. */
  lemma FiveTimes(w: u16)
    ensures var t := Transaction([w]);
      Framed(t + t + t + t + t) && Sent(t + t + t + t + t) == [w, w, w, w, w]
  {
    var t := Transaction([w]);
    TransactionFramed([w]);
    FramedConcat(t, t);
    FramedConcat(t + t, t);
    FramedConcat(t + t + t, t);
    FramedConcat(t + t + t + t, t);
  }

  /** IdleWake sends the mute command exactly when balancing is in progress, and the unmute command otherwise. */
  lemma IdleWakeSends(balanceFlag: bool)
    ensures Framed(IdleWake(balanceFlag))
    ensures Sent(IdleWake(balanceFlag)) == [if balanceFlag then MuteWord else UnmuteWord, 0]
    ensures Sent(IdleWake(balanceFlag))[0] == MuteWord <==> balanceFlag
  {
    TransactionFramed([if balanceFlag then MuteWord else UnmuteWord, 0]);
  }

  /** GetData is one framed transaction: the register id, its CRC-8 PEC, then 37 padding words. */
  lemma GetDataSends(id: bv8)
    ensures Framed(GetData(id))
    ensures var ws := Sent(GetData(id));
      |ws| == 39 && ws[0] / 256 == id as int && ws[1] / 256 == ReadPec(id) as int
      && ws[0] % 256 == 0 && ws[1] % 256 == 0
      && forall i | 2 <= i < |ws| :: ws[i] == 0
  {
    TransactionFramed(Request(id) + Registers.Zeros(ReplyWords));
  }

  lemma {:induction false} ReadAllFramed(ids: seq<bv8>, paced: bool)
    ensures Framed(ReadAll(ids, paced))
    decreases |ids|
  {
    if ids != [] {
      var pre: seq<Op> := if paced then [Delay(SendDelay)] else [];
      if paced {
        DelayFramed(SendDelay);
      } else {
        assert Framed(pre);
      }
      GetDataSends(ids[0]);
      ReadAllFramed(ids[1..], paced);
      FramedConcat(pre, GetData(ids[0]));
      FramedConcat(pre + GetData(ids[0]), ReadAll(ids[1..], paced));
    }
  }

  lemma SnapFramed(balanceFlag: bool)
    ensures Framed(IdleWake(balanceFlag) + [Delay(SendDelay)] + SendOnce([SnapWord]))
  {
    IdleWakeSends(balanceFlag);
    DelayFramed(SendDelay);
    TransactionFramed([SnapWord]);
    FramedConcat(IdleWake(balanceFlag), [Delay(SendDelay)]);
    FramedConcat(IdleWake(balanceFlag) + [Delay(SendDelay)], SendOnce([SnapWord]));
  }

  lemma ReadStateFramed(balanceFlag: bool, ids: seq<bv8>, paced: bool)
    ensures Framed(IdleWake(balanceFlag) + ReadAll(ids, paced))
  {
    IdleWakeSends(balanceFlag);
    ReadAllFramed(ids, paced);
    FramedConcat(IdleWake(balanceFlag), ReadAll(ids, paced));
  }

  lemma TempStateFramed(balanceFlag: bool)
    ensures Framed(IdleWake(balanceFlag) + ReadAll(StateReads(5), true) + [Delay(SendDelay)] + GetTempData())
  {
    var a := IdleWake(balanceFlag) + ReadAll(StateReads(5), true);
    ReadStateFramed(balanceFlag, StateReads(5), true);
    DelayFramed(SendDelay);
    TransactionFramed([TempRequest] + Registers.Zeros(TempReplyWords));
    FramedConcat(a, [Delay(SendDelay)]);
    FramedConcat(a + [Delay(SendDelay)], GetTempData());
  }

  lemma ConfigStateFramed(cmds: seq<u16>, balEven: bool)
    requires |cmds| == 8
    ensures Framed(WakeUp() + GetData(0x50) + WriteCfg(cmds, balEven).0 + GetData(0x50) + SendOnce([UnmuteWord, 0]))
  {
    var w := WriteCfg(cmds, balEven).0;
    WakeUpSends();
    GetDataSends(0x50);
    TransactionFramed([UnmuteWord, 0]);
    FramedConcat(WakeUp(), GetData(0x50));
    FramedConcat(WakeUp() + GetData(0x50), w);
    FramedConcat(WakeUp() + GetData(0x50) + w, GetData(0x50));
    FramedConcat(WakeUp() + GetData(0x50) + w + GetData(0x50), SendOnce([UnmuteWord, 0]));
  }

  /** Every call selects the chain only around transfers and leaves chip-select high. */
  lemma StateFramed(m: Machine, inp: Inputs)
    requires |inp.cmds| == 8
    ensures Framed(StateOps(m, inp))
  {
    match m.loopState
    case 0 => if inp.timeout { WakeUpSends(); }
    case 1 => ReadStateFramed(inp.balanceFlag, StateReads(1), false);
    case 2 => SnapFramed(inp.balanceFlag);
    case 3 => SnapFramed(inp.balanceFlag);
    case 4 => ReadStateFramed(inp.balanceFlag, StateReads(4), true);
    case 5 => TempStateFramed(inp.balanceFlag);
    case 6 => ConfigStateFramed(inp.cmds, m.balEven);
    case _ =>
  }

  // -------------------------------------------------------------- states

  /** From a state in 0..8 a call stays in 0..8: states 0..7 advance by one, state 8 stays or returns to 0. */
  lemma StepInRange(m: Machine, inp: Inputs)
    requires |inp.cmds| == 8 && m.loopState <= 8
    ensures var n := Next(m, inp);
      && n.loopState <= 8
      && (m.loopState < 8 ==> n.loopState == m.loopState + 1 && n.idleCnt == m.idleCnt && n.loopRanCnt == m.loopRanCnt)
      && (m.loopState == 8 ==> n.loopState == 0 || n.loopState == 8)
  {
  }

  /**
   * State 8 returns to 0 exactly when the incremented IdleCnt exceeds 20;
   * it then clears IdleCnt and increments LoopRanCnt (modulo 2^16), and
   * otherwise only increments IdleCnt.
   */
  lemma IdleStep(m: Machine, inp: Inputs)
    requires |inp.cmds| == 8 && m.loopState == 8 && m.idleCnt <= CycleTime
    ensures var n := Next(m, inp);
      && (n.loopState == 0 <==> m.idleCnt + 1 > CycleTime)
      && (n.loopState == 0 ==> n.idleCnt == 0 && n.loopRanCnt == (m.loopRanCnt + 1) % 0x1_0000)
      && (n.loopState == 8 ==> n.idleCnt == m.idleCnt + 1 && n.loopRanCnt == m.loopRanCnt)
      && n.balEven == m.balEven
  {
  }

  /** A LoopState outside 0..8 falls into the `default` case and never changes again. */
  lemma StuckOutsideRange(m: Machine, inp: Inputs)
    requires |inp.cmds| == 8 && m.loopState > 8
    ensures Next(m, inp) == m && StateOps(m, inp) == [] && StateReads(m.loopState) == []
  {
  }

  /** Only state 6 writes the configuration, so only it flips BalEven. */
  lemma BalEvenFlipsInStateSix(m: Machine, inp: Inputs)
    requires |inp.cmds| == 8
    ensures Next(m, inp).balEven != m.balEven <==> m.loopState == 6
  {
  }

  /** `n` consecutive calls with the same inputs. */
  function Steps(m: Machine, inp: Inputs, n: nat): Machine
    requires |inp.cmds| == 8
  {
    if n == 0 then m else Next(Steps(m, inp, n - 1), inp)
  }

  lemma {:induction false} StepsAdd(m: Machine, inp: Inputs, a: nat, b: nat)
    requires |inp.cmds| == 8
    ensures Steps(m, inp, a + b) == Steps(Steps(m, inp, a), inp, b)
    decreases b
  {
    if b > 0 {
      StepsAdd(m, inp, a, b - 1);
    }
  }

  /** The working states: from state 0, k <= 8 calls reach state k; BalEven has flipped once state 6 is done. */
  lemma {:induction false} Ramp(m: Machine, inp: Inputs, k: nat)
    requires |inp.cmds| == 8 && m.loopState == 0 && k <= 8
    ensures Steps(m, inp, k) == m.(loopState := k, balEven := if k >= 7 then !m.balEven else m.balEven)
    decreases k
  {
    if k > 0 {
      Ramp(m, inp, k - 1);
    }
  }

  /** The idle state: j calls that keep IdleCnt at most 20 stay in state 8 and count IdleCnt up by j. */
  lemma {:induction false} Idle(m: Machine, inp: Inputs, j: nat)
    requires |inp.cmds| == 8 && m.loopState == 8 && m.idleCnt + j <= CycleTime
    ensures Steps(m, inp, j) == m.(idleCnt := m.idleCnt + j)
    decreases j
  {
    if j > 0 {
      Idle(m, inp, j - 1);
    }
  }

  /** The calls of a cycle before the last: state 0 is not reached again. */
  lemma NotBackEarly(m: Machine, inp: Inputs, k: nat)
    requires |inp.cmds| == 8 && m.loopState == 0 && m.idleCnt == 0
    requires 0 < k < 8 + CycleTime + 1
    ensures Steps(m, inp, k).loopState != 0
  {
    if k <= 8 {
      Ramp(m, inp, k);
    } else {
      Ramp(m, inp, 8);
      Idle(Steps(m, inp, 8), inp, k - 8);
      StepsAdd(m, inp, 8, k - 8);
    }
  }

  /** The last call of a cycle: after 28 calls the sequencer idles with IdleCnt 20, and the 29th starts the next cycle. */
  lemma CycleReturns(m: Machine, inp: Inputs)
    requires |inp.cmds| == 8 && m.loopState == 0 && m.idleCnt == 0
    ensures Steps(m, inp, 8 + CycleTime + 1) == Machine(0, 0, (m.loopRanCnt + 1) % 0x1_0000, !m.balEven)
  {
    CycleReturnsAfter(m, inp, 8 + CycleTime);
  }

  /** CycleReturns with the call count kept symbolic. */
  lemma CycleReturnsAfter(m: Machine, inp: Inputs, k: nat)
    requires |inp.cmds| == 8 && m.loopState == 0 && m.idleCnt == 0 && k == 8 + CycleTime
    ensures Steps(m, inp, k + 1) == Machine(0, 0, (m.loopRanCnt + 1) % 0x1_0000, !m.balEven)
  {
    var last := m.(loopState := 8, idleCnt := CycleTime, balEven := !m.balEven);
    Ramp(m, inp, 8);
    Idle(Steps(m, inp, 8), inp, k - 8);
    StepsAdd(m, inp, 8, k - 8);
    assert Steps(m, inp, k) == last;
    CycleWraps(last, inp);
  }

  /** The idle call that finds IdleCnt at 20 starts a new cycle. */
  lemma CycleWraps(m: Machine, inp: Inputs)
    requires |inp.cmds| == 8 && m.loopState == 8 && m.idleCnt == CycleTime
    ensures Next(m, inp) == Machine(0, 0, (m.loopRanCnt + 1) % 0x1_0000, m.balEven)
  {
    assert (m.idleCnt + 1) % 0x1_0000 == CycleTime + 1;
  }

  /**
   * A full cycle is 29 calls: from state 0 with IdleCnt 0 the sequencer
   * first comes back to state 0 after exactly 29 calls, with IdleCnt 0,
   * LoopRanCnt incremented and BalEven flipped once.
   */
  lemma CycleLength(m: Machine, inp: Inputs)
    requires |inp.cmds| == 8 && m.loopState == 0 && m.idleCnt == 0
    ensures Steps(m, inp, 8 + CycleTime + 1) == Machine(0, 0, (m.loopRanCnt + 1) % 0x1_0000, !m.balEven)
    ensures forall k | 0 < k < 8 + CycleTime + 1 :: Steps(m, inp, k).loopState != 0
  {
    CycleReturns(m, inp);
    forall k | 0 < k < 8 + CycleTime + 1 ensures Steps(m, inp, k).loopState != 0 {
      NotBackEarly(m, inp, k);
    }
  }

  /**
   * State 7 sends nothing and hands the cell pass's results on: u1.. hold the
   * numbered cells, bit y of CellBalCmd[x] is set exactly for the present
   * cells the pass switched to balancing, CellsBalancing counts those bits
   * and BalanceFlag says whether there is one; the next state is 8.
   */
  lemma UpdateState(m: Machine, inp: Inputs, s: Registers.Store, chipNum: nat, ps: ParamStore)
    requires |inp.cmds| == 8 && Registers.Valid(s) && chipNum <= Registers.ChipCount && m.loopState == 7
    ensures var t := StateMachine(m, inp, s, chipNum, ps);
      var cfg := CellReport.SettingsOf(ps);
      var st := CellPass.Final(s, cfg, chipNum);
      && t.ops == [] && t.m.loopState == 8 && IntOf(t.ps, LoopStateKey) == 8
      && (forall k | CellReport.U1Key <= k < CellReport.U1Key + |st.cells| ::
            FloatOf(t.ps, k) == st.cells[k - CellReport.U1Key] as real)
      && (forall x, y | 0 <= x < Registers.ChipCount ::
            Bits.Bit(t.cmds[x], y) <==>
              y < 14 && Aggregation.Spot(x, y) in st.spots && Aggregation.Hot(s, cfg, Aggregation.Spot(x, y)))
      && IntOf(t.ps, CellReport.CellsBalancingKey) == Aggregation.PopSum(t.cmds)
      && (t.balanceFlag <==> IntOf(t.ps, CellReport.CellsBalancingKey) > 0)
  {
    var t := StateMachine(m, inp, s, chipNum, ps);
    var cfg := CellReport.SettingsOf(ps);
    var st := CellPass.Final(s, cfg, chipNum);
    var pass := CellReport.Report(s, ps, chipNum);
    CellReport.PassReport(s, ps, chipNum);
    CellPass.PassBalance(s, cfg, chipNum);
    assert IntOf(t.ps, CellReport.CellsBalancingKey) == IntOf(pass, CellReport.CellsBalancingKey) == st.balancing;
    forall k | CellReport.U1Key <= k < CellReport.U1Key + |st.cells|
      ensures FloatOf(t.ps, k) == st.cells[k - CellReport.U1Key] as real
    {
      assert FloatOf(t.ps, k) == FloatOf(pass, k);
    }
  }

  /** The BalEven that state 6 leaves is the one its WriteCfg call hands on. */
  lemma ConfigWriteToggles(m: Machine, inp: Inputs)
    requires |inp.cmds| == 8 && m.loopState == 6
    ensures Next(m, inp).balEven == WriteCfg(inp.cmds, m.balEven).1
  {
  }

  /**
   * The configuration writes of two successive cycles use opposite masks:
   * for every chip the balance words they send share no bit and add up to
   * the chip's full CellBalCmd.
   */
  lemma SuccessiveConfigWrites(m: Machine, inp: Inputs, h: nat)
    requires |inp.cmds| == 8 && m.loopState == 0 && m.idleCnt == 0 && h < 8
    ensures var a := Steps(m, inp, 6);
      var b := Steps(m, inp, 8 + CycleTime + 1 + 6);
      var first := Rev16(Sent(WriteCfg(inp.cmds, a.balEven).0)[2 + 3 * h]);
      var second := Rev16(Sent(WriteCfg(inp.cmds, b.balEven).0)[2 + 3 * h]);
      && a.loopState == 6 && b.loopState == 6
      && first + second == inp.cmds[7 - h]
      && forall k :: !(Bits.Bit(first, k) && Bits.Bit(second, k))
  {
    ConfigWritesApart(m, inp, h, 8 + CycleTime + 1, 6);
  }

  /** SuccessiveConfigWrites with the call counts kept symbolic. */
  lemma ConfigWritesApart(m: Machine, inp: Inputs, h: nat, c: nat, six: nat)
    requires |inp.cmds| == 8 && m.loopState == 0 && m.idleCnt == 0 && h < 8
    requires c == 8 + CycleTime + 1 && six == 6
    ensures var a := Steps(m, inp, six);
      var b := Steps(m, inp, c + six);
      var first := Rev16(Sent(WriteCfg(inp.cmds, a.balEven).0)[2 + 3 * h]);
      var second := Rev16(Sent(WriteCfg(inp.cmds, b.balEven).0)[2 + 3 * h]);
      && a.loopState == 6 && b.loopState == 6
      && first + second == inp.cmds[7 - h]
      && forall k :: !(Bits.Bit(first, k) && Bits.Bit(second, k))
  {
    var top := Steps(m, inp, c);
    Ramp(m, inp, six);
    CycleReturnsAfter(m, inp, c - 1);
    Ramp(top, inp, six);
    StepsAdd(m, inp, c, six);
    ConfigWrite.ConsecutiveCallsCoverCommand(inp.cmds, m.balEven, h);
  }

  /**
   * Every cell, chip-voltage and auxiliary register is read in some state
   * before 7, where the pack values are recomputed, and in no state from 7 on.
   */
  lemma RegistersReadBeforeUpdate(id: bv8)
    requires 0x47 <= id <= 0x4D
    ensures exists k | 0 <= k < 7 :: id in StateReads(k)
    ensures forall k | k >= 7 :: id !in StateReads(k)
  {
    if id <= 0x4A {
      assert id in StateReads(4);
    } else {
      assert id in StateReads(5);
    }
  }
}
