/**
 * What one complete upDateCellVolts pass over `chipNum` chips promises, read
 * off the invariants of the scan: which cells get numbers and in what order,
 * where the extremes are reported, which balance bits are set and what the
 * per-chip counts are.
 */
module CellPass {
  import opened Common
  import opened Bits
  import opened Registers
  import opened Aggregation

  /** The scan state at the end of a pass, as UpDateCellVolts returns it. */
  function Final(s: Store, cfg: Settings, chipNum: nat): Scan
    requires Valid(s) && chipNum <= ChipCount
  {
    Walk(s, cfg, EventCount(chipNum))
  }

  /** The chips a pass looks at: chip 0 is looked at even when there is no chip. */
  function Scanned(chipNum: nat): nat
  {
    if chipNum == 0 then 1 else chipNum
  }

  /** The loop reached its `break`: umax, umin, deltaV and CellsPresent were written. */
  predicate Published(s: Store, cfg: Settings, chipNum: nat)
    requires Valid(s) && chipNum <= ChipCount
  {
    |Final(s, cfg, chipNum).cells| <= 100
  }

  /**
   * Cell number i+1 is a present cell in slots 0..13 of a scanned chip and
   * its voltage is the one written to parameter u1+i; numbers follow chip
   * then slot order; when the pass is published every present cell of chips
   * 0..chipNum-1 has a number.
   */
  lemma PassNumbering(s: Store, cfg: Settings, chipNum: nat)
    requires Valid(s) && chipNum <= ChipCount
    ensures var st := Final(s, cfg, chipNum);
      && |st.spots| == |st.cells|
      && (forall i | 0 <= i < |st.spots| ::
            && st.spots[i].chip < Scanned(chipNum)
            && st.spots[i].slot < 14
            && Present(s, st.spots[i])
            && st.cells[i] == s.voltage[st.spots[i].chip][st.spots[i].slot])
      && (forall i, j | 0 <= i < j < |st.spots| ::
            st.spots[i].chip < st.spots[j].chip ||
            (st.spots[i].chip == st.spots[j].chip && st.spots[i].slot < st.spots[j].slot))
      && (Published(s, cfg, chipNum) ==>
            forall x: nat, y: nat | x < chipNum && y < 14 && Present(s, Spot(x, y)) :: Spot(x, y) in st.spots)
  {
    var n := EventCount(chipNum);
    WalkNumbers(s, cfg, n);
    var st := Final(s, cfg, chipNum);
    forall i | 0 <= i < |st.spots|
      ensures st.spots[i].chip < Scanned(chipNum)
    {
      assert Key(st.spots[i]) < n;
    }
    forall i, j | 0 <= i < j < |st.spots|
      ensures st.spots[i].chip < st.spots[j].chip ||
              (st.spots[i].chip == st.spots[j].chip && st.spots[i].slot < st.spots[j].slot)
    {
      assert Key(st.spots[i]) < Key(st.spots[j]);
    }
  }

  /**
   * CellVMax is the highest numbered cell and CellMax the number of its first
   * occurrence; CellVMin is the lowest cell below 5000 mV and CellMin the
   * number of its first occurrence; CellMin is left unwritten exactly when no
   * cell is below 5000 mV.
   */
  lemma PassExtremes(s: Store, cfg: Settings, chipNum: nat)
    requires Valid(s) && chipNum <= ChipCount
    ensures var st := Final(s, cfg, chipNum);
      && (forall i | 0 <= i < |st.cells| :: st.vmin <= st.cells[i] <= st.vmax)
      && (st.cells != [] ==>
            && st.maxAt.Some? && 1 <= st.maxAt.value <= |st.cells| && st.cells[st.maxAt.value - 1] == st.vmax
            && forall j | 0 <= j < st.maxAt.value - 1 :: st.cells[j] < st.vmax)
      && (st.minAt.Some? ==>
            && 1 <= st.minAt.value <= |st.cells| && st.cells[st.minAt.value - 1] == st.vmin
            && forall j | 0 <= j < st.minAt.value - 1 :: st.cells[j] > st.vmin)
      && (st.minAt.None? <==> forall i | 0 <= i < |st.cells| :: st.cells[i] >= 5000)
      && (st.minAt.None? ==> st.vmin == 5000)
  {
    WalkExtremes(s, cfg, EventCount(chipNum));
  }

  /**
   * CellBalCmd after a pass: bit y of chip x is set exactly when cell (x, y)
   * got a number and is hot; bits 14 and 15 are never set; CellBalancing is
   * the number of set bits and BalanceFlag tells whether there is one.
   */
  lemma PassBalance(s: Store, cfg: Settings, chipNum: nat)
    requires Valid(s) && chipNum <= ChipCount
    ensures var st := Final(s, cfg, chipNum);
      && |st.cmd| == ChipCount
      && (forall x, y | 0 <= x < ChipCount ::
            Bit(st.cmd[x], y) <==> y < 14 && Spot(x, y) in st.spots && Hot(s, cfg, Spot(x, y)))
      && (forall x | 0 <= x < ChipCount :: st.cmd[x] < 0x4000)
      && st.balancing == PopSum(st.cmd)
      && (st.flag <==> st.balancing > 0)
  {
    var n := EventCount(chipNum);
    WalkBalance(s, cfg, n);
    var st := Final(s, cfg, chipNum);
    forall x | 0 <= x < ChipCount ensures st.cmd[x] < 0x4000 {
      Pow2Monotone(Reach(n, x), 14);
      Pow2Fourteen();
    }
  }

  /**
   * On a published pass the balance masks need no reference to the
   * numbering: bit y of chip x is set exactly when the chip was scanned, the
   * slot is one of 0..13 and the cell is present and hot.
   */
  lemma PublishedBalanceBits(s: Store, cfg: Settings, chipNum: nat, x: nat, y: nat)
    requires Valid(s) && 1 <= chipNum <= ChipCount && Published(s, cfg, chipNum) && x < ChipCount
    ensures Bit(Final(s, cfg, chipNum).cmd[x], y) <==>
      x < chipNum && y < 14 && Present(s, Spot(x, y)) && Hot(s, cfg, Spot(x, y))
  {
    PassBalance(s, cfg, chipNum);
    PassNumbering(s, cfg, chipNum);
    var st := Final(s, cfg, chipNum);
    if Spot(x, y) in st.spots {
      var i :| 0 <= i < |st.spots| && st.spots[i] == Spot(x, y);
      assert st.spots[i].chip < chipNum;
    }
  }

  /** With balancing disabled a pass clears every mask, counts no balanced cell and lowers BalanceFlag. */
  lemma BalanceDisabled(s: Store, cfg: Settings, chipNum: nat)
    requires Valid(s) && chipNum <= ChipCount && cfg.balance == 0
    ensures var st := Final(s, cfg, chipNum);
      (forall x | 0 <= x < ChipCount :: st.cmd[x] == 0) && st.balancing == 0 && !st.flag
  {
    PassBalance(s, cfg, chipNum);
    var st := Final(s, cfg, chipNum);
    forall x | 0 <= x < ChipCount ensures st.cmd[x] == 0 {
      forall k | 0 <= k < 16 ensures Bit(st.cmd[x], k) == Bit(0, k) {
        ZeroHasNoBits(k);
      }
      Pow2Facts();
      BitsDetermine(st.cmd[x], 0, 16);
    }
    PopSumOfZeros(st.cmd);
  }

  /**
   * The counts of a pass: the pass is published exactly when the scanned
   * chips hold at most 100 present cells (a pass with no chip always is);
   * then one count per scanned chip is written, each the chip's number of
   * present cells in slots 0..13, and CellsPresent is their sum.
   */
  lemma PassCounts(s: Store, cfg: Settings, chipNum: nat)
    requires Valid(s) && chipNum <= ChipCount
    ensures chipNum == 0 ==> Published(s, cfg, chipNum)
    ensures chipNum >= 1 ==> (Published(s, cfg, chipNum) <==> ChipTotal(s, chipNum) <= 100)
    ensures var st := Final(s, cfg, chipNum);
      chipNum >= 1 && Published(s, cfg, chipNum) ==>
        && |st.chipCells| == chipNum
        && (forall x | 0 <= x < chipNum :: st.chipCells[x] == PresentCount(s, x, 14))
        && |st.cells| == Total(st.chipCells) == ChipTotal(s, chipNum)
  {
    var n := EventCount(chipNum);
    WalkChips(s, cfg, n);
    if chipNum == 0 {
      assert PresentCount(s, 0, 1) <= PresentCount(s, 0, 0) + 1 == 1;
      assert Visited(s, 1) == ChipTotal(s, 0) + PresentCount(s, 0, 1);
    } else {
      assert n / 15 == chipNum && n % 15 == 0;
    }
  }
}
