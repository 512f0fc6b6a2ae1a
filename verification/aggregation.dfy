/**
 * upDateCellVolts of src/BatMan.cpp: one pass over the cell-voltage store
 * that numbers the present cells, finds the highest and lowest, counts the
 * cells per chip and builds the per-chip balance masks `CellBalCmd`.
 *
 * The pass is a sequence of scan events. Event n visits chip n / 15: for
 * n % 15 < 14 it looks at slot n % 15 of that chip, for n % 15 == 14 it
 * closes the chip (slot 14 is never looked at). The firmware's `while`
 * loop performs one event per iteration and stops either after closing
 * chip ChipNum-1 (publishing the pack statistics) or as soon as 101 cells
 * have been counted.
 */
module Aggregation {
  import opened Common
  import opened Bits
  import opened Registers

  /** `BalHys`: a cell is balanced when it exceeds the previous minimum by more than this many mV. */
  const BalHys: real := 20.0

  /** A cell position: chip (BMB index `Xr`) and slot (register column `Yc`). */
  datatype Spot = Spot(chip: nat, slot: nat)

  datatype Event = Cell(at: Spot) | ChipEnd(chip: nat)

  /** The parameters the pass reads: `GetInt(balance)` and the `umin` published by the previous pass. */
  datatype Settings = Settings(balance: int, umin: real)

  /** The pass's variables and the values it writes to the parameter store. */
  datatype Scan = Scan(
    spots: seq<Spot>,        // cell number h+1 is at spots[h]
    cells: seq<u16>,         // the voltage written to parameter u1+h
    hc: nat,                 // cells counted so far on the current chip
    chipCells: seq<nat>,     // the value written to Chip1Cells+Xr, for each closed chip
    cmd: seq<u16>,           // CellBalCmd[0..7]
    balancing: nat,          // CellBalancing
    flag: bool,              // BalanceFlag
    vmax: int,               // CellVMax
    vmin: int,               // CellVMin
    maxAt: Option<nat>,      // the last value written to CellMax, if any
    minAt: Option<nat>)      // the last value written to CellMin, if any

  /** A sample counts as a present cell when it is above 10 mV. */
  predicate Present(s: Store, p: Spot)
    requires Valid(s) && p.chip < ChipCount && p.slot < SlotCount
  {
    s.voltage[p.chip][p.slot] > 10
  }

  /** The cell is switched to balancing: balancing is enabled and the cell exceeds the previous minimum plus the hysteresis. */
  predicate Hot(s: Store, cfg: Settings, p: Spot)
    requires Valid(s) && p.chip < ChipCount && p.slot < SlotCount
  {
    cfg.balance != 0 && cfg.umin + BalHys < s.voltage[p.chip][p.slot] as real
  }

  /** Event n of a pass. */
  function EventAt(n: nat): Event
  {
    if n % 15 < 14 then Cell(Spot(n / 15, n % 15)) else ChipEnd(n / 15)
  }

  /** The number of events a pass over `chipNum` chips takes when it is not cut short; with no chip, slot 0 of chip 0 is still visited. */
  function EventCount(chipNum: nat): nat
  {
    if chipNum == 0 then 1 else 15 * chipNum
  }

  /** The state before the first event: masks cleared, CellVMax = 0, CellVMin = 5000. */
  function Start(): Scan
  {
    Scan([], [], 0, [], Zeros(ChipCount), 0, false, 0, 5000, None, None)
  }

  /** Events up to this index stay within the eight chips of the store. */
  const MaxEvents: nat := 120

  /** Closing a chip: its cell count is written to Chip1Cells+Xr and the count restarts. */
  function CloseChip(st: Scan): Scan
  {
    st.(chipCells := st.chipCells + [st.hc], hc := 0)
  }

  /** Counting the present cell at p: numbering, extremes and the balance decision. */
  function CountCell(s: Store, cfg: Settings, st: Scan, p: Spot): (r: Scan)
    requires Valid(s) && |st.cmd| == ChipCount && p.chip < ChipCount && p.slot < SlotCount
    ensures |r.cmd| == ChipCount
  {
    var u := s.voltage[p.chip][p.slot];
    var h := |st.cells|;
    var hot := Hot(s, cfg, p);
    st.(spots := st.spots + [p],
        cells := st.cells + [u],
        hc := st.hc + 1,
        vmax := if st.vmax < u then u else st.vmax,
        maxAt := if st.vmax < u then Some(h + 1) else st.maxAt,
        vmin := if st.vmin > u then u else st.vmin,
        minAt := if st.vmin > u then Some(h + 1) else st.minAt,
        cmd := if hot then st.cmd[p.chip := (st.cmd[p.chip] + Pow2(p.slot)) % 0x1_0000] else st.cmd,
        balancing := if hot then st.balancing + 1 else st.balancing,
        flag := st.flag || hot)
  }

  /** One iteration of the `while (h <= 100)` loop. */
  function Step(s: Store, cfg: Settings, st: Scan, n: nat): (r: Scan)
    requires Valid(s) && |st.cmd| == ChipCount && n < MaxEvents
    ensures |r.cmd| == ChipCount
  {
    if |st.cells| > 100 then st
    else match EventAt(n)
      case ChipEnd(_) => CloseChip(st)
      case Cell(p) => if Present(s, p) then CountCell(s, cfg, st, p) else st
  }

  /** The state after the first n events. */
  function Walk(s: Store, cfg: Settings, n: nat): (st: Scan)
    requires Valid(s) && n <= MaxEvents
    ensures |st.cmd| == ChipCount
  {
    if n == 0 then Start() else Step(s, cfg, Walk(s, cfg, n - 1), n - 1)
  }

  lemma EventIndex(xr: nat, yc: nat)
    requires yc <= 14
    ensures EventAt(15 * xr + yc) == if yc < 14 then Cell(Spot(xr, yc)) else ChipEnd(xr)
    ensures 15 * xr + 14 + 1 == 15 * (xr + 1)
  {
  }

  /** Once 101 cells are counted the loop has stopped: later events change nothing. */
  lemma {:induction false} Stalled(s: Store, cfg: Settings, n: nat, m: nat)
    requires Valid(s) && n <= m <= MaxEvents
    requires |Walk(s, cfg, n).cells| > 100
    ensures Walk(s, cfg, m) == Walk(s, cfg, n)
    decreases m
  {
    if m > n {
      Stalled(s, cfg, n, m - 1);
    }
  }

  /** The body of `if (Voltage[Xr][Yc] > 10)`: record the cell as number h+1, track the extremes and decide on balancing. */
  method CountPresent(s: Store, cfg: Settings, st0: Scan, xr: nat, yc: nat, h: nat) returns (st: Scan)
    requires Valid(s) && |st0.cmd| == ChipCount && xr < ChipCount && yc < 14 && h == |st0.cells|
    ensures st == CountCell(s, cfg, st0, Spot(xr, yc))
  {
    var u := s.voltage[xr][yc];
    st := st0;
    if st.vmax < u {
      st := st.(vmax := u, maxAt := Some(h + 1));
    }
    if st.vmin > u {
      st := st.(vmin := u, minAt := Some(h + 1));
    }
    st := st.(spots := st.spots + [Spot(xr, yc)], cells := st.cells + [u]);
    if cfg.balance != 0 {
      if cfg.umin + BalHys < u as real {
        st := st.(cmd := st.cmd[xr := (st.cmd[xr] + Pow2(yc)) % 0x1_0000],
                  balancing := st.balancing + 1, flag := true);
      }
    }
    st := st.(hc := st.hc + 1);
  }

  /**
   * upDateCellVolts as written: the `while (h <= 100)` loop with its
   * `break` once chip ChipNum-1 is closed. `published` tells whether the
   * loop reached the break, which is where umax, umin, deltaV and
   * CellsPresent are written.
   */
  method UpDateCellVolts(s: Store, cfg: Settings, chipNum: nat) returns (st: Scan, published: bool)
    requires Valid(s) && chipNum <= ChipCount
    ensures st == Walk(s, cfg, EventCount(chipNum))
    ensures published <==> |st.cells| <= 100
  {
    var xr: nat, yc: nat, h: nat := 0, 0, 0;
    st := Start();
    published := false;
    while h <= 100
      invariant yc <= 14 && h == |st.cells|
      invariant if chipNum == 0 then xr == 0 && yc == 0 else xr < chipNum
      invariant st == Walk(s, cfg, 15 * xr + yc)
      decreases EventCount(chipNum) - (15 * xr + yc)
    {
      ghost var n := 15 * xr + yc;
      EventIndex(xr, yc);
      assert Walk(s, cfg, n + 1) == Step(s, cfg, st, n);
      if yc < 14 {
        var u := s.voltage[xr][yc];
        if u > 10 {
          st := CountPresent(s, cfg, st, xr, yc, h);
          h := h + 1;
        }
        yc := yc + 1;
      } else {
        st := st.(chipCells := st.chipCells + [st.hc], hc := 0);
        yc := 0;
        xr := xr + 1;
      }
      if xr == chipNum {
        published := true;
        break;
      }
    }
    if !published {
      Stalled(s, cfg, 15 * xr + yc, EventCount(chipNum));
    }
  }

  // ------------------------------------------------------------ numbering

  /** The scan position of a cell: cells are visited in increasing key order. */
  function Key(p: Spot): nat
  {
    15 * p.chip + p.slot
  }

  lemma KeyOfSlot(x: nat, y: nat)
    requires y < 15
    ensures (15 * x + y) / 15 == x && (15 * x + y) % 15 == y
  {
  }

  /** How far the numbering is complete: up to event n, or up to the 101st cell once the loop has stopped. */
  function Reached(spots: seq<Spot>, n: nat): nat
  {
    if |spots| <= 100 then n else Key(spots[|spots| - 1]) + 1
  }

  /**
   * The numbering after n events: cell i+1 is a present cell in slots 0..13
   * visited before event n, numbers follow the scan order, and every present
   * cell visited before the numbering stopped has a number.
   */
  predicate Numbered(s: Store, spots: seq<Spot>, cells: seq<u16>, n: nat)
    requires Valid(s)
  {
    && |spots| == |cells| <= 101
    && (forall i | 0 <= i < |spots| ::
          && spots[i].chip < ChipCount && spots[i].slot < 14 && Key(spots[i]) < n
          && Present(s, spots[i])
          && cells[i] == s.voltage[spots[i].chip][spots[i].slot])
    && (forall i, j | 0 <= i < j < |spots| :: Key(spots[i]) < Key(spots[j]))
    && (forall x: nat, y: nat | x < ChipCount && y < 14 && 15 * x + y < Reached(spots, n) && Present(s, Spot(x, y)) ::
          Spot(x, y) in spots)
  }

  lemma NumberedStalled(s: Store, spots: seq<Spot>, cells: seq<u16>, n: nat)
    requires Valid(s) && n > 0 && Numbered(s, spots, cells, n - 1) && |spots| > 100
    ensures Numbered(s, spots, cells, n)
  {
  }

  /** An event that numbers no cell keeps the numbering complete. */
  lemma NumberedSkip(s: Store, spots: seq<Spot>, cells: seq<u16>, n: nat)
    requires Valid(s) && 0 < n <= MaxEvents && Numbered(s, spots, cells, n - 1) && |spots| <= 100
    requires EventAt(n - 1).Cell? ==> !Present(s, EventAt(n - 1).at)
    ensures Numbered(s, spots, cells, n)
  {
    forall x: nat, y: nat | x < ChipCount && y < 14 && 15 * x + y == n - 1
      ensures !Present(s, Spot(x, y))
    {
      KeyOfSlot(x, y);
    }
  }

  /** Numbering the present cell visited by event n-1. */
  lemma NumberedAdd(s: Store, spots: seq<Spot>, cells: seq<u16>, n: nat, p: Spot)
    requires Valid(s) && 0 < n <= MaxEvents && Numbered(s, spots, cells, n - 1) && |spots| <= 100
    requires EventAt(n - 1) == Cell(p) && Present(s, p)
    ensures Numbered(s, spots + [p], cells + [s.voltage[p.chip][p.slot]], n)
  {
    KeyOfSlot(p.chip, p.slot);
    var spots', cells' := spots + [p], cells + [s.voltage[p.chip][p.slot]];
    forall x: nat, y: nat | x < ChipCount && y < 14 && 15 * x + y < Reached(spots', n) && Present(s, Spot(x, y))
      ensures Spot(x, y) in spots'
    {
      if 15 * x + y == n - 1 {
        KeyOfSlot(x, y);
        assert Spot(x, y) == spots'[|spots|];
      } else {
        assert Spot(x, y) in spots;
      }
    }
  }

  lemma {:induction false} WalkNumbers(s: Store, cfg: Settings, n: nat)
    requires Valid(s) && n <= MaxEvents
    ensures var st := Walk(s, cfg, n); Numbered(s, st.spots, st.cells, n)
    decreases n
  {
    if n > 0 {
      WalkNumbers(s, cfg, n - 1);
      var pre := Walk(s, cfg, n - 1);
      var e := EventAt(n - 1);
      if |pre.cells| > 100 {
        NumberedStalled(s, pre.spots, pre.cells, n);
      } else if e.Cell? && Present(s, e.at) {
        NumberedAdd(s, pre.spots, pre.cells, n, e.at);
      } else {
        NumberedSkip(s, pre.spots, pre.cells, n);
      }
    }
  }

  // ------------------------------------------------------------- extremes

  /**
   * The extremes after numbering `cells`: CellVMax is the highest cell and
   * CellMax the number of its first occurrence; CellVMin is the lowest cell
   * below 5000 and CellMin the number of its first occurrence, and CellMin is
   * left unwritten exactly when no cell is below 5000.
   */
  predicate Extremes(cells: seq<u16>, vmax: int, maxAt: Option<nat>, vmin: int, minAt: Option<nat>)
  {
    && (forall i | 0 <= i < |cells| :: 10 < cells[i] <= vmax)
    && (cells == [] ==> vmax == 0 && maxAt == None)
    && (cells != [] ==>
          && maxAt.Some? && 1 <= maxAt.value <= |cells| && cells[maxAt.value - 1] == vmax
          && forall j | 0 <= j < maxAt.value - 1 :: cells[j] < vmax)
    && vmin <= 5000
    && (forall i | 0 <= i < |cells| :: vmin <= cells[i])
    && (minAt == None ==> vmin == 5000)
    && (minAt.Some? ==>
          && 1 <= minAt.value <= |cells| && cells[minAt.value - 1] == vmin < 5000
          && forall j | 0 <= j < minAt.value - 1 :: cells[j] > vmin)
  }

  /** Counting a cell keeps the extremes, with strict comparisons leaving the first occurrence in place. */
  lemma ExtremesAdd(cells: seq<u16>, vmax: int, maxAt: Option<nat>, vmin: int, minAt: Option<nat>, u: u16)
    requires Extremes(cells, vmax, maxAt, vmin, minAt) && u > 10
    ensures var h := |cells|;
      Extremes(cells + [u],
               if vmax < u then u else vmax, if vmax < u then Some(h + 1) else maxAt,
               if vmin > u then u else vmin, if vmin > u then Some(h + 1) else minAt)
  {
  }

  /** The extremes a scan state tracks are those of its recorded cells. */
  predicate ScanExtremes(st: Scan)
  {
    Extremes(st.cells, st.vmax, st.maxAt, st.vmin, st.minAt)
  }

  lemma {:induction false} WalkExtremes(s: Store, cfg: Settings, n: nat)
    requires Valid(s) && n <= MaxEvents
    ensures ScanExtremes(Walk(s, cfg, n))
    decreases n
  {
    if n > 0 {
      WalkExtremes(s, cfg, n - 1);
      WalkStepExtremes(s, cfg, n);
    }
  }

  lemma WalkStepExtremes(s: Store, cfg: Settings, n: nat)
    requires Valid(s) && 0 < n <= MaxEvents
    ensures ScanExtremes(Walk(s, cfg, n - 1)) ==> ScanExtremes(Walk(s, cfg, n))
  {
    var pre := Walk(s, cfg, n - 1);
    if ScanExtremes(pre) {
      StepExtremes(s, cfg, pre, n - 1);
      ScanExtremesSame(Step(s, cfg, pre, n - 1), Walk(s, cfg, n));
    }
  }

  /** One iteration keeps the extremes. */
  lemma StepExtremes(s: Store, cfg: Settings, pre: Scan, n: nat)
    requires Valid(s) && |pre.cmd| == ChipCount && n < MaxEvents
    requires ScanExtremes(pre)
    ensures ScanExtremes(Step(s, cfg, pre, n))
  {
    var e := EventAt(n);
    if |pre.cells| <= 100 && e.Cell? && Present(s, e.at) {
      ExtremesAdd(pre.cells, pre.vmax, pre.maxAt, pre.vmin, pre.minAt, s.voltage[e.at.chip][e.at.slot]);
    }
  }

  lemma ScanExtremesSame(st: Scan, st': Scan)
    requires st' == st
    ensures ScanExtremes(st) ==> ScanExtremes(st')
  {
  }

  // -------------------------------------------------------- balance masks

  /** The slots of chip x visited before event n: slot y is visited when 15x + y < n. */
  function Reach(n: nat, x: nat): nat
  {
    if n <= 15 * x then 0 else if n - 15 * x >= 14 then 14 else n - 15 * x
  }

  /** Total number of set bits over the eight masks. */
  function PopSum(cmd: seq<u16>): nat
  {
    if cmd == [] then 0 else PopSum(cmd[..|cmd| - 1]) + Popcount(cmd[|cmd| - 1], 16)
  }

  lemma {:induction false} PopSumOfZeros(cmd: seq<u16>)
    requires forall i | 0 <= i < |cmd| :: cmd[i] == 0
    ensures PopSum(cmd) == 0
    decreases |cmd|
  {
    if cmd != [] {
      PopSumOfZeros(cmd[..|cmd| - 1]);
      PopcountOfZero(16);
    }
  }

  lemma {:induction false} PopSumUpdate(cmd: seq<u16>, x: nat, v: u16)
    requires x < |cmd|
    ensures PopSum(cmd[x := v]) + Popcount(cmd[x], 16) == PopSum(cmd) + Popcount(v, 16)
    decreases |cmd|
  {
    var c := cmd[x := v];
    var k := |cmd| - 1;
    if x < k {
      assert c[..k] == cmd[..k][x := v];
      PopSumUpdate(cmd[..k], x, v);
    } else {
      assert c[..k] == cmd[..k];
    }
  }

  /** Only the slots of chip x visited before event n can have bits in CellBalCmd[x]. */
  ghost predicate MaskBound(cmd: seq<u16>, n: nat)
  {
    |cmd| == ChipCount && forall x | 0 <= x < ChipCount :: cmd[x] < Pow2(Reach(n, x))
  }

  /** Bit y of CellBalCmd[x] is set exactly when cell (x, y) has been numbered and is hot. */
  ghost predicate MaskBits(s: Store, cfg: Settings, spots: seq<Spot>, cmd: seq<u16>)
    requires Valid(s)
  {
    |cmd| == ChipCount &&
    forall x, y | 0 <= x < ChipCount ::
      Bit(cmd[x], y) <==> y < 14 && Spot(x, y) in spots && Hot(s, cfg, Spot(x, y))
  }

  /**
   * The balance state after n events: the masks as above, CellBalancing
   * counts their set bits and BalanceFlag tells whether there is any.
   */
  ghost predicate Balanced(s: Store, cfg: Settings, spots: seq<Spot>, cmd: seq<u16>, balancing: nat, flag: bool, n: nat)
    requires Valid(s)
  {
    && MaskBound(cmd, n)
    && MaskBits(s, cfg, spots, cmd)
    && balancing == PopSum(cmd)
    && (flag <==> balancing > 0)
  }

  /** Later events only widen the bound. */
  lemma MaskBoundLater(cmd: seq<u16>, n: nat)
    requires 0 < n && MaskBound(cmd, n - 1)
    ensures MaskBound(cmd, n)
  {
    forall x | 0 <= x < ChipCount ensures cmd[x] < Pow2(Reach(n, x)) {
      Pow2Monotone(Reach(n - 1, x), Reach(n, x));
    }
  }

  /** The cell visited by event n-1 has not been numbered yet. */
  lemma NumberedFresh(s: Store, spots: seq<Spot>, cells: seq<u16>, n: nat, p: Spot)
    requires Valid(s) && 0 < n && Numbered(s, spots, cells, n - 1) && Key(p) == n - 1
    ensures p !in spots
  {
  }

  /** The new bit of a hot cell: it lands below bit 14, so the 16-bit addition cannot wrap. */
  lemma HotFits(v: nat, y: nat)
    requires v < Pow2(y) && y < 14
    ensures v + Pow2(y) < Pow2(y + 1) <= 0x4000
    ensures (v + Pow2(y)) % 0x1_0000 == v + Pow2(y)
  {
    AddFreshBit(v, y, 0);
    Pow2Monotone(y + 1, 14);
    Pow2Fourteen();
  }

  lemma HotBound(cmd: seq<u16>, n: nat, x: nat, y: nat, v: u16)
    requires 0 < n && MaskBound(cmd, n - 1) && x < ChipCount && y < 14 && 15 * x + y == n - 1
    requires v < Pow2(y + 1)
    ensures MaskBound(cmd[x := v], n)
  {
    assert Reach(n, x) == y + 1;
    MaskBoundLater(cmd, n);
  }

  lemma HotBits(s: Store, cfg: Settings, spots: seq<Spot>, cmd: seq<u16>, x: nat, y: nat, v: u16)
    requires Valid(s) && MaskBits(s, cfg, spots, cmd) && x < ChipCount && y < 14
    requires Spot(x, y) !in spots && Hot(s, cfg, Spot(x, y))
    requires cmd[x] < Pow2(y) && v == cmd[x] + Pow2(y)
    ensures MaskBits(s, cfg, spots + [Spot(x, y)], cmd[x := v])
  {
    var cmd' := cmd[x := v];
    forall x': int, k: nat | 0 <= x' < ChipCount
      ensures Bit(cmd'[x'], k) <==> k < 14 && Spot(x', k) in spots + [Spot(x, y)] && Hot(s, cfg, Spot(x', k))
    {
      HotBitAt(s, cfg, spots, cmd, x, y, v, x', k);
    }
    MaskBitsIntro(s, cfg, spots + [Spot(x, y)], cmd');
  }

  lemma MaskBitsIntro(s: Store, cfg: Settings, spots: seq<Spot>, cmd: seq<u16>)
    requires Valid(s) && |cmd| == ChipCount
    requires forall x: int, y: nat | 0 <= x < ChipCount ::
      Bit(cmd[x], y) <==> y < 14 && Spot(x, y) in spots && Hot(s, cfg, Spot(x, y))
    ensures MaskBits(s, cfg, spots, cmd)
  {
  }

  /** One bit of HotBits: the new bit in chip x, every other bit as before. */
  lemma HotBitAt(s: Store, cfg: Settings, spots: seq<Spot>, cmd: seq<u16>, x: nat, y: nat, v: u16, x': nat, k: nat)
    requires Valid(s) && MaskBits(s, cfg, spots, cmd) && x < ChipCount && y < 14 && x' < ChipCount
    requires Spot(x, y) !in spots && Hot(s, cfg, Spot(x, y))
    requires cmd[x] < Pow2(y) && v == cmd[x] + Pow2(y)
    ensures Bit(cmd[x := v][x'], k) <==> k < 14 && Spot(x', k) in spots + [Spot(x, y)] && Hot(s, cfg, Spot(x', k))
  {
    assert Bit(cmd[x'], k) <==> k < 14 && Spot(x', k) in spots && Hot(s, cfg, Spot(x', k));
    assert Spot(x', k) in spots + [Spot(x, y)] <==> Spot(x', k) in spots || (x' == x && k == y);
    if x' == x {
      AddFreshBit(cmd[x], y, k);
    } else {
      assert cmd[x := v][x'] == cmd[x'];
    }
  }

  lemma CoolBits(s: Store, cfg: Settings, spots: seq<Spot>, cmd: seq<u16>, x: nat, y: nat)
    requires Valid(s) && MaskBits(s, cfg, spots, cmd) && x < ChipCount && y < 14
    requires !Hot(s, cfg, Spot(x, y))
    ensures MaskBits(s, cfg, spots + [Spot(x, y)], cmd)
  {
  }

  /** Numbering a hot cell sets its bit, which was clear, and counts one more balanced cell. */
  lemma BalancedHot(s: Store, cfg: Settings, spots: seq<Spot>, cmd: seq<u16>, balancing: nat, flag: bool, n: nat, p: Spot)
    requires Valid(s) && 0 < n <= MaxEvents && p !in spots
    requires Balanced(s, cfg, spots, cmd, balancing, flag, n - 1)
    requires EventAt(n - 1) == Cell(p) && Hot(s, cfg, p)
    ensures p.chip < ChipCount && p.slot < 14
    ensures Balanced(s, cfg, spots + [p], cmd[p.chip := (cmd[p.chip] + Pow2(p.slot)) % 0x1_0000], balancing + 1, true, n)
  {
    var x, y := p.chip, p.slot;
    KeyOfSlot(x, y);
    assert Reach(n - 1, x) == y;
    HotFits(cmd[x], y);
    var v: u16 := cmd[x] + Pow2(y);
    HotBound(cmd, n, x, y, v);
    HotBits(s, cfg, spots, cmd, x, y, v);
    AddFreshBitCount(cmd[x], y, 16);
    PopSumUpdate(cmd, x, v);
  }

  /** One iteration keeps the balance state. */
  lemma StepBalance(s: Store, cfg: Settings, pre: Scan, n: nat)
    requires Valid(s) && 0 < n <= MaxEvents && |pre.cmd| == ChipCount
    requires Numbered(s, pre.spots, pre.cells, n - 1)
    requires Balanced(s, cfg, pre.spots, pre.cmd, pre.balancing, pre.flag, n - 1)
    ensures var st := Step(s, cfg, pre, n - 1); Balanced(s, cfg, st.spots, st.cmd, st.balancing, st.flag, n)
  {
    var e := EventAt(n - 1);
    if |pre.cells| <= 100 && e.Cell? && Present(s, e.at) {
      KeyOfSlot((n - 1) / 15, (n - 1) % 15);
      NumberedFresh(s, pre.spots, pre.cells, n, e.at);
      StepBalanceCell(s, cfg, pre, n, e.at);
    } else {
      var st := Step(s, cfg, pre, n - 1);
      MaskBoundLater(pre.cmd, n);
      assert st.spots == pre.spots && st.cmd == pre.cmd && st.balancing == pre.balancing && st.flag == pre.flag;
    }
  }

  /** StepBalance for a present cell: a hot one sets its bit, a cool one leaves the masks alone. */
  lemma StepBalanceCell(s: Store, cfg: Settings, pre: Scan, n: nat, p: Spot)
    requires Valid(s) && 0 < n <= MaxEvents && |pre.cmd| == ChipCount
    requires p !in pre.spots
    requires Balanced(s, cfg, pre.spots, pre.cmd, pre.balancing, pre.flag, n - 1)
    requires |pre.cells| <= 100 && EventAt(n - 1) == Cell(p) && Present(s, p)
    ensures var st := Step(s, cfg, pre, n - 1); Balanced(s, cfg, st.spots, st.cmd, st.balancing, st.flag, n)
  {
    assert Step(s, cfg, pre, n - 1) == CountCell(s, cfg, pre, p);
    CountCellBalance(s, cfg, pre, p);
    if Hot(s, cfg, p) {
      BalancedHot(s, cfg, pre.spots, pre.cmd, pre.balancing, pre.flag, n, p);
    } else {
      KeyOfSlot(p.chip, p.slot);
      MaskBoundLater(pre.cmd, n);
      CoolBits(s, cfg, pre.spots, pre.cmd, p.chip, p.slot);
    }
  }

  /** The balance fields of CountCell: a hot cell adds its bit, its count and the flag; a cool one none of them. */
  lemma CountCellBalance(s: Store, cfg: Settings, pre: Scan, p: Spot)
    requires Valid(s) && |pre.cmd| == ChipCount && p.chip < ChipCount && p.slot < SlotCount
    ensures var st := CountCell(s, cfg, pre, p);
      && st.spots == pre.spots + [p]
      && (Hot(s, cfg, p) ==>
            st.cmd == pre.cmd[p.chip := (pre.cmd[p.chip] + Pow2(p.slot)) % 0x1_0000]
            && st.balancing == pre.balancing + 1 && st.flag)
      && (!Hot(s, cfg, p) ==> st.cmd == pre.cmd && st.balancing == pre.balancing && st.flag == pre.flag)
  {
  }

  lemma StartBalanced(s: Store, cfg: Settings)
    requires Valid(s)
    ensures var st := Start(); Balanced(s, cfg, st.spots, st.cmd, st.balancing, st.flag, 0)
  {
    var cmd := Start().cmd;
    forall x, y | 0 <= x < ChipCount ensures !Bit(cmd[x], y) {
      ZeroHasNoBits(y);
    }
    PopSumOfZeros(cmd);
  }

  lemma {:induction false} WalkBalance(s: Store, cfg: Settings, n: nat)
    requires Valid(s) && n <= MaxEvents
    ensures var st := Walk(s, cfg, n); Balanced(s, cfg, st.spots, st.cmd, st.balancing, st.flag, n)
    decreases n
  {
    if n == 0 {
      StartBalanced(s, cfg);
    } else {
      WalkBalance(s, cfg, n - 1);
      WalkNumbers(s, cfg, n - 1);
      StepBalance(s, cfg, Walk(s, cfg, n - 1), n);
    }
  }

  // ------------------------------------------------------- per-chip counts

  /** The number of present cells among slots 0..k-1 of chip x (none for a chip beyond the store). */
  function PresentCount(s: Store, x: nat, k: nat): nat
    requires Valid(s) && k <= 14
  {
    if k == 0 || x >= ChipCount then 0
    else PresentCount(s, x, k - 1) + (if Present(s, Spot(x, k - 1)) then 1 else 0)
  }

  /** The number of present cells on chips 0..c-1. */
  function ChipTotal(s: Store, c: nat): nat
    requires Valid(s)
  {
    if c == 0 then 0 else ChipTotal(s, c - 1) + PresentCount(s, c - 1, 14)
  }

  /** The number of present cells among the slots visited by the first n events. */
  function Visited(s: Store, n: nat): nat
    requires Valid(s)
  {
    ChipTotal(s, n / 15) + PresentCount(s, n / 15, n % 15)
  }

  function Total(xs: seq<nat>): nat
  {
    if xs == [] then 0 else Total(xs[..|xs| - 1]) + xs[|xs| - 1]
  }

  function Min(a: nat, b: nat): nat
  {
    if a <= b then a else b
  }

  /**
   * The counts after n events: the loop has numbered every present cell it
   * visited, up to 101; the per-chip counts written so far add up with the
   * current chip's count to the cells numbered; and while the loop runs,
   * every closed chip's count is its number of present cells.
   */
  ghost predicate ChipsCounted(s: Store, st: Scan, n: nat)
    requires Valid(s)
  {
    && |st.cells| == Min(Visited(s, n), 101)
    && |st.cells| == Total(st.chipCells) + st.hc
    && (|st.cells| <= 100 ==>
          && |st.chipCells| == n / 15
          && (forall x | 0 <= x < n / 15 :: st.chipCells[x] == PresentCount(s, x, 14))
          && st.hc == PresentCount(s, n / 15, n % 15))
  }

  /** Visiting slot y of chip x: a present cell adds to the chip's count and to the total. */
  lemma StepChipsCell(s: Store, cfg: Settings, pre: Scan, n: nat, x: nat, y: nat)
    requires Valid(s) && 0 < n <= MaxEvents && |pre.cmd| == ChipCount
    requires y < 14 && n - 1 == 15 * x + y
    requires ChipsCounted(s, pre, n - 1)
    ensures ChipsCounted(s, Step(s, cfg, pre, n - 1), n)
  {
    KeyOfSlot(x, y);
    KeyOfSlot(x, y + 1);
    var st := Step(s, cfg, pre, n - 1);
    assert Visited(s, n) == Visited(s, n - 1) + (if Present(s, Spot(x, y)) then 1 else 0);
    if |pre.cells| <= 100 && Present(s, Spot(x, y)) {
      assert st == CountCell(s, cfg, pre, Spot(x, y));
      assert st.chipCells == pre.chipCells && st.hc == pre.hc + 1;
    }
  }

  /** Closing chip x writes its count and starts the next chip at zero. */
  lemma StepChipsEnd(s: Store, cfg: Settings, pre: Scan, n: nat, x: nat)
    requires Valid(s) && 0 < n <= MaxEvents && |pre.cmd| == ChipCount
    requires n - 1 == 15 * x + 14
    requires ChipsCounted(s, pre, n - 1)
    ensures ChipsCounted(s, Step(s, cfg, pre, n - 1), n)
  {
    KeyOfSlot(x, 14);
    KeyOfSlot(x + 1, 0);
    var st := Step(s, cfg, pre, n - 1);
    assert Visited(s, n) == Visited(s, n - 1);
    if |pre.cells| <= 100 {
      assert st == CloseChip(pre);
      assert st.chipCells[..|st.chipCells| - 1] == pre.chipCells;
    }
  }

  /** While the loop runs, one count has been written per closed chip. */
  lemma WalkClosedChips(s: Store, cfg: Settings, n: nat)
    requires Valid(s) && n <= MaxEvents
    ensures var st := Walk(s, cfg, n); |st.cells| <= 100 ==> |st.chipCells| == n / 15
  {
    WalkChips(s, cfg, n);
  }

  lemma {:induction false} WalkChips(s: Store, cfg: Settings, n: nat)
    requires Valid(s) && n <= MaxEvents
    ensures ChipsCounted(s, Walk(s, cfg, n), n)
    decreases n
  {
    if n > 0 {
      WalkChips(s, cfg, n - 1);
      var x, y := (n - 1) / 15, (n - 1) % 15;
      if y < 14 {
        StepChipsCell(s, cfg, Walk(s, cfg, n - 1), n, x, y);
      } else {
        StepChipsEnd(s, cfg, Walk(s, cfg, n - 1), n, x);
      }
    }
  }
}
