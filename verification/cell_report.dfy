/**
 * The parameter-store side of upDateCellVolts: the writes the pass makes
 * while it scans (CellMax, CellMin, u1+h, Chip1Cells+Xr), the statistics it
 * publishes when it reaches its `break` (umax, umin, deltaV, CellsPresent)
 * and CellsBalancing, written on every pass.
 *
 * Parameters are keyed by their position in the name table. The pass reads
 * `balance` and `umin` from the store at every present cell; no write of
 * the pass touches either key, so the whole pass uses the values stored
 * before it began (WritesKeepSettings).
 */
module CellReport {
  import opened Common
  import opened Registers
  import opened Aggregation
  import opened CellPass
  import opened Params

  const CellsPresentKey: int := 3
  const CellsBalancingKey: int := 4
  /** The key of u1; cell number h+1 is written to U1Key + h. */
  const U1Key: int := 6
  const CellMaxKey: int := 114
  const CellMinKey: int := 115
  const UmaxKey: int := 116
  const UminKey: int := 117
  const DeltaVKey: int := 118
  const BalanceKey: int := 123
  /** The key of Chip1Cells; the count of chip Xr is written to Chip1CellsKey + Xr. */
  const Chip1CellsKey: int := 141

  /** The keys of the firmware's pack parameters are their table positions. */
  lemma PackKeysAsNamed()
    ensures GetParamName(CellsPresentKey) == "CellsPresent"
    ensures GetParamName(CellsBalancingKey) == "CellsBalancing"
    ensures GetParamName(U1Key) == "u1"
  {
    CellNamesAsListed();
  }

  /** The keys of the statistics and of `balance` are their table positions. */
  lemma StatisticKeysAsNamed()
    ensures GetParamName(CellMaxKey) == "CellMax" && GetParamName(CellMinKey) == "CellMin"
    ensures GetParamName(UmaxKey) == "umax" && GetParamName(UminKey) == "umin"
    ensures GetParamName(DeltaVKey) == "deltaV" && GetParamName(BalanceKey) == "balance"
    ensures GetParamName(Chip1CellsKey) == "Chip1Cells"
  {
    assert |CellNames()| == CellParams;
    assert Names[CellMaxKey] == Tail[0] && Names[CellMinKey] == Tail[1];
    assert Names[UmaxKey] == Tail[2] && Names[UminKey] == Tail[3];
    assert Names[DeltaVKey] == Tail[4] && Names[BalanceKey] == Tail[9];
    assert Names[Chip1CellsKey] == Tail[27];
  }

  /** Cell number i+1 is stored under its own name u(i+1), for every cell the table has a name for. */
  lemma CellKeyNamed(i: nat)
    requires i < CellParams
    ensures GetParamName(U1Key + i) == CellName(i + 1)
  {
    assert Names[U1Key + i] == CellNames()[i];
  }

  /**
   * The table names only four chip counts: the counts of chips 4 and 5
   * (0-based) land on the keys named "current" and "as8510_temp", and those
   * of chips 6 and 7 on keys outside the table.
   */
  lemma ChipCountNames(x: nat)
    requires x < ChipCount
    ensures x < 4 ==> GetParamName(Chip1CellsKey + x) == ["Chip1Cells", "Chip2Cells", "Chip3Cells", "Chip4Cells"][x]
    ensures x == 4 ==> GetParamName(Chip1CellsKey + x) == "current"
    ensures x == 5 ==> GetParamName(Chip1CellsKey + x) == "as8510_temp"
    ensures x >= 6 ==> GetParamName(Chip1CellsKey + x) == "unknown"
  {
    assert |Names| == 147;
  }

  /** The settings a pass reads from the store: `GetInt(balance)` and `GetFloat(umin)`. */
  function SettingsOf(ps: ParamStore): Settings
  {
    Settings(IntOf(ps, BalanceKey), FloatOf(ps, UminKey))
  }

  /**
   * `balance` reads 0 in the start-up store, so a pass run on it switches no
   * cell to balancing, whatever the registers hold (BatStart sets ChipNum
   * to numbmbs * 2, which is 2 at start-up).
   */
  lemma StartUpPass(s: Store, chipNum: nat)
    requires Valid(s) && chipNum <= ChipCount
    ensures SettingsOf(Initial) == Settings(0, 0.0)
    ensures var st := Final(s, SettingsOf(Initial), chipNum);
      (forall x | 0 <= x < ChipCount :: st.cmd[x] == 0) && st.balancing == 0 && !st.flag
  {
    InitialReadings();
    BalanceDisabled(s, SettingsOf(Initial), chipNum);
  }

  // ------------------------------------------------------- writes of the scan

  /**
   * The store operations at a present cell p, given the scan state before
   * it: CellMax and CellMin on a new extreme, u1+h, the read of `balance`
   * and, when balancing is on, the read of `umin` (reads insert missing keys).
   */
  function RecordCell(s: Store, ps: ParamStore, st: Scan, p: Spot): ParamStore
    requires Valid(s) && p.chip < ChipCount && p.slot < SlotCount
  {
    var u := s.voltage[p.chip][p.slot];
    var h := |st.cells|;
    var a := if st.vmax < u then SetInt(ps, CellMaxKey, h + 1) else ps;
    var b := if st.vmin > u then SetInt(a, CellMinKey, h + 1) else a;
    var c := SetFloat(b, U1Key + h, u as real);
    var d := GetInt(c, BalanceKey);
    if d.0 != 0 then GetFloat(d.1, UminKey).1 else d.1
  }

  /** The store operations of event n of the loop, mirroring Aggregation.Step. */
  function Record(s: Store, ps: ParamStore, st: Scan, n: nat): ParamStore
    requires Valid(s) && n < MaxEvents
  {
    if |st.cells| > 100 then ps
    else match EventAt(n)
      case ChipEnd(x) => SetInt(ps, Chip1CellsKey + x, st.hc)
      case Cell(p) => if Present(s, p) then RecordCell(s, ps, st, p) else ps
  }

  /** The store after the first n events of a pass that starts from `ps0`. */
  function Writes(s: Store, ps0: ParamStore, n: nat): ParamStore
    requires Valid(s) && n <= MaxEvents
  {
    if n == 0 then ps0
    else Record(s, Writes(s, ps0, n - 1), Walk(s, SettingsOf(ps0), n - 1), n - 1)
  }

  /** After the loop: the statistics on a published pass, then CellsBalancing. */
  function Finish(ps: ParamStore, st: Scan, published: bool): ParamStore
  {
    var p := if published then
      SetInt(SetFloat(SetFloat(SetFloat(ps, UmaxKey, st.vmax as real), UminKey, st.vmin as real),
                      DeltaVKey, (st.vmax - st.vmin) as real),
             CellsPresentKey, |st.cells|)
    else ps;
    SetInt(p, CellsBalancingKey, st.balancing)
  }

  /** The store after one whole pass over `chipNum` chips. */
  function Report(s: Store, ps0: ParamStore, chipNum: nat): ParamStore
    requires Valid(s) && chipNum <= ChipCount
  {
    var cfg := SettingsOf(ps0);
    Finish(Writes(s, ps0, EventCount(chipNum)), Final(s, cfg, chipNum), Published(s, cfg, chipNum))
  }

  // ------------------------------------------- what the scan's writes amount to

  /** The integer a key reads after the scan has reached `st`: the last position written to CellMax/CellMin, the closed chips' counts, else the old value. */
  function IntAfter(ps0: ParamStore, st: Scan, k: int): int
  {
    if k == CellMaxKey && st.maxAt.Some? then st.maxAt.value
    else if k == CellMinKey && st.minAt.Some? then st.minAt.value
    else if Chip1CellsKey <= k < Chip1CellsKey + |st.chipCells| then st.chipCells[k - Chip1CellsKey]
    else IntOf(ps0, k)
  }

  /** The float a key reads after the scan has reached `st`: the numbered cells' voltages, else the old value. */
  function FloatAfter(ps0: ParamStore, st: Scan, k: int): real
  {
    if U1Key <= k < U1Key + |st.cells| then st.cells[k - U1Key] as real else FloatOf(ps0, k)
  }

  /** Every reading of `ps` is the one the scan state `st` accounts for. */
  ghost predicate Tracks(ps0: ParamStore, st: Scan, ps: ParamStore)
  {
    forall k :: IntOf(ps, k) == IntAfter(ps0, st, k) && FloatOf(ps, k) == FloatAfter(ps0, st, k)
  }

  lemma CellTracks(s: Store, cfg: Settings, ps0: ParamStore, pre: Scan, ps: ParamStore, p: Spot)
    requires Valid(s) && |pre.cmd| == ChipCount && p.chip < ChipCount && p.slot < SlotCount
    requires Tracks(ps0, pre, ps)
    ensures Tracks(ps0, CountCell(s, cfg, pre, p), RecordCell(s, ps, pre, p))
  {
    var st := CountCell(s, cfg, pre, p);
    var r := RecordCell(s, ps, pre, p);
    var u := s.voltage[p.chip][p.slot];
    var h := |pre.cells|;
    var a := if pre.vmax < u then SetInt(ps, CellMaxKey, h + 1) else ps;
    var b := if pre.vmin > u then SetInt(a, CellMinKey, h + 1) else a;
    var c := SetFloat(b, U1Key + h, u as real);
    assert st.cells == pre.cells + [u] && st.chipCells == pre.chipCells;
    forall k ensures IntOf(r, k) == IntAfter(ps0, st, k) && FloatOf(r, k) == FloatAfter(ps0, st, k) {
      assert IntOf(r, k) == IntOf(c, k) == IntOf(b, k) && FloatOf(r, k) == FloatOf(c, k);
      assert FloatOf(b, k) == FloatOf(ps, k);
    }
  }

  lemma EndTracks(ps0: ParamStore, pre: Scan, ps: ParamStore, x: nat)
    requires Tracks(ps0, pre, ps) && |pre.chipCells| == x
    ensures Tracks(ps0, CloseChip(pre), SetInt(ps, Chip1CellsKey + x, pre.hc))
  {
  }

  lemma StepTracks(s: Store, cfg: Settings, ps0: ParamStore, pre: Scan, ps: ParamStore, n: nat)
    requires Valid(s) && n < MaxEvents && |pre.cmd| == ChipCount
    requires Tracks(ps0, pre, ps)
    requires |pre.cells| <= 100 ==> |pre.chipCells| == n / 15
    ensures Tracks(ps0, Step(s, cfg, pre, n), Record(s, ps, pre, n))
  {
    if |pre.cells| <= 100 {
      match EventAt(n)
      case ChipEnd(x) =>
        EndTracks(ps0, pre, ps, x);
      case Cell(p) =>
        if Present(s, p) {
          CellTracks(s, cfg, ps0, pre, ps, p);
        }
    }
  }

  lemma TracksSame(ps0: ParamStore, st: Scan, ps: ParamStore, st': Scan, ps': ParamStore)
    requires st' == st && ps' == ps
    ensures Tracks(ps0, st, ps) ==> Tracks(ps0, st', ps')
  {
  }

  /** The store after n events holds exactly what the scan state after n events accounts for. */
  lemma {:induction false} WritesTrack(s: Store, ps0: ParamStore, n: nat)
    requires Valid(s) && n <= MaxEvents
    ensures Tracks(ps0, Walk(s, SettingsOf(ps0), n), Writes(s, ps0, n))
    decreases n
  {
    if n > 0 {
      WritesTrack(s, ps0, n - 1);
      WritesStepTracks(s, ps0, n);
    }
  }

  lemma WritesStepTracks(s: Store, ps0: ParamStore, n: nat)
    requires Valid(s) && 0 < n <= MaxEvents
    ensures Tracks(ps0, Walk(s, SettingsOf(ps0), n - 1), Writes(s, ps0, n - 1))
        ==> Tracks(ps0, Walk(s, SettingsOf(ps0), n), Writes(s, ps0, n))
  {
    var cfg := SettingsOf(ps0);
    var pre, ps := Walk(s, cfg, n - 1), Writes(s, ps0, n - 1);
    WritesUnfold(s, ps0, n);
    if Tracks(ps0, pre, ps) {
      WalkClosedChips(s, cfg, n - 1);
      StepTracks(s, cfg, ps0, pre, ps, n - 1);
      TracksSame(ps0, Step(s, cfg, pre, n - 1), Record(s, ps, pre, n - 1), Walk(s, cfg, n), Writes(s, ps0, n));
    }
  }

  /** One more event: the scan takes one Step and the store one Record. */
  lemma WritesUnfold(s: Store, ps0: ParamStore, n: nat)
    requires Valid(s) && 0 < n <= MaxEvents
    ensures var cfg := SettingsOf(ps0);
      && Walk(s, cfg, n) == Step(s, cfg, Walk(s, cfg, n - 1), n - 1)
      && Writes(s, ps0, n) == Record(s, Writes(s, ps0, n - 1), Walk(s, cfg, n - 1), n - 1)
  {
  }

  /**
   * No write of the scan touches `balance` or `umin`: every balance
   * decision of the pass uses the values stored before the pass.
   */
  lemma WritesKeepSettings(s: Store, ps0: ParamStore, n: nat)
    requires Valid(s) && n <= MaxEvents
    ensures SettingsOf(Writes(s, ps0, n)) == SettingsOf(ps0)
  {
    WritesTrack(s, ps0, n);
    WalkChips(s, SettingsOf(ps0), n);
    var ps := Writes(s, ps0, n);
    assert IntOf(ps, BalanceKey) == IntAfter(ps0, Walk(s, SettingsOf(ps0), n), BalanceKey);
    assert FloatOf(ps, UminKey) == FloatAfter(ps0, Walk(s, SettingsOf(ps0), n), UminKey);
  }

  // ---------------------------------------------------------- a whole pass

  /** What the code after the loop writes: the four statistics when published, CellsBalancing always, nothing else. */
  lemma FinishReadings(ps: ParamStore, st: Scan, published: bool)
    ensures var out := Finish(ps, st, published);
      && (forall k | k != CellsPresentKey && k != CellsBalancingKey :: IntOf(out, k) == IntOf(ps, k))
      && (forall k | k != UmaxKey && k != UminKey && k != DeltaVKey :: FloatOf(out, k) == FloatOf(ps, k))
      && (published ==>
            && FloatOf(out, UmaxKey) == st.vmax as real
            && FloatOf(out, UminKey) == st.vmin as real
            && FloatOf(out, DeltaVKey) == FloatOf(out, UmaxKey) - FloatOf(out, UminKey)
            && IntOf(out, CellsPresentKey) == |st.cells|)
      && (!published ==>
            && FloatOf(out, UmaxKey) == FloatOf(ps, UmaxKey)
            && FloatOf(out, UminKey) == FloatOf(ps, UminKey)
            && FloatOf(out, DeltaVKey) == FloatOf(ps, DeltaVKey)
            && IntOf(out, CellsPresentKey) == IntOf(ps, CellsPresentKey))
      && IntOf(out, CellsBalancingKey) == st.balancing
  {
  }

  /** The readings the scan leaves behind, at the keys a pass cares about. */
  lemma ScanReadings(s: Store, ps0: ParamStore, chipNum: nat)
    requires Valid(s) && chipNum <= ChipCount
    ensures var cfg := SettingsOf(ps0);
      var st := Final(s, cfg, chipNum);
      var w := Writes(s, ps0, EventCount(chipNum));
      && |st.cells| <= 101
      && (forall k | U1Key <= k < U1Key + |st.cells| :: FloatOf(w, k) == st.cells[k - U1Key] as real)
      && (forall k | U1Key + |st.cells| <= k < U1Key + CellParams :: FloatOf(w, k) == FloatOf(ps0, k))
      && IntOf(w, CellMaxKey) == (if st.maxAt.Some? then st.maxAt.value else IntOf(ps0, CellMaxKey))
      && IntOf(w, CellMinKey) == (if st.minAt.Some? then st.minAt.value else IntOf(ps0, CellMinKey))
      && (forall k | Chip1CellsKey <= k < Chip1CellsKey + |st.chipCells| :: IntOf(w, k) == st.chipCells[k - Chip1CellsKey])
      && FloatOf(w, UmaxKey) == FloatOf(ps0, UmaxKey)
      && FloatOf(w, UminKey) == FloatOf(ps0, UminKey)
      && FloatOf(w, DeltaVKey) == FloatOf(ps0, DeltaVKey)
      && IntOf(w, CellsPresentKey) == IntOf(ps0, CellsPresentKey)
      && IntOf(w, BalanceKey) == IntOf(ps0, BalanceKey)
  {
    var n := EventCount(chipNum);
    WritesTrack(s, ps0, n);
    WalkChips(s, SettingsOf(ps0), n);
    var st := Final(s, SettingsOf(ps0), chipNum);
    var w := Writes(s, ps0, n);
    assert IntOf(w, CellMaxKey) == IntAfter(ps0, st, CellMaxKey);
    assert IntOf(w, CellMinKey) == IntAfter(ps0, st, CellMinKey);
    assert IntOf(w, BalanceKey) == IntAfter(ps0, st, BalanceKey);
    assert IntOf(w, CellsPresentKey) == IntAfter(ps0, st, CellsPresentKey);
    assert FloatOf(w, UmaxKey) == FloatAfter(ps0, st, UmaxKey);
    assert FloatOf(w, UminKey) == FloatAfter(ps0, st, UminKey);
    assert FloatOf(w, DeltaVKey) == FloatAfter(ps0, st, DeltaVKey);
  }

  /**
   * The parameters after a pass: u1.. hold the numbered cells' voltages and
   * the u-parameters beyond keep their old values; CellMax/CellMin hold the
   * last positions written, or their old values when none was; the closed
   * chips' counts are written; a published pass writes umax, umin,
   * deltaV = umax - umin and CellsPresent, an unpublished one leaves them;
   * CellsBalancing is written either way; `balance` is never written.
   */
  lemma PassReport(s: Store, ps0: ParamStore, chipNum: nat)
    requires Valid(s) && chipNum <= ChipCount
    ensures var cfg := SettingsOf(ps0);
      var st := Final(s, cfg, chipNum);
      var out := Report(s, ps0, chipNum);
      && (forall k | U1Key <= k < U1Key + |st.cells| :: FloatOf(out, k) == st.cells[k - U1Key] as real)
      && (forall k | U1Key + |st.cells| <= k < U1Key + CellParams :: FloatOf(out, k) == FloatOf(ps0, k))
      && IntOf(out, CellMaxKey) == (if st.maxAt.Some? then st.maxAt.value else IntOf(ps0, CellMaxKey))
      && IntOf(out, CellMinKey) == (if st.minAt.Some? then st.minAt.value else IntOf(ps0, CellMinKey))
      && (forall k | Chip1CellsKey <= k < Chip1CellsKey + |st.chipCells| :: IntOf(out, k) == st.chipCells[k - Chip1CellsKey])
      && (Published(s, cfg, chipNum) ==>
            && FloatOf(out, UmaxKey) == st.vmax as real
            && FloatOf(out, UminKey) == st.vmin as real
            && FloatOf(out, DeltaVKey) == FloatOf(out, UmaxKey) - FloatOf(out, UminKey)
            && IntOf(out, CellsPresentKey) == |st.cells|)
      && (!Published(s, cfg, chipNum) ==>
            && FloatOf(out, UmaxKey) == FloatOf(ps0, UmaxKey)
            && FloatOf(out, UminKey) == FloatOf(ps0, UminKey)
            && FloatOf(out, DeltaVKey) == FloatOf(ps0, DeltaVKey)
            && IntOf(out, CellsPresentKey) == IntOf(ps0, CellsPresentKey))
      && IntOf(out, CellsBalancingKey) == st.balancing
      && IntOf(out, BalanceKey) == IntOf(ps0, BalanceKey)
  {
    var cfg := SettingsOf(ps0);
    ScanReadings(s, ps0, chipNum);
    FinishReadings(Writes(s, ps0, EventCount(chipNum)), Final(s, cfg, chipNum), Published(s, cfg, chipNum));
  }

  /**
   * The balance threshold of the next pass: a published pass hands its
   * lowest cell voltage on as `umin`; an unpublished one leaves the old
   * `umin`, so the next pass balances against a stale minimum.
   */
  lemma NextPassSettings(s: Store, ps0: ParamStore, chipNum: nat)
    requires Valid(s) && chipNum <= ChipCount
    ensures var cfg := SettingsOf(ps0);
      SettingsOf(Report(s, ps0, chipNum)) ==
        Settings(cfg.balance, if Published(s, cfg, chipNum) then Final(s, cfg, chipNum).vmin as real else cfg.umin)
  {
    PassReport(s, ps0, chipNum);
  }
}
