/**
 * The parameter store of src/Param.cpp: the name table, name/index lookup,
 * the integer and float stores and `SetParamFromString`.
 *
 * A parameter is identified by its position in the name table. The stores
 * are `std::map`s: reading a key that was never written inserts it with
 * value 0, which the model keeps visible as a changed map with unchanged
 * readings. Floats are modelled as reals (no rounding).
 */
module Params {
  import opened Common

  // ------------------------------------------------------------ name table

  /** The names before the cell voltages. */
  const Head: seq<string> := ["numbmbs", "LoopCnt", "LoopState", "CellsPresent", "CellsBalancing", "BalanceCellList"]

  /** The names after the cell voltages. */
  const Tail: seq<string> := [
    "CellMax", "CellMin", "umax", "umin", "deltaV", "udc", "uavg", "chargeVlim", "dischargeVlim",
    "balance", "CellVmax", "CellVmin",
    "Chipt0", "Cellt0_0", "Cellt0_1", "TempMax", "TempMin",
    "ChipV1", "ChipV2", "ChipV3", "ChipV4", "ChipV5", "ChipV6", "ChipV7", "ChipV8",
    "Chip1_5V", "Chip2_5V",
    "Chip1Cells", "Chip2Cells", "Chip3Cells", "Chip4Cells",
    "current", "as8510_temp"]

  /** Number of cell-voltage parameters u1..u108. */
  const CellParams: nat := 108

  function DigitChar(d: nat): char
    requires d < 10
  {
    ('0' as int + d) as char
  }

  predicate IsDigit(c: char)
  {
    '0' <= c <= '9'
  }

  /** The decimal numeral of k, without leading zeros. */
  function Decimal(k: nat): (d: string)
    ensures |d| >= 1 && forall i | 0 <= i < |d| :: IsDigit(d[i])
  {
    if k < 10 then [DigitChar(k)] else Decimal(k / 10) + [DigitChar(k % 10)]
  }

  /** The value of a string of decimal digits. */
  function DecimalValue(d: string): nat
  {
    if d == [] then 0 else 10 * DecimalValue(d[..|d| - 1]) + ((d[|d| - 1] as int - '0' as int) % 10)
  }

  /** Reading a numeral back gives the number. */
  lemma {:induction false} DecimalRoundTrip(k: nat)
    ensures DecimalValue(Decimal(k)) == k
    decreases k
  {
    var d := Decimal(k);
    if k >= 10 {
      assert d[..|d| - 1] == Decimal(k / 10);
      DecimalRoundTrip(k / 10);
    }
  }

  /** The name of cell-voltage parameter k: "u1" .. "u108". */
  function CellName(k: nat): string
  {
    "u" + Decimal(k)
  }

  /** The cell-voltage names u1..u108, in order. */
  function CellNames(): seq<string>
  {
    seq(CellParams, i requires 0 <= i => CellName(i + 1))
  }

  /** `paramNames`: Head, then u1..u108, then Tail. */
  const Names: seq<string> := Head + CellNames() + Tail

  /** The numeral construction spells the table's entries. */
  lemma CellNamesAsListed()
    ensures |Names| == 147
    ensures Names[6] == "u1" && Names[15] == "u10" && Names[105] == "u100" && Names[113] == "u108"
  {
    assert Decimal(10) == Decimal(1) + ['0'];
    assert Decimal(100) == Decimal(10) + ['0'];
    assert Decimal(108) == Decimal(10) + ['8'];
  }

  // --------------------------------------------------- distinctness of names

  lemma HeadDistinct()
    ensures forall i, j | 0 <= i < |Head| && 0 <= j < |Head| && i != j :: Head[i] != Head[j]
  {
  }

  lemma HeadNotTail()
    ensures forall i, j | 0 <= i < |Head| && 0 <= j < |Tail| :: Head[i] != Tail[j]
  {
  }

  lemma TailDistinctA(i: nat, j: nat)
    requires i < j < |Tail| && i < 6
    ensures Tail[i] != Tail[j]
  {
  }

  lemma TailDistinctB(i: nat, j: nat)
    requires i < j < |Tail| && 6 <= i < 12
    ensures Tail[i] != Tail[j]
  {
  }

  lemma TailDistinctC(i: nat, j: nat)
    requires i < j < |Tail| && 12 <= i
    ensures Tail[i] != Tail[j]
  {
  }

  lemma TailDistinct(i: nat, j: nat)
    requires i < |Tail| && j < |Tail| && i != j
    ensures Tail[i] != Tail[j]
  {
    var a, b := if i < j then i else j, if i < j then j else i;
    if a < 6 {
      TailDistinctA(a, b);
    } else if a < 12 {
      TailDistinctB(a, b);
    } else {
      TailDistinctC(a, b);
    }
  }

  /** A cell-voltage name: 'u' followed by a digit. */
  predicate CellLike(name: string)
  {
    |name| >= 2 && name[0] == 'u' && IsDigit(name[1])
  }

  lemma FixedNamesNotCellLike()
    ensures forall i | 0 <= i < |Head| :: !CellLike(Head[i])
    ensures forall i | 0 <= i < |Tail| :: !CellLike(Tail[i])
  {
  }

  lemma CellNameInjective(a: nat, b: nat)
    requires CellName(a) == CellName(b)
    ensures a == b
  {
    assert Decimal(a) == CellName(a)[1..];
    DecimalRoundTrip(a);
    DecimalRoundTrip(b);
  }

  /** Where entry i of the table comes from. */
  lemma NameAt(i: nat)
    requires i < |Names|
    ensures i < |Head| ==> Names[i] == Head[i]
    ensures |Head| <= i < |Head| + CellParams ==> Names[i] == CellName(i - |Head| + 1)
    ensures |Head| + CellParams <= i ==> Names[i] == Tail[i - |Head| - CellParams]
  {
    var cells := CellNames();
    assert |cells| == CellParams;
    if |Head| <= i < |Head| + CellParams {
      assert Names[i] == cells[i - |Head|];
    }
  }

  lemma CellNameLike(k: nat)
    ensures CellLike(CellName(k))
  {
    assert CellName(k)[1] == Decimal(k)[0];
  }

  /** A fixed name is never a cell-voltage name. */
  lemma CellNotFixed(i: nat, j: nat)
    requires i < |Names| && j < |Names|
    requires |Head| <= i < |Head| + CellParams && !(|Head| <= j < |Head| + CellParams)
    ensures Names[i] != Names[j]
  {
    NameAt(i);
    NameAt(j);
    CellNameLike(i - |Head| + 1);
    FixedNamesNotCellLike();
  }

  /** Two cell-voltage entries differ. */
  lemma CellsDistinct(i: nat, j: nat)
    requires |Head| <= i < |Head| + CellParams && |Head| <= j < |Head| + CellParams && i != j
    ensures Names[i] != Names[j]
  {
    NameAt(i);
    NameAt(j);
    if CellName(i - |Head| + 1) == CellName(j - |Head| + 1) {
      CellNameInjective(i - |Head| + 1, j - |Head| + 1);
    }
  }

  /** Two fixed entries differ. */
  lemma FixedDistinct(i: nat, j: nat)
    requires i < |Names| && j < |Names| && i != j
    requires !(|Head| <= i < |Head| + CellParams) && !(|Head| <= j < |Head| + CellParams)
    ensures Names[i] != Names[j]
  {
    var h, c := |Head|, CellParams;
    if i < h && j < h {
      NameAt(i);
      NameAt(j);
      HeadDistinct();
    } else if h + c <= i && h + c <= j {
      TailEntriesDistinct(i, j);
    } else if i < h {
      HeadEntryNotTail(i, j);
    } else {
      HeadEntryNotTail(j, i);
    }
  }

  lemma TailEntriesDistinct(i: nat, j: nat)
    requires |Head| + CellParams <= i < |Names| && |Head| + CellParams <= j < |Names| && i != j
    ensures Names[i] != Names[j]
  {
    NameAt(i);
    NameAt(j);
    TailDistinct(i - |Head| - CellParams, j - |Head| - CellParams);
  }

  lemma HeadEntryNotTail(i: nat, j: nat)
    requires i < |Head| && |Head| + CellParams <= j < |Names|
    ensures Names[i] != Names[j]
  {
    NameAt(i);
    NameAt(j);
    HeadNotTail();
  }

  /** The table has no duplicate name. */
  lemma NamesDistinct(i: nat, j: nat)
    requires i < |Names| && j < |Names| && i != j
    ensures Names[i] != Names[j]
  {
    var ci, cj := |Head| <= i < |Head| + CellParams, |Head| <= j < |Head| + CellParams;
    if ci && cj {
      CellsDistinct(i, j);
    } else if ci {
      CellNotFixed(i, j);
    } else if cj {
      CellNotFixed(j, i);
    } else {
      FixedDistinct(i, j);
    }
  }

  // ---------------------------------------------------------------- lookup

  lemma UnknownNotFixed()
    ensures "unknown" !in Head && "unknown" !in Tail
  {
  }

  /** The fallback "unknown" is not the name of any parameter. */
  lemma UnknownNotAName()
    ensures "unknown" !in Names
  {
    UnknownNotFixed();
    assert !CellLike("unknown");
    forall i | 0 <= i < CellParams ensures CellNames()[i] != "unknown" {
      CellNameLike(i + 1);
    }
  }

  /**
   * GetParamName: the table entry, or "unknown" outside the table. Since no
   * entry is "unknown", the answer tells whether the index was valid.
   */
  function GetParamName(p: int): (name: string)
    ensures name == "unknown" <==> !(0 <= p < |Names|)
  {
    if 0 <= p < |Names| then
      UnknownNotAName();
      Names[p]
    else
      "unknown"
  }

  /** The search loop of GetParamFromName, from position i on. */
  function Search(name: string, i: nat): (r: int)
    requires i <= |Names|
    ensures r == -1 <==> forall j | i <= j < |Names| :: Names[j] != name
    ensures r != -1 ==> i <= r < |Names| && Names[r] == name && forall j | i <= j < r :: Names[j] != name
    decreases |Names| - i
  {
    if i == |Names| then -1 else if Names[i] == name then i else Search(name, i + 1)
  }

  /** GetParamFromName: the lowest position holding `name`, or -1 when no entry matches. */
  function GetParamFromName(name: string): (r: int)
    ensures r == -1 <==> name !in Names
    ensures r != -1 ==> 0 <= r < |Names| && Names[r] == name && forall j | 0 <= j < r :: Names[j] != name
  {
    Search(name, 0)
  }

  /** Every table position survives the round trip through its name. */
  lemma NameRoundTrip(p: int)
    requires 0 <= p < |Names|
    ensures GetParamFromName(GetParamName(p)) == p
  {
    var r := GetParamFromName(GetParamName(p));
    if r != p {
      NamesDistinct(r, p);
    }
  }

  /** A name in the table maps to a position that holds that name. */
  lemma IndexRoundTrip(name: string)
    requires name in Names
    ensures GetParamName(GetParamFromName(name)) == name
  {
  }

  // ----------------------------------------------------------------- stores

  /** `intParams` and `floatParams`. */
  datatype ParamStore = ParamStore(ints: map<int, int>, floats: map<int, real>)

  /** The key of numbmbs, the number of BMB boards. */
  const NumbmbsKey: int := 0
  /** The key of BalanceCellList, the one parameter kept in the string store. */
  const BalanceCellListKey: int := 5

  /**
   * The stores as initParams leaves them at start-up: numbmbs is 1, every
   * other parameter before `current` is an int entry holding 0, and
   * `current` and `as8510_temp` are float entries holding 0.0.
   */
  const Initial: ParamStore :=
    ParamStore(map k | 0 <= k < |Names| - 2 && k != BalanceCellListKey :: if k == NumbmbsKey then 1 else 0,
               map[|Names| - 2 := 0.0, |Names| - 1 := 0.0])

  /** The integer a key reads as: its stored value, 0 when never written. */
  function IntOf(ps: ParamStore, k: int): int
  {
    if k in ps.ints then ps.ints[k] else 0
  }

  /** The float a key reads as: its stored value, 0.0 when never written. */
  function FloatOf(ps: ParamStore, k: int): real
  {
    if k in ps.floats then ps.floats[k] else 0.0
  }

  /**
   * At start-up every parameter reads 0 except numbmbs, which reads 1, and
   * every table entry except BalanceCellList has a numeric entry: the two
   * sensor values in the float store, the rest in the int store.
   */
  lemma InitialReadings()
    ensures GetParamName(NumbmbsKey) == "numbmbs" && IntOf(Initial, NumbmbsKey) == 1
    ensures forall k | k != NumbmbsKey :: IntOf(Initial, k) == 0
    ensures forall k :: FloatOf(Initial, k) == 0.0
    ensures forall k | 0 <= k < |Names| ::
      (k in Initial.ints || k in Initial.floats) <==> Names[k] != "BalanceCellList"
    ensures Names[|Names| - 2] == "current" && Names[|Names| - 1] == "as8510_temp"
    ensures |Names| - 2 in Initial.floats && |Names| - 1 in Initial.floats
  {
    CellNamesAsListed();
    assert Names[BalanceCellListKey] == "BalanceCellList";
    forall k | 0 <= k < |Names| && k != BalanceCellListKey ensures Names[k] != "BalanceCellList" {
      NamesDistinct(k, BalanceCellListKey);
    }
    assert Names[|Names| - 2] == Tail[|Tail| - 2];
    assert Names[|Names| - 1] == Tail[|Tail| - 1];
  }

  /** GetInt: `intParams[param]`, which inserts the key with 0 when it is missing; no reading changes. */
  function GetInt(ps: ParamStore, k: int): (r: (int, ParamStore))
    ensures k in r.1.ints && r.1.floats == ps.floats
    ensures forall j :: IntOf(r.1, j) == IntOf(ps, j)
    ensures r.0 == IntOf(ps, k)
  {
    if k in ps.ints then (ps.ints[k], ps) else (0, ps.(ints := ps.ints[k := 0]))
  }

  /** GetFloat: `floatParams[param]`, with the same default insertion. */
  function GetFloat(ps: ParamStore, k: int): (r: (real, ParamStore))
    ensures k in r.1.floats && r.1.ints == ps.ints
    ensures forall j :: FloatOf(r.1, j) == FloatOf(ps, j)
    ensures r.0 == FloatOf(ps, k)
  {
    if k in ps.floats then (ps.floats[k], ps) else (0.0, ps.(floats := ps.floats[k := 0.0]))
  }

  /** SetInt: k reads v afterwards, every other integer and every float reads as before. */
  function SetInt(ps: ParamStore, k: int, v: int): (r: ParamStore)
    ensures IntOf(r, k) == v
    ensures forall j | j != k :: IntOf(r, j) == IntOf(ps, j)
    ensures r.floats == ps.floats
  {
    ps.(ints := ps.ints[k := v])
  }

  /** SetFloat: k reads v afterwards, every other float and every integer reads as before. */
  function SetFloat(ps: ParamStore, k: int, v: real): (r: ParamStore)
    ensures FloatOf(r, k) == v
    ensures forall j | j != k :: FloatOf(r, j) == FloatOf(ps, j)
    ensures r.ints == ps.ints
  {
    ps.(floats := ps.floats[k := v])
  }

  /** Reading a key back after writing it gives the written value, whether or not it was read before. */
  lemma SetThenGet(ps: ParamStore, k: int, v: int, w: real)
    ensures GetInt(SetInt(ps, k, v), k).0 == v
    ensures GetFloat(SetFloat(ps, k, w), k).0 == w
    ensures GetInt(SetInt(GetInt(ps, k).1, k, v), k).0 == v
  {
  }

  /** The integer and float stores are separate: writing one never changes a reading of the other. */
  lemma StoresSeparate(ps: ParamStore, k: int, j: int, v: int, w: real)
    ensures FloatOf(SetInt(ps, k, v), j) == FloatOf(ps, j)
    ensures IntOf(SetFloat(ps, k, w), j) == IntOf(ps, j)
  {
  }

  // ----------------------------------------------------- setting by name

  /**
   * SetParamFromString. `parseLong` and `parseFloat` stand for `strtol` and
   * `strtof` with the check that the whole value was consumed: None when
   * the value is not entirely a number of that kind.
   */
  function SetParamFromString(ps: ParamStore, name: string, value: string,
                              parseLong: string -> Option<int>, parseFloat: string -> Option<real>): (r: (bool, ParamStore))
    ensures name !in Names ==> r == (false, ps)
    ensures !r.0 ==> r.1 == ps
    ensures r.0 ==> name in Names
    ensures r.0 ==> var k := GetParamFromName(name);
      (parseLong(value).Some? && r.1 == SetInt(ps, k, parseLong(value).value)) ||
      (parseLong(value).None? && parseFloat(value).Some? && r.1 == SetFloat(ps, k, parseFloat(value).value))
  {
    var k := GetParamFromName(name);
    if k == -1 then (false, ps)
    else match parseLong(value)
      case Some(v) => (true, SetInt(ps, k, v))
      case None =>
        match parseFloat(value)
        case Some(f) => (true, SetFloat(ps, k, f))
        case None => (false, ps)
  }

  /** A successful set by name changes the readings of that parameter only. */
  lemma SetByNameIsLocal(ps: ParamStore, name: string, value: string,
                         parseLong: string -> Option<int>, parseFloat: string -> Option<real>, j: int)
    requires j != GetParamFromName(name)
    ensures var r := SetParamFromString(ps, name, value, parseLong, parseFloat);
      IntOf(r.1, j) == IntOf(ps, j) && FloatOf(r.1, j) == FloatOf(ps, j)
  {
  }

  /** Setting a table position by its own name writes that position. */
  lemma SetByOwnName(ps: ParamStore, p: int, value: string,
                     parseLong: string -> Option<int>, parseFloat: string -> Option<real>)
    requires 0 <= p < |Names| && parseLong(value).Some?
    ensures SetParamFromString(ps, GetParamName(p), value, parseLong, parseFloat)
         == (true, SetInt(ps, p, parseLong(value).value))
  {
    NameRoundTrip(p);
  }
}
