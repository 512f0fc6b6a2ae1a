/**
 * The ESPHome parser component: the same CR/LF line assembly as the UART
 * component, then `parse_parameter_line` on every line. Marker lines of the
 * console ("param list", "Parameter List:", "param get") only clear the
 * waiting flag; other lines are split at their first ':' with spaces and
 * tabs trimmed, the value is converted with `stof`, and "Balance ENABLED" /
 * "Balance DISABLED" anywhere in a line set the balance parameter.
 *
 * `stof` is a parameter returning None where the source catches an
 * exception. Sensor and switch handles are numbers.
 */
module BmsParser {
  import opened Common
  import opened Text

  type Handle = nat

  /** The component's registrations: `registered_sensors_` and the "balance" entry of `registered_switches_`. */
  datatype Wiring = Wiring(sensors: map<string, Handle>, balanceSwitch: Option<Handle>)

  /** The state `parse_parameter_line` reads and writes. */
  datatype Parser = Parser(values: map<string, real>, waiting: bool)

  /** A state published to a sensor or to the balance switch. */
  datatype Event = SensorState(sensor: Handle, value: real) | SwitchState(switch: Handle, on: bool)

  /** `line.find(pat) != npos`. */
  predicate Contains(line: string, pat: string)
  {
    exists i | 0 <= i <= |line| :: OccursAt(line, pat, i)
  }

  predicate OccursAt(line: string, pat: string, i: nat)
  {
    i + |pat| <= |line| && line[i..i + |pat|] == pat
  }

  /** The console echoes and headers that end a pending request. */
  predicate IsMarker(line: string)
  {
    Contains(line, "param list") || Contains(line, "Parameter List:") || Contains(line, "param get")
  }

  const Balance: string := "balance"

  /**
   * `update_sensor_value`: store the value under its name, publish it to the
   * sensor registered under that name, and for "balance" publish whether it
   * exceeds 0.5 to the balance switch.
   */
  function UpdateSensorValue(p: Parser, w: Wiring, name: string, value: real): (Parser, seq<Event>)
  {
    var sensor := if name in w.sensors then [SensorState(w.sensors[name], value)] else [];
    var switch := if name == Balance && w.balanceSwitch.Some? then [SwitchState(w.balanceSwitch.value, value > 0.5)] else [];
    (p.(values := p.values[name := value]), sensor + switch)
  }

  /** The `name: value` part of a line, when it has a ':' and its value converts. */
  function ColonPair(line: string, stof: string -> Option<real>): Option<(string, real)>
  {
    match Find(line, ':')
      case None => None
      case Some(pos) =>
        match stof(Trim(line[pos + 1..], ParserBlanks))
          case None => None
          case Some(v) => Some((Trim(line[..pos], ParserBlanks), v))
  }

  /** `parse_parameter_line`. */
  function ParseParameterLine(p: Parser, w: Wiring, line: string, stof: string -> Option<real>): (Parser, seq<Event>)
  {
    if IsMarker(line) then (p.(waiting := false), [])
    else
      var (p1, e1) := match ColonPair(line, stof)
        case None => (p, [])
        case Some((name, v)) => UpdateSensorValue(p, w, name, v);
      if Contains(line, "Balance ENABLED") then
        var (p2, e2) := UpdateSensorValue(p1, w, Balance, 1.0); (p2, e1 + e2)
      else if Contains(line, "Balance DISABLED") then
        var (p2, e2) := UpdateSensorValue(p1, w, Balance, 0.0); (p2, e1 + e2)
      else (p1, e1)
  }

  // ---------------------------------------------------------- properties

  /** update_sensor_value writes its own name and nothing else, and never touches the waiting flag. */
  lemma UpdateIsLocal(p: Parser, w: Wiring, name: string, value: real)
    ensures var q := UpdateSensorValue(p, w, name, value).0;
      && q.waiting == p.waiting
      && name in q.values && q.values[name] == value
      && q.values.Keys == p.values.Keys + {name}
      && forall k | k in p.values && k != name :: q.values[k] == p.values[k]
  {
  }

  /**
   * The events of update_sensor_value: the value to the sensor of that name
   * when one is registered, and for "balance" the switch turned on exactly
   * when the value exceeds 0.5.
   */
  lemma UpdateEvents(p: Parser, w: Wiring, name: string, value: real)
    ensures var e := UpdateSensorValue(p, w, name, value).1;
      && (name in w.sensors <==> SensorState(if name in w.sensors then w.sensors[name] else 0, value) in e)
      && (forall x | x in e && x.SensorState? :: name in w.sensors && x == SensorState(w.sensors[name], value))
      && (forall x | x in e && x.SwitchState? :: name == Balance && w.balanceSwitch == Some(x.switch) && (x.on <==> value > 0.5))
      && (name == Balance && w.balanceSwitch.Some? ==> SwitchState(w.balanceSwitch.value, value > 0.5) in e)
  {
  }

  /** A marker line stores nothing, publishes nothing and clears the waiting flag. */
  lemma MarkerLineStoresNothing(p: Parser, w: Wiring, line: string, stof: string -> Option<real>)
    requires IsMarker(line)
    ensures ParseParameterLine(p, w, line, stof) == (Parser(p.values, false), [])
  {
  }

  /**
   * The split is at the first ':' with spaces and tabs trimmed on both sides:
   * on a plain line (no marker, no balance status) whose value converts, the
   * trimmed name receives the converted value and nothing else changes.
   */
  lemma ColonSplit(p: Parser, w: Wiring, name: string, value: string, stof: string -> Option<real>)
    requires forall k | 0 <= k < |name| :: name[k] != ':'
    requires var line := name + ":" + value;
      !IsMarker(line) && !Contains(line, "Balance ENABLED") && !Contains(line, "Balance DISABLED")
    requires stof(Trim(value, ParserBlanks)).Some?
    ensures ParseParameterLine(p, w, name + ":" + value, stof).0
         == p.(values := p.values[Trim(name, ParserBlanks) := stof(Trim(value, ParserBlanks)).value])
  {
    FindColon(name, value);
    var line := name + ":" + value;
    assert line[..|name|] == name && line[|name| + 1..] == value;
  }

  lemma FindColon(name: string, value: string)
    requires forall k | 0 <= k < |name| :: name[k] != ':'
    ensures Find(name + ":" + value, ':') == Some(|name|)
  {
    var line := name + ":" + value;
    assert line[|name|] == ':';
    assert forall k | 0 <= k < |name| :: line[k] == name[k];
  }

  /** When the value does not convert, no value is stored and nothing is published (balance status aside). */
  lemma ConversionFailureKeepsValues(p: Parser, w: Wiring, line: string, stof: string -> Option<real>)
    requires Find(line, ':').Some?
    requires stof(Trim(line[Find(line, ':').value + 1..], ParserBlanks)).None?
    requires !Contains(line, "Balance ENABLED") && !Contains(line, "Balance DISABLED")
    ensures ParseParameterLine(p, w, line, stof).0.values == p.values
    ensures ParseParameterLine(p, w, line, stof).1 == []
  {
  }

  /**
   * A balance status anywhere in a non-marker line decides the balance
   * parameter: ENABLED stores 1, otherwise DISABLED stores 0, whatever the
   * line's own `name: value` part wrote; the waiting flag is untouched.
   */
  lemma BalanceStatus(p: Parser, w: Wiring, line: string, stof: string -> Option<real>)
    requires !IsMarker(line)
    ensures var q := ParseParameterLine(p, w, line, stof).0;
      && q.waiting == p.waiting
      && (Contains(line, "Balance ENABLED") ==> Balance in q.values && q.values[Balance] == 1.0)
      && (!Contains(line, "Balance ENABLED") && Contains(line, "Balance DISABLED") ==> Balance in q.values && q.values[Balance] == 0.0)
  {
  }

  /** Any name other than "balance" and the line's own trimmed name keeps its value. */
  lemma LineIsLocal(p: Parser, w: Wiring, line: string, stof: string -> Option<real>, k: string)
    requires k in p.values && k != Balance
    requires ColonPair(line, stof).Some? ==> k != ColonPair(line, stof).value.0
    ensures var q := ParseParameterLine(p, w, line, stof).0;
      k in q.values && q.values[k] == p.values[k]
  {
  }

  // ------------------------------------------------------------------ loop

  /** `parse_parameter_line` over a run of lines, collecting the events in order. */
  function ParseAll(p: Parser, w: Wiring, lines: seq<string>, stof: string -> Option<real>): (Parser, seq<Event>)
    decreases |lines|
  {
    if |lines| == 0 then (p, [])
    else
      var (p1, e1) := ParseParameterLine(p, w, lines[0], stof);
      var (p2, e2) := ParseAll(p1, w, lines[1..], stof);
      (p2, e1 + e2)
  }

  /** The byte-reading part of `loop`: line assembly over `uart_buffer_`, then every line parsed. */
  function Loop(buffer: string, p: Parser, w: Wiring, input: string, stof: string -> Option<real>): (string, Parser, seq<Event>)
    requires NoEnds(buffer)
  {
    var (rest, lines) := Assemble(buffer, input);
    var (q, e) := ParseAll(p, w, lines, stof);
    (rest, q, e)
  }

  /** Values are only ever added or overwritten: every key stored before is still stored after a run of lines. */
  lemma {:induction false} ParseAllKeepsKeys(p: Parser, w: Wiring, lines: seq<string>, stof: string -> Option<real>)
    ensures p.values.Keys <= ParseAll(p, w, lines, stof).0.values.Keys
    decreases |lines|
  {
    if |lines| > 0 {
      var p1 := ParseParameterLine(p, w, lines[0], stof).0;
      assert p.values.Keys <= p1.values.Keys;
      ParseAllKeepsKeys(p1, w, lines[1..], stof);
    }
  }

  /** A run of lines none of which is a marker leaves the waiting flag as it was. */
  lemma {:induction false} ParseAllWaiting(p: Parser, w: Wiring, lines: seq<string>, stof: string -> Option<real>)
    requires forall n | 0 <= n < |lines| :: !IsMarker(lines[n])
    ensures ParseAll(p, w, lines, stof).0.waiting == p.waiting
    decreases |lines|
  {
    if |lines| > 0 {
      BalanceStatus(p, w, lines[0], stof);
      ParseAllWaiting(ParseParameterLine(p, w, lines[0], stof).0, w, lines[1..], stof);
    }
  }

  /** A run of lines that holds a marker ends with the waiting flag cleared when its last marker is followed only by plain lines. */
  lemma {:induction false} ParseAllClearsWaiting(p: Parser, w: Wiring, lines: seq<string>, stof: string -> Option<real>, m: nat)
    requires m < |lines| && IsMarker(lines[m])
    requires forall n | m < n < |lines| :: !IsMarker(lines[n])
    ensures !ParseAll(p, w, lines, stof).0.waiting
    decreases |lines|
  {
    var p1 := ParseParameterLine(p, w, lines[0], stof).0;
    if m == 0 {
      assert !p1.waiting;
      ParseAllWaiting(p1, w, lines[1..], stof);
    } else {
      ParseAllClearsWaiting(p1, w, lines[1..], stof, m - 1);
    }
  }

  /** One full line sent to the component, from an empty buffer, is parsed exactly once. */
  lemma LoopOneLine(p: Parser, w: Wiring, line: string, end: char, stof: string -> Option<real>)
    requires |line| > 0 && NoEnds(line) && IsEnd(end)
    ensures Loop("", p, w, line + [end], stof) == ("", ParseParameterLine(p, w, line, stof).0, ParseParameterLine(p, w, line, stof).1)
  {
    AssembleOneLine(line, end);
    assert [line][1..] == [];
    var (q, e) := ParseParameterLine(p, w, line, stof);
    assert ParseAll(q, w, [], stof) == (q, []);
    assert ParseAll(p, w, [line], stof) == (q, e + []);
    assert e + [] == e;
  }
}
