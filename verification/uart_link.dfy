/**
 * The ESPHome UART component: bytes are assembled into CR/LF-terminated
 * lines, each line is split at its first '=', both halves are trimmed of
 * space, tab, CR and LF, the value is converted with `atof`, and the value
 * is published to the sensor registered under the trimmed name.
 *
 * Sensors are identified by a number; a registration whose pointer is null
 * is a key mapped to None. `atof` is a parameter: it is total (a string it
 * cannot read converts to 0), which is all the component relies on.
 */
module UartLink {
  import opened Common
  import opened Text

  type SensorId = nat

  /** `sensors_`: parameter name to sensor, None for a null pointer. */
  type Sensors = map<string, Option<SensorId>>

  /** One `publish_state` call. */
  datatype Publication = Publication(sensor: SensorId, value: real)

  /** The sensor that receives a value under this trimmed name, if any. */
  function Target(sensors: Sensors, name: string): Option<SensorId>
  {
    if name in sensors then sensors[name] else None
  }

  /** `parse_line`: what one line publishes. */
  function ParseLine(sensors: Sensors, line: string, atof: string -> real): Option<Publication>
  {
    match Find(line, '=')
      case None => None
      case Some(pos) =>
        var name := Trim(line[..pos], UartBlanks);
        var value := atof(Trim(line[pos + 1..], UartBlanks));
        match Target(sensors, name)
          case None => None
          case Some(id) => Some(Publication(id, value))
  }

  /** A line without '=' publishes nothing. */
  lemma NoEqualsNoPublication(sensors: Sensors, line: string, atof: string -> real)
    requires forall k | 0 <= k < |line| :: line[k] != '='
    ensures ParseLine(sensors, line, atof) == None
  {
  }

  /**
   * The split is at the first '=': with the name part free of '=', the value
   * is everything after it, further '=' included, and a publication happens
   * exactly when the trimmed name has a non-null sensor.
   */
  lemma SplitAtFirstEquals(sensors: Sensors, name: string, value: string, atof: string -> real)
    requires forall k | 0 <= k < |name| :: name[k] != '='
    ensures var r := ParseLine(sensors, name + "=" + value, atof);
      && (r.Some? <==> Target(sensors, Trim(name, UartBlanks)).Some?)
      && (r.Some? ==> r.value == Publication(Target(sensors, Trim(name, UartBlanks)).value, atof(Trim(value, UartBlanks))))
  {
    var line := name + "=" + value;
    FindAfter(name, value);
    assert line[..|name|] == name && line[|name| + 1..] == value;
  }

  lemma FindAfter(name: string, value: string)
    requires forall k | 0 <= k < |name| :: name[k] != '='
    ensures Find(name + "=" + value, '=') == Some(|name|)
  {
    var line := name + "=" + value;
    var r := Find(line, '=');
    assert line[|name|] == '=';
    assert r.Some? && r.value <= |name|;
    assert forall k | 0 <= k < |name| :: line[k] == name[k];
  }

  /** Everything published went to a registered, non-null sensor. */
  lemma PublishesOnlyToRegistered(sensors: Sensors, line: string, atof: string -> real)
    ensures var r := ParseLine(sensors, line, atof);
      r.Some? ==> exists name | name in sensors :: sensors[name] == Some(r.value.sensor)
  {
    var r := ParseLine(sensors, line, atof);
    if r.Some? {
      var pos := Find(line, '=').value;
      var name := Trim(line[..pos], UartBlanks);
      assert name in sensors && sensors[name] == Some(r.value.sensor);
    }
  }

  /**
   * What a device line `name=value` renders to is read back: blanks around
   * either half do not change the name looked up or the text converted.
   */
  lemma RenderedLineReadBack(sensors: Sensors, name: string, value: string, pad: string, atof: string -> real)
    requires Trimmed(name, UartBlanks) && Trimmed(value, UartBlanks)
    requires forall k | 0 <= k < |name| :: name[k] != '='
    requires forall k | 0 <= k < |pad| :: pad[k] in UartBlanks
    requires name in sensors && sensors[name].Some?
    ensures ParseLine(sensors, pad + name + pad + "=" + pad + value + pad, atof)
         == Some(Publication(sensors[name].value, atof(value)))
  {
    var left := pad + name + pad;
    forall k | 0 <= k < |left| ensures left[k] != '=' {
      if k < |pad| { assert left[k] == pad[k]; }
      else if k < |pad| + |name| { assert left[k] == name[k - |pad|]; }
      else { assert left[k] == pad[k - |pad| - |name|]; }
    }
    assert pad + name + pad + "=" + pad + value + pad == left + "=" + (pad + value + pad);
    SplitAtFirstEquals(sensors, left, pad + value + pad, atof);
    TrimPadded(pad, name, pad, UartBlanks);
    TrimPadded(pad, value, pad, UartBlanks);
  }

  // ------------------------------------------------------------------ loop

  /** The publications of a run of lines, in order. */
  function PublishAll(sensors: Sensors, lines: seq<string>, atof: string -> real): (r: seq<Publication>)
    ensures |r| <= |lines|
  {
    if |lines| == 0 then []
    else
      match ParseLine(sensors, lines[0], atof)
        case None => PublishAll(sensors, lines[1..], atof)
        case Some(p) => [p] + PublishAll(sensors, lines[1..], atof)
  }

  /**
   * `loop`: the bytes available are assembled into lines with the kept
   * buffer `rx_buffer_`, and every line is parsed in order.
   */
  function Loop(buffer: string, sensors: Sensors, input: string, atof: string -> real): (string, seq<Publication>)
    requires NoEnds(buffer)
  {
    var (rest, lines) := Assemble(buffer, input);
    (rest, PublishAll(sensors, lines, atof))
  }

  /** Every publication of a batch of lines goes to a registered sensor. */
  lemma {:induction false} PublishAllRegistered(sensors: Sensors, lines: seq<string>, atof: string -> real)
    ensures forall n | 0 <= n < |PublishAll(sensors, lines, atof)| ::
      PublishAll(sensors, lines, atof)[n].sensor in Registered(sensors)
    decreases |lines|
  {
    if |lines| > 0 {
      PublishAllRegistered(sensors, lines[1..], atof);
      var r := ParseLine(sensors, lines[0], atof);
      if r.Some? {
        PublishesOnlyToRegistered(sensors, lines[0], atof);
        var name :| name in sensors && sensors[name] == Some(r.value.sensor);
        assert r.value.sensor in Registered(sensors);
      }
    }
  }

  /** The non-null sensors. */
  function Registered(sensors: Sensors): set<SensorId>
  {
    set name | name in sensors && sensors[name].Some? :: sensors[name].value
  }

  /** One full line sent to the component, from an empty buffer, is parsed exactly once. */
  lemma LoopOneLine(sensors: Sensors, line: string, end: char, atof: string -> real)
    requires |line| > 0 && NoEnds(line) && IsEnd(end)
    ensures Loop("", sensors, line + [end], atof).0 == ""
    ensures Loop("", sensors, line + [end], atof).1
         == (match ParseLine(sensors, line, atof) case None => [] case Some(p) => [p])
  {
    AssembleOneLine(line, end);
    assert [line][1..] == [];
  }

  /**
   * The buffer kept between calls never holds a terminator, so a later call
   * starts from a valid state, and every publication goes to a registered sensor.
   */
  lemma LoopKeepsBuffer(buffer: string, sensors: Sensors, input: string, atof: string -> real)
    requires NoEnds(buffer)
    ensures NoEnds(Loop(buffer, sensors, input, atof).0)
    ensures forall n | 0 <= n < |Loop(buffer, sensors, input, atof).1| ::
      Loop(buffer, sensors, input, atof).1[n].sensor in Registered(sensors)
  {
    PublishAllRegistered(sensors, Assemble(buffer, input).1, atof);
  }
}
