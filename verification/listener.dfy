/** The inbound half of the telemetry bridge: a message-arrived callback that
    accepts only the device's uplink topic, digs the decoded payload out of
    the uplink envelope, and dispatches each payload key by its name prefix
    onto the thermometer, accelerometer or LED cell.
    JSON text parsing belongs to a library and is abstracted: a message body
    arrives already parsed, or as None when parsing failed. */
module Listener {
  import opened Values
  import opened Cells

  /** The only topic whose messages change any cell. */
  const UplinkTopic: string := "v3/end-device-test-1@ttn/devices/eui-0080e115000ad365/up"

  const TemperaturePrefix: string := "temperature"
  const AccelerometerPrefix: string := "accelerometer"
  const DigitalOutPrefix: string := "digital_out"

  /** A parsed JSON element. Objects keep their members in document order
      with distinct names, as the parser builds them. Every other element
      (number, string, boolean, array, null) is a leaf, carrying what the
      library's numeric conversions make of it: None where the conversion
      throws. */
  datatype JsonValue =
    | JsonObject(members: seq<Member>)
    | JsonLeaf(asDouble: Option<Double>, asInt: Option<Int32>)

  datatype Member = Member(name: string, value: JsonValue)

  /** No two members of an object share a name. The parser builds every
      object this way, so walking the members and looking each one up by
      name see the same values (DistinctNamesGet). */
  ghost predicate DistinctNames(ms: seq<Member>)
  {
    forall i, j :: 0 <= i < j < |ms| ==> ms[i].name != ms[j].name
  }

  /** The value stored under a name, None (a null reference) when absent. */
  function Get(members: seq<Member>, name: string): (r: Option<JsonValue>)
    ensures r.Some? <==> exists i :: 0 <= i < |members| && members[i].name == name
  {
    if members == [] then None
    else if members[0].name == name then Some(members[0].value)
    else
      var r := Get(members[1..], name);
      assert forall i :: 1 <= i < |members| ==> members[i] == members[1..][i - 1];
      r
  }

  /** Get finds the first member carrying the name. */
  lemma {:induction false} GetFirst(members: seq<Member>, i: nat, name: string)
    requires i < |members| && members[i].name == name
    requires forall j :: 0 <= j < i ==> members[j].name != name
    ensures Get(members, name) == Some(members[i].value)
    decreases i
  {
    if i > 0 {
      GetFirst(members[1..], i - 1, name);
    }
  }

  /** In an object with distinct names, looking a member's name up gives
      that member's own value. */
  lemma DistinctNamesGet(ms: seq<Member>, i: nat)
    requires DistinctNames(ms) && i < |ms|
    ensures Get(ms, ms[i].name) == Some(ms[i].value)
  {
    GetFirst(ms, i, ms[i].name);
  }

  /** The element read as a double; None where the library throws (an object,
      or a leaf that is not numeric). */
  function AsDouble(v: JsonValue): Option<Double>
  {
    match v
    case JsonObject(_) => None
    case JsonLeaf(d, _) => d
  }

  /** The element read as an int; None where the library throws. */
  function AsInt(v: JsonValue): Option<Int32>
  {
    match v
    case JsonObject(_) => None
    case JsonLeaf(_, i) => i
  }

  /** The double under a name of an object; None when the name is missing
      (a null dereference) or its value is not numeric. */
  function DoubleField(members: seq<Member>, name: string): Option<Double>
  {
    match Get(members, name)
    case None => None
    case Some(v) => AsDouble(v)
  }

  /** The three axes of an accelerometer entry, all read before any is
      stored; None when the entry is not an object or an axis is missing or
      not numeric. */
  function AccelerationOf(v: JsonValue): Option<(Double, Double, Double)>
  {
    match v
    case JsonLeaf(_, _) => None
    case JsonObject(ms) =>
      match (DoubleField(ms, "x"), DoubleField(ms, "y"), DoubleField(ms, "z"))
      case (Some(x), Some(y), Some(z)) => Some((x, y, z))
      case _ => None
  }

  /** Which cell a payload key addresses, by the first matching prefix. */
  datatype Target = ToThermometer | ToAccelerometer | ToLed | Ignored

  function TargetOf(name: string): (t: Target)
    ensures t == ToThermometer <==> TemperaturePrefix <= name
    ensures t == ToAccelerometer <==> AccelerometerPrefix <= name
    ensures t == ToLed <==> DigitalOutPrefix <= name
  {
    PrefixesExclusive(name);
    if TemperaturePrefix <= name then ToThermometer
    else if AccelerometerPrefix <= name then ToAccelerometer
    else if DigitalOutPrefix <= name then ToLed
    else Ignored
  }

  /** No key starts with two of the prefixes, so the order in which they are
      checked never decides the target. */
  lemma PrefixesExclusive(name: string)
    ensures !(TemperaturePrefix <= name && AccelerometerPrefix <= name)
    ensures !(TemperaturePrefix <= name && DigitalOutPrefix <= name)
    ensures !(AccelerometerPrefix <= name && DigitalOutPrefix <= name)
  {
    if TemperaturePrefix <= name { assert name[0] == 't'; }
    if AccelerometerPrefix <= name { assert name[0] == 'a'; }
  }

  /** One payload key: the cells after it, or None when reading its value
      throws (nothing is stored then). */
  function ApplyMember(cells: Registered, m: Member): (r: Option<Registered>)
    ensures TargetOf(m.name) == ToThermometer && r.Some? ==>
      r.value.accelerometer == cells.accelerometer && r.value.led == cells.led
    ensures TargetOf(m.name) == ToAccelerometer && r.Some? ==>
      r.value.thermometer == cells.thermometer && r.value.led == cells.led
    ensures TargetOf(m.name) == ToLed && r.Some? ==>
      r.value.thermometer == cells.thermometer && r.value.accelerometer == cells.accelerometer
    ensures TargetOf(m.name) == ToThermometer ==>
      (r.Some? <==> AsDouble(m.value).Some?) &&
      (r.Some? ==> Some(r.value.thermometer.GetValue()) == AsDouble(m.value))
    ensures TargetOf(m.name) == ToAccelerometer ==>
      (r.Some? <==> AccelerationOf(m.value).Some?) &&
      (r.Some? ==> Some((r.value.accelerometer.GetX(), r.value.accelerometer.GetY(), r.value.accelerometer.GetZ()))
                   == AccelerationOf(m.value))
    ensures TargetOf(m.name) == ToLed ==>
      (r.Some? <==> AsInt(m.value).Some?) &&
      (r.Some? ==> r.value.led.GetState() == (AsInt(m.value).value == 1))
    ensures TargetOf(m.name) == Ignored ==> r == Some(cells)
  {
    match TargetOf(m.name)
    case ToThermometer =>
      (match AsDouble(m.value)
       case None => None
       case Some(v) => Some(cells.(thermometer := cells.thermometer.SetValue(v))))
    case ToAccelerometer =>
      (match AccelerationOf(m.value)
       case None => None
       case Some((x, y, z)) =>
         Some(cells.(accelerometer := cells.accelerometer.SetX(x).SetY(y).SetZ(z))))
    case ToLed =>
      (match AsInt(m.value)
       case None => None
       case Some(i) => Some(cells.(led := cells.led.SetState(i == 1))))
    case Ignored => Some(cells)
  }

  /** Why a message stopped: the envelope was not the expected shape, or the
      value of a payload key could not be read. */
  datatype Failure = MalformedMessage | BadValue(key: string)

  /** The cells after a message, and the failure that ended it early, if any.
      Updates made before a failure stay in place. */
  datatype Applied = Applied(cells: Registered, failure: Option<Failure>)

  /** The payload keys in document order; the first key whose value cannot be
      read ends the walk. */
  function MapCayenneObjects(cells: Registered, ms: seq<Member>): (r: Applied)
    ensures r.failure.Some? ==> r.failure.value.BadValue?
    decreases |ms|
  {
    if ms == [] then Applied(cells, None)
    else
      var prev := MapCayenneObjects(cells, ms[..|ms| - 1]);
      if prev.failure.Some? then prev
      else match ApplyMember(prev.cells, ms[|ms| - 1])
        case None => Applied(prev.cells, Some(BadValue(ms[|ms| - 1].name)))
        case Some(next) => Applied(next, None)
  }

  /** The last member of ms addressing the given cell. */
  function LastFor(ms: seq<Member>, t: Target): (r: Option<Member>)
    ensures r.Some? ==> r.value in ms && TargetOf(r.value.name) == t
    decreases |ms|
  {
    if ms == [] then None
    else if TargetOf(ms[|ms| - 1].name) == t then Some(ms[|ms| - 1])
    else LastFor(ms[..|ms| - 1], t)
  }

  /** When every key is read, the thermometer holds the value of the last
      temperature key, or is unchanged when there is none. */
  lemma {:induction false} ThermometerLastWins(cells: Registered, ms: seq<Member>)
    requires MapCayenneObjects(cells, ms).failure.None?
    ensures match LastFor(ms, ToThermometer)
      case None => MapCayenneObjects(cells, ms).cells.thermometer == cells.thermometer
      case Some(m) => Some(MapCayenneObjects(cells, ms).cells.thermometer.GetValue()) == AsDouble(m.value)
    decreases |ms|
  {
    if ms != [] {
      ThermometerLastWins(cells, ms[..|ms| - 1]);
    }
  }

  /** When every key is read, the accelerometer holds the three axes of the
      last accelerometer key, or is unchanged when there is none. */
  lemma {:induction false} AccelerometerLastWins(cells: Registered, ms: seq<Member>)
    requires MapCayenneObjects(cells, ms).failure.None?
    ensures var a := MapCayenneObjects(cells, ms).cells.accelerometer;
      match LastFor(ms, ToAccelerometer)
      case None => a == cells.accelerometer
      case Some(m) => Some((a.GetX(), a.GetY(), a.GetZ())) == AccelerationOf(m.value)
    decreases |ms|
  {
    if ms != [] {
      AccelerometerLastWins(cells, ms[..|ms| - 1]);
    }
  }

  /** When every key is read, the LED is on exactly when the last digital
      output key holds the integer 1, and is unchanged when there is none. */
  lemma {:induction false} LedLastWins(cells: Registered, ms: seq<Member>)
    requires MapCayenneObjects(cells, ms).failure.None?
    ensures var led := MapCayenneObjects(cells, ms).cells.led;
      match LastFor(ms, ToLed)
      case None => led == cells.led
      case Some(m) => AsInt(m.value).Some? && led.GetState() == (AsInt(m.value).value == 1)
    decreases |ms|
  {
    if ms != [] {
      LedLastWins(cells, ms[..|ms| - 1]);
    }
  }

  /** A walk that fails stops at its first unreadable key: the cells are
      exactly those left by the keys before it. */
  lemma {:induction false} FailureStopsAtFirstBadKey(cells: Registered, ms: seq<Member>)
    requires MapCayenneObjects(cells, ms).failure.Some?
    ensures exists i :: (0 <= i < |ms|
      && MapCayenneObjects(cells, ms[..i]).failure.None?
      && ApplyMember(MapCayenneObjects(cells, ms[..i]).cells, ms[i]).None?
      && MapCayenneObjects(cells, ms) == Applied(MapCayenneObjects(cells, ms[..i]).cells, Some(BadValue(ms[i].name))))
    decreases |ms|
  {
    var n := |ms| - 1;
    var prefix := ms[..n];
    if MapCayenneObjects(cells, prefix).failure.Some? {
      FailureStopsAtFirstBadKey(cells, prefix);
      var i :| 0 <= i < |prefix|
        && MapCayenneObjects(cells, prefix[..i]).failure.None?
        && ApplyMember(MapCayenneObjects(cells, prefix[..i]).cells, prefix[i]).None?
        && MapCayenneObjects(cells, prefix) == Applied(MapCayenneObjects(cells, prefix[..i]).cells, Some(BadValue(prefix[i].name)));
      assert prefix[..i] == ms[..i] && prefix[i] == ms[i];
    } else {
      assert ms[..n] == prefix;
    }
  }

  /** The uplink envelope's decoded payload. Reading the receive time and
      device id for logging dereferences them too, so their absence fails
      the message. */
  function DecodedPayload(top: seq<Member>): Option<seq<Member>>
  {
    match (Get(top, "received_at"), Get(top, "end_device_ids"), Get(top, "uplink_message"))
    case (Some(_), Some(JsonObject(ids)), Some(JsonObject(uplink))) =>
      if Get(ids, "device_id").None? then None
      else (match Get(uplink, "decoded_payload")
            case Some(JsonObject(payload)) => Some(payload)
            case _ => None)
    case _ => None
  }

  /** The callback for one bus message. Any topic other than the uplink topic
      is only logged. On the uplink topic, an unparseable body or an envelope
      without the expected fields fails before any cell is touched; otherwise
      the decoded payload is walked key by key. */
  function MessageArrived(cells: Registered, topic: string, body: Option<JsonValue>): (r: Applied)
    ensures topic != UplinkTopic ==> r == Applied(cells, None)
    ensures r.failure == Some(MalformedMessage) ==> r.cells == cells
    ensures topic == UplinkTopic
            && !(body.Some? && body.value.JsonObject? && DecodedPayload(body.value.members).Some?) ==>
            r == Applied(cells, Some(MalformedMessage))
    ensures topic == UplinkTopic && body.Some? && body.value.JsonObject?
            && DecodedPayload(body.value.members).Some? ==>
            r == MapCayenneObjects(cells, DecodedPayload(body.value.members).value)
  {
    if topic != UplinkTopic then Applied(cells, None)
    else match body
      case Some(JsonObject(top)) =>
        (match DecodedPayload(top)
         case Some(payload) => MapCayenneObjects(cells, payload)
         case None => Applied(cells, Some(MalformedMessage)))
      case _ => Applied(cells, Some(MalformedMessage))
  }
}
