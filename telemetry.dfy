/** The telemetry builder `readMessage` of Device/utility.cpp: one record of the
    sensor readings, two threshold alerts, and the record's pretty-printed text
    copied into the caller's bounded payload buffer. */
module Telemetry {
  import opened Config
  import opened Json
  import opened Payload

  /** The three integer axes one motion sensor reports (the `int[3]` of the source). */
  datatype Axes = Axes(x: int, y: int, z: int) {
    function Components(): seq<int> { [x, y, z] }
  }

  /** The six readings taken, in this order, at the start of each message. */
  datatype Readings = Readings(
    temperature: real,
    humidity: real,
    pressure: real,
    magnetometer: Axes,
    accelerometer: Axes,
    gyroscope: Axes)

  /** C's `abs` on an int. */
  function Abs(v: int): nat
  {
    if v < 0 then -v else v
  }

  /** The temperature alert: the reading is strictly above TEMPERATURE_ALERT. */
  predicate TemperatureAlert(t: real)
  {
    t > TEMPERATURE_ALERT as real
  }

  /** The motion alert: some accelerometer axis has magnitude strictly above ACCELEROMETER_ALERT. */
  predicate MotionAlert(a: Axes)
  {
    Abs(a.x) > ACCELEROMETER_ALERT || Abs(a.y) > ACCELEROMETER_ALERT || Abs(a.z) > ACCELEROMETER_ALERT
  }

  /** Both alerts of one message, `{temperatureAlert, motionAlert}`. */
  function Alerts(r: Readings): (alerts: (bool, bool))
    ensures alerts.0 <==> r.temperature > TEMPERATURE_ALERT as real
    ensures alerts.1 <==> exists c :: c in r.accelerometer.Components() && Abs(c) > ACCELEROMETER_ALERT
  {
    var a := r.accelerometer;
    assert a.x in a.Components() && a.y in a.Components() && a.z in a.Components();
    (TemperatureAlert(r.temperature), MotionAlert(a))
  }

  /** Exactly 30 degrees and exactly 100 on every accelerometer axis raise no alert;
      one step past either threshold does. */
  lemma AlertBoundaries(r: Readings)
    ensures r.temperature == TEMPERATURE_ALERT as real ==> !Alerts(r).0
    ensures (forall c :: c in r.accelerometer.Components() ==> Abs(c) <= ACCELEROMETER_ALERT) ==> !Alerts(r).1
    ensures r.accelerometer.x == -ACCELEROMETER_ALERT - 1 ==> Alerts(r).1
  {
  }

  /** Neither alert depends on the gyroscope, humidity, pressure or the magnetometer. */
  lemma AlertsIgnoreOtherReadings(r: Readings, h: real, p: real, m: Axes, g: Axes)
    ensures Alerts(r.(humidity := h, pressure := p, magnetometer := m, gyroscope := g)) == Alerts(r)
  {
  }

  /** Worked messages: 35 degrees with a still board alerts on temperature only;
      20 degrees with an accelerometer X of 150 alerts on motion only; a gyroscope
      past GYROMETER_ALERT alone alerts on nothing. */
  lemma AlertExamples(h: real, p: real, m: Axes, g: Axes)
    ensures Alerts(Readings(35.0, h, p, m, Axes(10, 10, 10), g)) == (true, false)
    ensures Alerts(Readings(20.0, h, p, m, Axes(150, 0, 0), g)) == (false, true)
    ensures Alerts(Readings(20.0, h, p, m, Axes(0, 0, 0), Axes(GYROMETER_ALERT + 1, 0, 0))) == (false, false)
  {
  }

  /** The record keys in the order they are set. */
  const RecordKeys: seq<string> := [
    "messageId", "temperature", "humidity", "pressure",
    "magnetometerX", "magnetometerY", "magnetometerZ",
    "accelerometerX", "accelerometerY", "accelerometerZ",
    "gyroscopeX", "gyroscopeY", "gyroscopeZ"]

  /** The thirteen numbers of one record, in the order readMessage sets them. */
  function TelemetryValues(messageId: int, r: Readings): (values: seq<real>)
    ensures |values| == |RecordKeys|
  {
    [messageId as real, r.temperature, r.humidity, r.pressure,
     r.magnetometer.x as real, r.magnetometer.y as real, r.magnetometer.z as real,
     r.accelerometer.x as real, r.accelerometer.y as real, r.accelerometer.z as real,
     r.gyroscope.x as real, r.gyroscope.y as real, r.gyroscope.z as real]
  }

  /** Each number of the record paired with its key. */
  function TelemetryFields(messageId: int, r: Readings): seq<(string, real)>
  {
    var values := TelemetryValues(messageId, r);
    seq(|RecordKeys|, i requires 0 <= i < |RecordKeys| => (RecordKeys[i], values[i]))
  }

  /** No two record keys are the same. */
  lemma RecordKeysDistinct(messageId: int, r: Readings)
    ensures DistinctNames(TelemetryFields(messageId, r))
  {
    var fields := TelemetryFields(messageId, r);
    assert forall i :: 0 <= i < |fields| ==> fields[i].0 == RecordKeys[i];
  }

  /** The members of the telemetry record: the fields set one after another on a fresh object. */
  function TelemetryRecord(messageId: int, r: Readings): (rec: Members)
    ensures rec == NumberMembers(TelemetryFields(messageId, r))
  {
    var fields := TelemetryFields(messageId, r);
    RecordKeysDistinct(messageId, r);
    SetNumbersAppends([], fields);
    SetNumbers([], fields)
  }

  /** The record holds the thirteen readings, each once, under its own key, in the
      order messageId, temperature, humidity, pressure, magnetometer X/Y/Z,
      accelerometer X/Y/Z, gyroscope X/Y/Z. */
  lemma TelemetryRecordLayout(messageId: int, r: Readings)
    ensures Keys(TelemetryRecord(messageId, r)) == RecordKeys
    ensures forall i :: 0 <= i < |RecordKeys| ==>
              FindMember(TelemetryRecord(messageId, r), RecordKeys[i]) == Some(Number(TelemetryValues(messageId, r)[i]))
    ensures FindMember(TelemetryRecord(messageId, r), "temperature") == Some(Number(r.temperature))
    ensures FindMember(TelemetryRecord(messageId, r), "humidity") == Some(Number(r.humidity))
  {
    var fields := TelemetryFields(messageId, r);
    var rec := TelemetryRecord(messageId, r);
    RecordKeysDistinct(messageId, r);
    forall i | 0 <= i < |RecordKeys|
      ensures Keys(rec)[i] == RecordKeys[i]
      ensures FindMember(rec, RecordKeys[i]) == Some(Number(TelemetryValues(messageId, r)[i]))
    {
      assert rec[i] == (fields[i].0, Number(fields[i].1));
      FindNumberMember(fields, i);
    }
    assert RecordKeys[1] == "temperature" && RecordKeys[2] == "humidity";
  }

  /** The module-level state readMessage writes: the mirrors of the last temperature,
      humidity and pressure, and the `static bool alerts[2]` it hands back. */
  class TelemetryState {
    var temperature: real
    var humidity: real
    var pressure: real
    var alerts: array<bool>

    ghost predicate Valid()
      reads this
    {
      alerts.Length == 2
    }

    /** Static storage starts zeroed. */
    constructor ()
      ensures Valid() && fresh(alerts)
      ensures temperature == 0.0 && humidity == 0.0 && pressure == 0.0
      ensures alerts[..] == [false, false]
    {
      temperature, humidity, pressure := 0.0, 0.0, 0.0;
      alerts := new bool[2](_ => false);
    }

    /** readMessage: record the readings under message id `messageId`, evaluate both
        alerts, print the record into `payload` bounded by MESSAGE_MAX_LEN, and hand
        back the alert array and the raw temperature and humidity. */
    method ReadMessage(messageId: int, readings: Readings, payload: array<char>, serialize: Json -> string)
      returns (result: array<bool>, temperatureValue: real, humidityValue: real)
      requires Valid()
      requires payload.Length >= MESSAGE_MAX_LEN
      modifies this`temperature, this`humidity, this`pressure, alerts, payload
      ensures Valid() && alerts == old(alerts)
      ensures result == alerts
      ensures (alerts[0], alerts[1]) == Alerts(readings)
      ensures temperatureValue == readings.temperature && humidityValue == readings.humidity
      ensures temperature == readings.temperature && humidity == readings.humidity && pressure == readings.pressure
      ensures var text := PayloadText(serialize(Object(TelemetryRecord(messageId, readings))));
              payload[..|text|] == text && payload[|text|] == '\0' &&
              forall i :: |text| < i < payload.Length ==> payload[i] == old(payload[i])
    {
      var t, h, p := readings.temperature, readings.humidity, readings.pressure;
      var a := readings.accelerometer;
      var temperatureAlert := false;
      var motionAlert := false;

      temperature := t;
      temperatureValue := t;
      humidity := h;
      humidityValue := h;
      pressure := p;
      var rootObject := TelemetryRecord(messageId, readings);

      if temperature > TEMPERATURE_ALERT as real {
        temperatureAlert := true;
      }
      if Abs(a.x) > ACCELEROMETER_ALERT || Abs(a.y) > ACCELEROMETER_ALERT || Abs(a.z) > ACCELEROMETER_ALERT {
        motionAlert := true;
      }

      alerts[0] := temperatureAlert;
      alerts[1] := motionAlert;

      var serialized := serialize(Object(rootObject));
      var _ := PrintBounded(payload, serialized);
      result := alerts;
    }
  }
}
