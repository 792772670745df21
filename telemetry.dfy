/**
 * The display state the dashboard keeps and the four event-stream handlers
 * that overwrite it, as functions on values. Every handler writes only the
 * fields of its own event kind, so the display always shows, per kind, the
 * most recent message of that kind.
 */
module Telemetry {
  import opened Wrappers
  import opened Decimal
  import opened TimeFormat

  /**
   * An angle in radians, kept symbolic: the value `degrees * PI / 180`.
   * Floating point is not modelled, so the conversion is recorded, not computed.
   */
  datatype Radians = Radians(degrees: int)

  function ToRad(degrees: int): (r: Radians)
    ensures r.degrees == degrees
  {
    Radians(degrees)
  }

  /** Payload of a `gyro_readings` event, angles in degrees. */
  datatype GyroReadings = GyroReadings(gyroX: int, gyroY: int, gyroZ: int)

  /** Payload of an `accelerometer_readings` event. */
  datatype AccelerometerReadings = AccelerometerReadings(accX: int, accY: int, accZ: int)

  /** Payload of a `storage_info` event: elapsed milliseconds and a percentage. */
  datatype StorageInfo = StorageInfo(elapsed: nat, percent: int)

  /** One decoded event of the server's `/events` stream. */
  datatype Message =
    | Gyro(gyro: GyroReadings)
    | Temperature(data: string)
    | Accelerometer(acc: AccelerometerReadings)
    | Storage(info: StorageInfo)

  datatype Kind = GyroKind | TemperatureKind | AccelerometerKind | StorageKind

  function KindOf(m: Message): Kind {
    match m
    case Gyro(_) => GyroKind
    case Temperature(_) => TemperatureKind
    case Accelerometer(_) => AccelerometerKind
    case Storage(_) => StorageKind
  }

  /** The event name each handler is registered under; never one of the connection events. */
  function EventName(k: Kind): (r: string)
    ensures |r| > 0 && r != "open" && r != "error"
  {
    match k
    case GyroKind => "gyro_readings"
    case TemperatureKind => "temperature_reading"
    case AccelerometerKind => "accelerometer_readings"
    case StorageKind => "storage_info"
  }

  /** The four handlers are registered under four different names. */
  lemma EventNamesDistinct(k1: Kind, k2: Kind)
    ensures EventName(k1) == EventName(k2) <==> k1 == k2
  {
  }

  /**
   * Different readings give different rotations. This holds of the symbolic
   * `ToRad`, a constructor, as it does of the real-valued conversion.
   */
  lemma ToRadInjective(a: int, b: int)
    ensures ToRad(a) == ToRad(b) <==> a == b
  {
  }

  /**
   * The handler an incoming event name reaches; `open`, `error` and every
   * other name reach none of the display handlers.
   */
  function KindOfEvent(name: string): (r: Option<Kind>)
    ensures r.Some? ==> EventName(r.value) == name
    ensures forall k :: EventName(k) == name ==> r == Some(k)
  {
    if name == "gyro_readings" then Some(GyroKind)
    else if name == "temperature_reading" then Some(TemperatureKind)
    else if name == "accelerometer_readings" then Some(AccelerometerKind)
    else if name == "storage_info" then Some(StorageKind)
    else None
  }

  /**
   * What the page holds: the values assigned to the `innerHTML` of the
   * `gyroX`..`accZ`, `temp`, `timer` and `storagePercent` elements, the
   * cube's rotation and the string assigned to `progressBarFill`'s `style.width`.
   */
  datatype DisplayState = DisplayState(
    gyroX: int, gyroY: int, gyroZ: int,
    rotationX: Radians, rotationY: Radians, rotationZ: Radians,
    temp: string,
    accX: int, accY: int, accZ: int,
    timer: string, storagePercent: int, progressBarWidth: string)

  /** The fields owned by the handler of kind `k` are equal in `s` and `t`. */
  predicate Agree(s: DisplayState, t: DisplayState, k: Kind) {
    match k
    case GyroKind =>
      s.gyroX == t.gyroX && s.gyroY == t.gyroY && s.gyroZ == t.gyroZ
      && s.rotationX == t.rotationX && s.rotationY == t.rotationY && s.rotationZ == t.rotationZ
    case TemperatureKind => s.temp == t.temp
    case AccelerometerKind => s.accX == t.accX && s.accY == t.accY && s.accZ == t.accZ
    case StorageKind =>
      s.timer == t.timer && s.storagePercent == t.storagePercent
      && s.progressBarWidth == t.progressBarWidth
  }

  /**
   * `s` shows message `m` in the fields of `m`'s kind: the raw gyro degrees
   * as text, the cube turned about x by gyroY, about z by gyroX and about y
   * by gyroZ; the temperature string as assigned to `innerHTML`; the three accelerations; the
   * elapsed time formatted as a clock and the unclamped percentage, also as
   * the bar's width in percent.
   */
  predicate Shows(s: DisplayState, m: Message) {
    match m
    case Gyro(g) =>
      s.gyroX == g.gyroX && s.gyroY == g.gyroY && s.gyroZ == g.gyroZ
      && s.rotationX == ToRad(g.gyroY) && s.rotationZ == ToRad(g.gyroX)
      && s.rotationY == ToRad(g.gyroZ)
    case Temperature(d) => s.temp == d
    case Accelerometer(a) => s.accX == a.accX && s.accY == a.accY && s.accZ == a.accZ
    case Storage(i) =>
      s.timer == FormatTime(i.elapsed) && s.storagePercent == i.percent
      && s.progressBarWidth == IntToString(i.percent) + "%"
  }

  /** The event handler for `m`: overwrite the fields of `m`'s kind, keep every other. */
  function Apply(s: DisplayState, m: Message): (r: DisplayState)
    ensures Shows(r, m)
    ensures KindOf(m) != GyroKind ==> Agree(s, r, GyroKind)
    ensures KindOf(m) != TemperatureKind ==> Agree(s, r, TemperatureKind)
    ensures KindOf(m) != AccelerometerKind ==> Agree(s, r, AccelerometerKind)
    ensures KindOf(m) != StorageKind ==> Agree(s, r, StorageKind)
  {
    match m
    case Gyro(g) =>
      s.(gyroX := g.gyroX, gyroY := g.gyroY, gyroZ := g.gyroZ,
         rotationX := ToRad(g.gyroY), rotationZ := ToRad(g.gyroX), rotationY := ToRad(g.gyroZ))
    case Temperature(d) => s.(temp := d)
    case Accelerometer(a) => s.(accX := a.accX, accY := a.accY, accZ := a.accZ)
    case Storage(i) =>
      s.(timer := FormatTime(i.elapsed), storagePercent := i.percent,
         progressBarWidth := IntToString(i.percent) + "%")
  }

  /** The four kinds own all of the display between them. */
  lemma AgreeEverywhere(s: DisplayState, t: DisplayState)
    requires forall k :: Agree(s, t, k)
    ensures s == t
  {
    assert Agree(s, t, GyroKind) && Agree(s, t, TemperatureKind);
    assert Agree(s, t, AccelerometerKind) && Agree(s, t, StorageKind);
  }

  /** Two states that show the same message agree on that message's fields. */
  lemma ShowsDetermines(s: DisplayState, t: DisplayState, m: Message)
    requires Shows(s, m) && Shows(t, m)
    ensures Agree(s, t, KindOf(m))
  {
  }

  /** Apply is the one update that shows `m` and leaves the other kinds alone. */
  lemma ApplyCharacterized(s: DisplayState, m: Message, t: DisplayState)
    requires Shows(t, m)
    requires forall k :: k != KindOf(m) ==> Agree(s, t, k)
    ensures t == Apply(s, m)
  {
    var r := Apply(s, m);
    ShowsDetermines(t, r, m);
    forall k
      ensures Agree(t, r, k)
    {
      if k != KindOf(m) {
        assert Agree(s, t, k) && Agree(s, r, k);
      }
    }
    AgreeEverywhere(t, r);
  }

  /** Receiving the same message twice leaves the display as receiving it once. */
  lemma ApplyIdempotent(s: DisplayState, m: Message)
    ensures Apply(Apply(s, m), m) == Apply(s, m)
  {
  }

  /** Of two messages of one kind, only the second remains visible. */
  lemma ApplyLastWriteWins(s: DisplayState, m1: Message, m2: Message)
    requires KindOf(m1) == KindOf(m2)
    ensures Apply(Apply(s, m1), m2) == Apply(s, m2)
  {
  }

  /** Messages of different kinds touch disjoint fields, so their order does not matter. */
  lemma ApplyCommutes(s: DisplayState, m1: Message, m2: Message)
    requires KindOf(m1) != KindOf(m2)
    ensures Apply(Apply(s, m1), m2) == Apply(Apply(s, m2), m1)
  {
  }

  /** The display after a stream of messages, delivered in order. */
  function ApplyAll(s: DisplayState, ms: seq<Message>): DisplayState
    decreases |ms|
  {
    if ms == [] then s else Apply(ApplyAll(s, ms[..|ms| - 1]), ms[|ms| - 1])
  }

  /** The last message of kind `k` in `ms`, if any. */
  function Latest(ms: seq<Message>, k: Kind): (r: Option<Message>)
    ensures r.Some? ==> r.value in ms && KindOf(r.value) == k
    ensures r.None? ==> forall i :: 0 <= i < |ms| ==> KindOf(ms[i]) != k
    ensures r.Some? ==> exists i :: 0 <= i < |ms| && ms[i] == r.value
                                    && forall j :: i < j < |ms| ==> KindOf(ms[j]) != k
    decreases |ms|
  {
    if ms == [] then None
    else if KindOf(ms[|ms| - 1]) == k then Some(ms[|ms| - 1])
    else
      var front := ms[..|ms| - 1];
      var r := Latest(front, k);
      if r.Some? then
        var i :| 0 <= i < |front| && front[i] == r.value
                 && forall j :: i < j < |front| ==> KindOf(front[j]) != k;
        assert ms[i] == r.value && forall j :: i < j < |ms| ==> KindOf(ms[j]) != k;
        r
      else
        r
  }

  /**
   * After any stream, each kind's fields show the latest message of that
   * kind, or are as they started when no message of that kind arrived.
   */
  lemma {:induction false} ApplyAllShowsLatest(s: DisplayState, ms: seq<Message>, k: Kind)
    ensures match Latest(ms, k)
            case Some(m) => Shows(ApplyAll(s, ms), m)
            case None => Agree(s, ApplyAll(s, ms), k)
    decreases |ms|
  {
    if ms != [] {
      var front, last := ms[..|ms| - 1], ms[|ms| - 1];
      ApplyAllShowsLatest(s, front, k);
      var before := ApplyAll(s, front);
      if KindOf(last) != k {
        assert Agree(before, Apply(before, last), k);
        match Latest(front, k)
        case Some(m) =>
          ShowsAfterAgree(before, Apply(before, last), m);
        case None =>
      }
    }
  }

  /** Showing a message depends only on the fields of its kind. */
  lemma ShowsAfterAgree(s: DisplayState, t: DisplayState, m: Message)
    requires Shows(s, m) && Agree(s, t, KindOf(m))
    ensures Shows(t, m)
  {
  }
}
