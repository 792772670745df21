/**
 * The page itself: the DOM fields and the cube's rotation as fields of one
 * object, and the event-stream handlers as methods that overwrite them in
 * place. Each method is tied to Telemetry.Apply, whose properties
 * (idempotence, last write wins, nothing else changes) carry over.
 */
module Dashboard {
  import opened Decimal
  import opened TimeFormat
  import opened Telemetry

  class Page {
    // innerHTML of the angle read-outs
    var gyroX: int
    var gyroY: int
    var gyroZ: int
    // cube.rotation
    var rotationX: Radians
    var rotationY: Radians
    var rotationZ: Radians
    // innerHTML of the other read-outs
    var temp: string
    var accX: int
    var accY: int
    var accZ: int
    var timer: string
    var storagePercent: int
    // the string assigned to style.width of progressBarFill
    var progressBarWidth: string

    /** The page as a value. */
    function View(): DisplayState
      reads this
    {
      DisplayState(gyroX, gyroY, gyroZ, rotationX, rotationY, rotationZ, temp,
                   accX, accY, accZ, timer, storagePercent, progressBarWidth)
    }

    /**
     * The page before any event: the cube unrotated. The read-outs' initial
     * text comes from the HTML page, which is not part of this model; here
     * they start at zero or empty.
     */
    constructor ()
      ensures View() == DisplayState(0, 0, 0, ToRad(0), ToRad(0), ToRad(0), "",
                                     0, 0, 0, "", 0, "")
    {
      gyroX, gyroY, gyroZ := 0, 0, 0;
      rotationX, rotationY, rotationZ := ToRad(0), ToRad(0), ToRad(0);
      temp := "";
      accX, accY, accZ := 0, 0, 0;
      timer, storagePercent, progressBarWidth := "", 0, "";
    }

    /** `gyro_readings`: raw degrees to the read-outs, rotation with axes x<-Y, z<-X, y<-Z. */
    method OnGyroReadings(g: GyroReadings)
      modifies this
      ensures gyroX == g.gyroX && gyroY == g.gyroY && gyroZ == g.gyroZ
      ensures rotationX == ToRad(g.gyroY) && rotationZ == ToRad(g.gyroX)
      ensures rotationY == ToRad(g.gyroZ)
      ensures View() == Apply(old(View()), Gyro(g))
    {
      gyroX := g.gyroX;
      gyroY := g.gyroY;
      gyroZ := g.gyroZ;
      var gyroXRad, gyroYRad, gyroZRad := ToRad(g.gyroX), ToRad(g.gyroY), ToRad(g.gyroZ);
      rotationX := gyroYRad;
      rotationZ := gyroXRad;
      rotationY := gyroZRad;
    }

    /** `temperature_reading`: the event's text, as assigned to `innerHTML`. */
    method OnTemperatureReading(data: string)
      modifies this
      ensures temp == data
      ensures View() == Apply(old(View()), Temperature(data))
    {
      temp := data;
    }

    /** `accelerometer_readings`: the three components. */
    method OnAccelerometerReadings(a: AccelerometerReadings)
      modifies this
      ensures accX == a.accX && accY == a.accY && accZ == a.accZ
      ensures View() == Apply(old(View()), Accelerometer(a))
    {
      accX := a.accX;
      accY := a.accY;
      accZ := a.accZ;
    }

    /** `storage_info`: the elapsed time as a clock, the percentage as text and as bar width. */
    method OnStorageInfo(info: StorageInfo)
      modifies this
      ensures timer == FormatTime(info.elapsed)
      ensures storagePercent == info.percent
      ensures progressBarWidth == IntToString(info.percent) + "%"
      ensures View() == Apply(old(View()), Storage(info))
    {
      timer := FormatTime(info.elapsed);
      storagePercent := info.percent;
      progressBarWidth := IntToString(info.percent) + "%";
    }

    /** The event stream handing one decoded message to the handler registered for its name. */
    method Receive(m: Message)
      modifies this
      ensures View() == Apply(old(View()), m)
    {
      match m
      case Gyro(g) => OnGyroReadings(g);
      case Temperature(d) => OnTemperatureReading(d);
      case Accelerometer(a) => OnAccelerometerReadings(a);
      case Storage(i) => OnStorageInfo(i);
    }
  }
}
