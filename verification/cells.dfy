/** The value cells that the telemetry bridge writes and the LwM2M objects
    read: a thermometer, a three-axis accelerometer and the LED state, and the
    record that holds one of each (the program's `RegisteredObjects`).
    Each cell is an immutable record: a setter returns the updated cell and a
    getter is a pure function of the cell. */
module Cells {
  import opened Values

  /** A single-reading temperature cell. */
  datatype Thermometer = Thermometer(value: Double)
  {
    function GetValue(): Double { value }

    function SetValue(v: Double): (t: Thermometer)
      ensures t.GetValue() == v
    {
      Thermometer(v)
    }
  }

  /** A freshly constructed thermometer holds 0. */
  function NewThermometer(): (t: Thermometer)
    ensures t.GetValue() == Zero
  {
    Thermometer(Zero)
  }

  /** Consecutive sets overwrite: only the last one is observable. */
  lemma ThermometerLastSetWins(t: Thermometer, a: Double, b: Double)
    ensures t.SetValue(a).SetValue(b) == t.SetValue(b)
    ensures t.SetValue(a).SetValue(b).GetValue() == b
  {
  }

  /** A three-axis cell whose axes are read and written independently. */
  datatype Accelerometer = Accelerometer(x: Double, y: Double, z: Double)
  {
    function GetX(): Double { x }
    function GetY(): Double { y }
    function GetZ(): Double { z }

    function SetX(v: Double): (a: Accelerometer)
      ensures a.GetX() == v
      ensures a.GetY() == GetY() && a.GetZ() == GetZ()
    {
      this.(x := v)
    }

    function SetY(v: Double): (a: Accelerometer)
      ensures a.GetY() == v
      ensures a.GetX() == GetX() && a.GetZ() == GetZ()
    {
      this.(y := v)
    }

    function SetZ(v: Double): (a: Accelerometer)
      ensures a.GetZ() == v
      ensures a.GetX() == GetX() && a.GetY() == GetY()
    {
      this.(z := v)
    }
  }

  /** A freshly constructed accelerometer reads 0 on every axis. */
  function NewAccelerometer(): (a: Accelerometer)
    ensures a.GetX() == Zero && a.GetY() == Zero && a.GetZ() == Zero
  {
    Accelerometer(Zero, Zero, Zero)
  }

  /** The LED state cell. Its class is not part of this model; only the
      get/set pair the program uses is. */
  datatype Led = Led(state: bool)
  {
    function GetState(): bool { state }

    function SetState(b: bool): (l: Led)
      ensures l.GetState() == b
    {
      Led(b)
    }
  }

  /** The process-wide cells the bridge writes and the suppliers read. */
  datatype Registered = Registered(thermometer: Thermometer, accelerometer: Accelerometer, led: Led)
}
