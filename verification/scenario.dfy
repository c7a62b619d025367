/** End-to-end behaviours of the assembled device: the startup wiring of
    Digital Output instance 0 to the LED cell, and the round trip of an LED
    command out through the downlink and back in through an uplink. */
module Scenario {
  import opened Values
  import opened Cells
  import opened DigitalOutput
  import Listener
  import Sender

  /** Startup adds instance 0, labelled "LED Control", reading the LED cell. */
  function Startup(): (rt: Runtime)
    ensures Valid(rt)
    ensures rt.instances.Keys == {0}
    ensures rt.instances[0].applicationType == Some("LED Control")
    ensures rt.trace == [InstancesChanged(ObjectId)]
  {
    InstanceAdd(Empty(), 0, Some("LED Control"), LedState).rt
  }

  /** Reading the output state of instance 0 returns the LED cell and
      announces the change. Removing instance 0 does remove it, but raises;
      a read afterwards fails on the missing instance. */
  lemma StartupReadThenRemove(cells: Registered)
    ensures var read := ResourceRead(Startup(), 0, OutputState, cells);
      && read.outcome == Ok(BooleanValue(cells.led.GetState()))
      && read.rt.trace == Startup().trace + [ResourceChanged(ObjectId, 0, OutputState)]
    ensures var removed := InstanceRemove(Startup(), 0);
      && removed.outcome == Err(InvalidIid)
      && removed.rt.instances == map[]
      && ResourceRead(removed.rt, 0, OutputState, cells).outcome == Err(NullInstance)
    ensures var removed := InstanceRemoveCorrected(Startup(), 0);
      && removed.outcome == Ok(())
      && removed.rt.trace == Startup().trace + [InstancesChanged(ObjectId)]
      && ResourceRead(removed.rt, 0, OutputState, cells).outcome == Err(NullInstance)
      && InstanceRemoveCorrected(removed.rt, 0) == Step(removed.rt, Err(InvalidIid))
  {
  }

  /** An uplink whose decoded payload holds one key. */
  function Uplink(key: string, value: Listener.JsonValue): Listener.JsonValue
  {
    Listener.JsonObject([
      Listener.Member("received_at", Listener.JsonLeaf(None, None)),
      Listener.Member("end_device_ids", Listener.JsonObject([
        Listener.Member("device_id", Listener.JsonLeaf(None, None))])),
      Listener.Member("uplink_message", Listener.JsonObject([
        Listener.Member("decoded_payload", Listener.JsonObject([Listener.Member(key, value)]))]))])
  }

  /** A number as the parser reads it. */
  function Number(d: Double, i: Int32): Listener.JsonValue
  {
    Listener.JsonLeaf(Some(d), Some(i))
  }

  /** A one-key payload is the effect of that key alone. */
  lemma SingleKey(cells: Registered, m: Listener.Member)
    requires Listener.ApplyMember(cells, m).Some?
    ensures Listener.MapCayenneObjects(cells, [m]) == Listener.Applied(Listener.ApplyMember(cells, m).value, None)
  {
    assert [m][..0] == [];
  }

  lemma UplinkPayload(key: string, value: Listener.JsonValue)
    ensures Listener.DecodedPayload(Uplink(key, value).members) == Some([Listener.Member(key, value)])
  {
    var top := Uplink(key, value).members;
    assert "end_device_ids" != "received_at" && "uplink_message" != "received_at" && "uplink_message" != "end_device_ids";
    Listener.GetFirst(top, 0, "received_at");
    Listener.GetFirst(top, 1, "end_device_ids");
    Listener.GetFirst(top, 2, "uplink_message");
  }

  /** An uplink carrying an accelerometer reading sets all three axes. */
  lemma AccelerometerUplink(cells: Registered, x: Double, y: Double, z: Double)
    ensures var body := Uplink("accelerometer_1", Listener.JsonObject([
        Listener.Member("x", Number(x, 0)), Listener.Member("y", Number(y, 0)), Listener.Member("z", Number(z, 0))]));
      var r := Listener.MessageArrived(cells, Listener.UplinkTopic, Some(body));
      && r.failure.None?
      && r.cells.accelerometer == Accelerometer(x, y, z)
      && r.cells.thermometer == cells.thermometer && r.cells.led == cells.led
  {
    var axes := Listener.JsonObject([
        Listener.Member("x", Number(x, 0)), Listener.Member("y", Number(y, 0)), Listener.Member("z", Number(z, 0))]);
    UplinkPayload("accelerometer_1", axes);
    assert Listener.AccelerometerPrefix <= "accelerometer_1";
    assert "y" != "x" && "z" != "x" && "z" != "y";
    Listener.GetFirst(axes.members, 0, "x");
    Listener.GetFirst(axes.members, 1, "y");
    Listener.GetFirst(axes.members, 2, "z");
    assert Listener.AccelerationOf(axes) == Some((x, y, z));
    SingleKey(cells, Listener.Member("accelerometer_1", axes));
  }

  /** A write of the output state on instance 0 is forwarded as one
      downlink and leaves the table, and so the next read, unchanged. */
  lemma WriteForwarded(cells: Registered)
    ensures var written := ResourceWrite(Startup(), 0, OutputState, BooleanValue(true), Sender.Delivering);
      && written.outcome == Ok(())
      && written.rt.instances == Startup().instances
      && ResourceRead(written.rt, 0, OutputState, cells).outcome == Ok(BooleanValue(cells.led.GetState()))
      && exists m :: (written.rt.trace == Startup().trace + [Downlink(m)] && Sender.DecodeLedCommand(m.payload) == Some(true))
  {
    var rt := Startup();
    var written := ResourceWrite(rt, 0, OutputState, BooleanValue(true), Sender.Delivering);
    assert written.rt.instances == rt.instances;
  }

  /** An uplink reporting digital_out = 1 turns the LED cell on. */
  lemma UplinkTurnsLedOn(cells: Registered)
    ensures var confirmed := Listener.MessageArrived(cells, Listener.UplinkTopic, Some(Uplink("digital_out_1", Number(Zero, 1))));
      && confirmed.failure.None?
      && confirmed.cells.led.GetState()
  {
    UplinkPayload("digital_out_1", Number(Zero, 1));
    assert Listener.DigitalOutPrefix <= "digital_out_1";
    SingleKey(cells, Listener.Member("digital_out_1", Number(Zero, 1)));
  }

  /** A write of the output state is forwarded and leaves reads unchanged;
      once the device reports the LED on in an uplink, the read follows. */
  lemma WriteConfirmedByUplink(cells: Registered)
    requires !cells.led.GetState()
    ensures var written := ResourceWrite(Startup(), 0, OutputState, BooleanValue(true), Sender.Delivering);
      && written.outcome == Ok(())
      && written.rt.instances == Startup().instances
      && ResourceRead(written.rt, 0, OutputState, cells).outcome == Ok(BooleanValue(false))
      && exists m :: (written.rt.trace == Startup().trace + [Downlink(m)] && Sender.DecodeLedCommand(m.payload) == Some(true))
    ensures var written := ResourceWrite(Startup(), 0, OutputState, BooleanValue(true), Sender.Delivering);
      var confirmed := Listener.MessageArrived(cells, Listener.UplinkTopic, Some(Uplink("digital_out_1", Number(Zero, 1))));
      && confirmed.failure.None?
      && ResourceRead(written.rt, 0, OutputState, confirmed.cells).outcome == Ok(BooleanValue(true))
  {
    WriteForwarded(cells);
    UplinkTurnsLedOn(cells);
    var confirmed := Listener.MessageArrived(cells, Listener.UplinkTopic, Some(Uplink("digital_out_1", Number(Zero, 1))));
    WriteForwarded(confirmed.cells);
  }
}
