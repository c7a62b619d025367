# Digital Output runtime and telemetry bridge

A Dafny model of the device side of an LwM2M-to-The-Things-Network proxy.
It covers three parts:

- **The Digital Output object** (LwM2M object 3201). It keeps a table from instance id to instance record. Each instance has three read-write resources: 5750 application type (a nullable string), 5551 polarity and 5550 output state. The model covers instance add, remove and listing, the read and write dispatch, and the begin/validate/commit/rollback transaction hooks.
- **The telemetry bridge.** The inbound listener matches the uplink topic exactly. It then walks the keys of the decoded payload and sends each one by name prefix to the thermometer, the accelerometer or the LED cell. The outbound sender builds the one-entry downlink envelope and publishes it.
- **The value cells** (thermometer, accelerometer, LED) that the bridge writes and the object reads.

Everything is a value. An operation returns the new runtime together with the event trace, extended by what the operation announced to the outside world:

- `ResourceChanged(oid, iid, rid)` is the protocol engine's resource-changed notification.
- `InstancesChanged(oid)` is its instance-set-changed notification.
- `Downlink(message)` is one publish on the message bus.

Exceptions become an `Err` outcome. The outcome sits next to the state the operation left behind, because some operations raise after they have already changed the table.

Modules: `Values` (nullable values, Java `double` and `int`), `Cells`, `Base64` (the one-byte case of section 4 of RFC 4648), `Sender`, `Listener`, `Ordered` (ascending key enumeration), `DigitalOutput` and `Scenario` (the startup wiring and end-to-end behaviour).

Behaviours worth knowing, all as the code has them:

- Reading 5550 is not pure. It asks the instance's supplier (the LED cell), stores the answer, emits a change notification and returns the answer.
- Writing 5550 never touches the table. The value goes out as an LED downlink, and the instance id is never looked at.
- Rollback restores only the application type. After a commit, or on an instance added since the last begin, it restores null. Polarity and output state are never restored.
- A read or write of 5750 or 5551 on an id with no instance dereferences null. The model reports this as `NullInstance`. The input value is read first, so a value of the wrong type is reported before the missing instance.
- An uplink whose envelope lacks the expected fields, or whose value cannot be read, ends in an exception out of the callback. The model returns a `Failure`. Updates made by earlier keys of the same payload stay in place.
- The accelerometer's three axes are stored by three separate sets. All three are read before the first set, so a bad axis stores none of them. The model makes no claim of atomicity towards a concurrent reader.

## Model

| member | source | states |
|---|---|---|
| Cells.NewThermometer | demo/src/main/java/com/avsystem/anjay/demo/Thermometer.java:5 | a fresh thermometer reads 0 |
| Cells.Thermometer.SetValue | demo/src/main/java/com/avsystem/anjay/demo/Thermometer.java:7-13 | the getter returns the value just set |
| Cells.ThermometerLastSetWins | demo/src/main/java/com/avsystem/anjay/demo/Thermometer.java:11-13 | two sets in a row equal the second set alone |
| Cells.NewAccelerometer | demo/src/main/java/com/avsystem/anjay/demo/Accelerometer.java:5-7 | a fresh accelerometer reads 0 on all three axes |
| Cells.Accelerometer.SetX | demo/src/main/java/com/avsystem/anjay/demo/Accelerometer.java:9-15 | getX returns the value set; y and z are untouched |
| Cells.Accelerometer.SetY | demo/src/main/java/com/avsystem/anjay/demo/Accelerometer.java:17-23 | getY returns the value set; x and z are untouched |
| Cells.Accelerometer.SetZ | demo/src/main/java/com/avsystem/anjay/demo/Accelerometer.java:25-31 | getZ returns the value set; x and y are untouched |
| Base64.DecodeEncode | demo/src/main/java/com/avsystem/anjay/demo/MqttMessageSender.java:15 | decoding a one-byte RFC 4648 quantum gives back the byte, for all 256 bytes |
| Base64.DecodeByteIff | demo/src/main/java/com/avsystem/anjay/demo/MqttMessageSender.java:15 | a 4-character string decodes to byte b exactly when it is b's encoding |
| Base64.EncodeInjective | demo/src/main/java/com/avsystem/anjay/demo/MqttMessageSender.java:15 | distinct bytes encode to distinct strings |
| Sender.LedCode | demo/src/main/java/com/avsystem/anjay/demo/MqttMessageSender.java:15-21 | the table entry for a command is the RFC 4648 encoding of the byte 1 (on) or 0 (off) |
| Sender.LedCodeInjective | demo/src/main/java/com/avsystem/anjay/demo/MqttMessageSender.java:15-21 | on and off get different payload strings |
| Sender.LedEnvelope | demo/src/main/java/com/avsystem/anjay/demo/MqttMessageSender.java:19-28 | exactly one downlink entry, port 2, priority NORMAL, payload decoding to the command's byte |
| Sender.RenderLedEnvelope | demo/src/main/java/com/avsystem/anjay/demo/MqttMessageSender.java:19-32 | the serialised envelope is a fixed text frame around the table entry |
| Sender.LedText | demo/src/main/java/com/avsystem/anjay/demo/MqttMessageSender.java:19-32 | the exact JSON text for each command, fields in insertion order |
| Sender.DecodeLedText | demo/src/main/java/com/avsystem/anjay/demo/MqttMessageSender.java:19-32 | a text decodes to a command exactly when it is that command's serialised envelope |
| Sender.SendLedDownlink | demo/src/main/java/com/avsystem/anjay/demo/MqttMessageSender.java:17-39 | one publish to the down/replace topic, QoS 0, retained, whose payload decodes to the command; fails exactly when the publish call fails |
| Listener.GetFirst | demo/src/main/java/com/avsystem/anjay/demo/MqttMessageListener.java:42-46 | a member lookup finds the first member carrying the name |
| Listener.DistinctNamesGet | demo/src/main/java/com/avsystem/anjay/demo/MqttMessageListener.java:42-46 | in an object whose member names are distinct, looking up any member's name gives that member's own value, so iterating the entries and getting each key see the same element |
| Listener.TargetOf | demo/src/main/java/com/avsystem/anjay/demo/MqttMessageListener.java:41-46 | a key goes to the thermometer, accelerometer or LED exactly when it starts with that cell's prefix |
| Listener.PrefixesExclusive | demo/src/main/java/com/avsystem/anjay/demo/MqttMessageListener.java:41-46 | no key starts with two of the prefixes, so the order of the else-if chain never decides the target |
| Listener.ApplyMember | demo/src/main/java/com/avsystem/anjay/demo/MqttMessageListener.java:41-68 | one key changes only its own cell and leaves the other two exactly as they were. Temperature sets the thermometer to the number. Accelerometer sets x, y, z from its sub-fields. digital_out sets the LED on iff the int is 1. Other keys change nothing. A key whose value cannot be read stores nothing |
| Listener.MapCayenneObjects | demo/src/main/java/com/avsystem/anjay/demo/MqttMessageListener.java:38-48 | keys are applied in payload order and a failure can only be an unreadable key's value (BadValue); the lemmas ThermometerLastWins, AccelerometerLastWins, LedLastWins and FailureStopsAtFirstBadKey characterise the resulting cells |
| Listener.ThermometerLastWins | demo/src/main/java/com/avsystem/anjay/demo/MqttMessageListener.java:39-53 | after a fully read payload, the thermometer holds the last temperature key's value, or is unchanged if there is none |
| Listener.AccelerometerLastWins | demo/src/main/java/com/avsystem/anjay/demo/MqttMessageListener.java:39-63 | after a fully read payload, the accelerometer holds the last accelerometer key's axes, or is unchanged |
| Listener.LedLastWins | demo/src/main/java/com/avsystem/anjay/demo/MqttMessageListener.java:39-68 | after a fully read payload, the LED is on iff the last digital_out key holds 1, or is unchanged |
| Listener.FailureStopsAtFirstBadKey | demo/src/main/java/com/avsystem/anjay/demo/MqttMessageListener.java:39-47 | a failing walk stops at its first unreadable key and keeps exactly the effects of the keys before it |
| Listener.MessageArrived | demo/src/main/java/com/avsystem/anjay/demo/MqttMessageListener.java:14-36 | any topic other than the uplink topic changes no cell and reports no failure. On the uplink topic, an unparseable body or an envelope without the expected fields is reported as MalformedMessage with no cell changed. Otherwise the result is the walk of the decoded payload |
| Ordered.SortedElements | demo/src/main/java/com/avsystem/anjay/demo/DigitalOutput.java:83-86 | the elements of a set in strictly ascending order, each once |
| DigitalOutput.InstanceAdd | demo/src/main/java/com/avsystem/anjay/demo/DigitalOutput.java:88-95 | a new id gets exactly one new instance: the given type, polarity and output false, backup null. Other instances are kept and one instances-changed event is emitted. A used id raises IidInUse and changes neither table nor trace |
| DigitalOutput.InstanceRemove | demo/src/main/java/com/avsystem/anjay/demo/DigitalOutput.java:97-104 | as written: a present id is removed and then InvalidIid is raised, with no event. An absent id changes nothing and emits instances-changed |
| DigitalOutput.InstanceRemoveCorrected | demo/src/main/java/com/avsystem/anjay/demo/DigitalOutput.java:97-104 | as intended: a present id is removed with one instances-changed event. An absent id raises InvalidIid and changes nothing |
| DigitalOutput.RemoveTestInverted | demo/src/main/java/com/avsystem/anjay/demo/DigitalOutput.java:97-104 | the program's removal succeeds exactly on absent ids, the corrected one exactly on present ids, and they never agree |
| DigitalOutput.AddThenRemove | demo/src/main/java/com/avsystem/anjay/demo/DigitalOutput.java:88-104 | removing a just-added id restores the table in both versions; the program's version still raises |
| DigitalOutput.Instances | demo/src/main/java/com/avsystem/anjay/demo/DigitalOutput.java:83-86 | the instance ids, strictly ascending, each present id exactly once |
| DigitalOutput.SetOutput | demo/src/main/java/com/avsystem/anjay/demo/DigitalOutput.java:71-75 | stores the output state of one instance and emits changed (3201, iid, 5550) naming the instance's own id; nothing else changes; keeps every instance stored under its own id |
| DigitalOutput.Update | demo/src/main/java/com/avsystem/anjay/demo/DigitalOutput.java:106-113 | an unknown id raises InvalidIid and changes nothing. A known id gets its output set, with one changed event |
| DigitalOutput.Resources | demo/src/main/java/com/avsystem/anjay/demo/DigitalOutput.java:115-122 | the schema is exactly 5550, 5551 and 5750, ascending, all read-write and present |
| DigitalOutput.ResourceRead | demo/src/main/java/com/avsystem/anjay/demo/DigitalOutput.java:124-139 | an unknown rid or instance raises and changes nothing. 5750 and 5551 return the stored field and change nothing. 5550 stores the supplier's value with one changed event and returns that value |
| DigitalOutput.ResourceWrite | demo/src/main/java/com/avsystem/anjay/demo/DigitalOutput.java:141-157 | never changes the id set, and changes nothing on error. A value of the wrong type fails with WrongInputType, checked before the instance; a well-typed 5750 or 5551 write to a missing instance fails with NullInstance. 5750 and 5551 change only that field of that instance. 5550 leaves every instance alone and appends exactly one downlink carrying the value, on the downlink topic with QoS 0 and retained; it fails iff the input is not a boolean or the publish fails, and a failed publish is reported as PublishFailed |
| DigitalOutput.TransactionBegin | demo/src/main/java/com/avsystem/anjay/demo/DigitalOutput.java:169-174 | every backup slot takes its instance's application type; nothing else changes |
| DigitalOutput.TransactionValidate | demo/src/main/java/com/avsystem/anjay/demo/DigitalOutput.java:176-177 | validation succeeds and changes nothing |
| DigitalOutput.TransactionCommit | demo/src/main/java/com/avsystem/anjay/demo/DigitalOutput.java:179-184 | every backup slot becomes null; current values stay |
| DigitalOutput.TransactionRollback | demo/src/main/java/com/avsystem/anjay/demo/DigitalOutput.java:186-191 | every application type becomes its backup; polarity and output are not restored |
| DigitalOutput.RunKeepsBackups | demo/src/main/java/com/avsystem/anjay/demo/DigitalOutput.java:124-157 | any sequence of reads, writes and output updates keeps the instance set and every backup slot |
| DigitalOutput.RollbackRestoresApplicationTypes | demo/src/main/java/com/avsystem/anjay/demo/DigitalOutput.java:169-191 | begin, any resource operations, rollback: every application type is back to its value before begin |
| DigitalOutput.CommitKeepsWrites | demo/src/main/java/com/avsystem/anjay/demo/DigitalOutput.java:169-184 | begin, any resource operations, commit: written values stay and every backup is null |
| DigitalOutput.RollbackAfterCommitClears | demo/src/main/java/com/avsystem/anjay/demo/DigitalOutput.java:179-191 | rollback right after a commit sets every application type to null |
| DigitalOutput.RollbackWithoutBeginClears | demo/src/main/java/com/avsystem/anjay/demo/DigitalOutput.java:186-191 | rollback on an instance added since the last begin sets its application type to null |
| DigitalOutput.WriteStateInvisibleToRead | demo/src/main/java/com/avsystem/anjay/demo/DigitalOutput.java:124-157 | a write of 5550 does not change what a following read of 5550 returns |
| Scenario.Startup | demo/src/main/java/com/avsystem/anjay/demo/DemoClient.java:322-331 | startup leaves exactly instance 0, labelled "LED Control", after one instances-changed event |
| Scenario.StartupReadThenRemove | demo/src/main/java/com/avsystem/anjay/demo/DemoClient.java:322-331 | reading 5550 of instance 0 returns the LED cell. Removing instance 0 raises in the program's version and succeeds in the corrected one. Either way a later read fails on the missing instance |
| Scenario.AccelerometerUplink | demo/src/main/java/com/avsystem/anjay/demo/MqttMessageListener.java:55-63 | an uplink with axes x, y, z leaves the accelerometer at exactly (x, y, z) and the other cells untouched |
| Scenario.WriteForwarded | demo/src/main/java/com/avsystem/anjay/demo/DigitalOutput.java:150-152 | writing "on" to 5550 of instance 0 leaves the table alone, appends one downlink that decodes to "on", and the next read still returns the LED cell |
| Scenario.UplinkTurnsLedOn | demo/src/main/java/com/avsystem/anjay/demo/MqttMessageListener.java:65-66 | an uplink whose payload holds digital_out = 1 is read without failure and turns the LED cell on |
| Scenario.WriteConfirmedByUplink | demo/src/main/java/com/avsystem/anjay/demo/DigitalOutput.java:150-152 | writing "on" to 5550 publishes one downlink but reads still show the LED cell; after an uplink reports digital_out = 1, the read returns on |

## Left out

- Logging to standard output is not modelled. This covers the supplier's extra call made only for the log line. Both supplier calls read the same cell, so one value stands for both.
- Gson parsing is not modelled. A message body arrives as a parsed tree, or as None when the parser fails. A leaf carries what the library's double and int conversions make of it. Member names in an object are distinct, as the parser guarantees; Listener.DistinctNames states this, and Listener.DistinctNamesGet shows what it buys.
- Sender.Escape: handles only the quote and backslash characters. Gson's escaping of control characters and of U+2028 and U+2029 is left out, because no string in the envelope contains them.
- Sender.SendLedDownlink: the bus client is reduced to one flag, whether its publish call throws (an unset client included). Byte encoding of the payload is left out: the text is ASCII, so its bytes are its characters.
- `resourceReset` and `resourceInstances` only delegate to library defaults. `oid()` returns the constant `ObjectId`. `install` registers with the protocol engine. None of these is modelled.
- The protocol engine itself, access control, persistence, the startup code other than the instance-0 wiring, and the MQTT connection thread are not modelled. The IPSO sensor objects that read the thermometer and accelerometer are not modelled either.
- `synchronized`, locking and cross-thread visibility are not modelled; operations are applied one at a time.
- The LED cell's class is not part of this model. Only its get/set pair is modelled, and its initial state is left open.
- Instance ids, resource ids and the LwM2M input/output contexts: ids are unbounded integers rather than Java `int`. A context is reduced to a typed string or boolean value.
- Doubles are opaque 64-bit patterns; no arithmetic is performed on them.

## Findings

| source | as written | input that shows it | evidently intended | confidence | as-written member | corrected member |
|---|---|---|---|---|---|---|
| demo/src/main/java/com/avsystem/anjay/demo/DigitalOutput.java:97-104 | the instance is removed and then "Invalid IID" is raised; an unknown id is accepted and announced as an instance-set change | instanceRemove(0) right after instanceAdd(0, ...) | remove a live instance and notify; reject an unknown id | high; not executed | DigitalOutput.InstanceRemove (with DigitalOutput.RemoveTestInverted) | DigitalOutput.InstanceRemoveCorrected |
