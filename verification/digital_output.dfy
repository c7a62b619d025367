/** The LwM2M Digital Output object (object id 3201): a table from instance
    id to instance record, the read/write dispatch over its three resources,
    and the begin/validate/commit/rollback hooks the protocol engine calls
    around a batch of writes.
    The runtime is a value: each operation returns the new table together
    with the event trace extended by what the operation announced to the
    outside world (resource-changed and instance-set-changed notifications to
    the protocol engine, and downlink publishes to the message bus). */
module DigitalOutput {
  import opened Values
  import Cells
  import Sender
  import Ordered

  const ObjectId: int := 3201

  /** Resource ids of the object. */
  const OutputState: int := 5550
  const OutputPolarity: int := 5551
  const ApplicationType: int := 5750

  /** Where an instance reads its output state from. The program wires the
      LED cell; a constant stands for any other source. */
  datatype Supplier = LedState | Constant(value: bool)

  function Supply(s: Supplier, cells: Cells.Registered): bool
  {
    match s
    case LedState => cells.led.GetState()
    case Constant(b) => b
  }

  /** One instance. The application type is a nullable string with a backup
      slot used by transactions; the backup starts out null. */
  datatype Instance = Instance(
    iid: int,
    applicationType: Option<string>,
    applicationTypeBackup: Option<string>,
    polarity: bool,
    output: bool,
    readOutput: Supplier)

  /** What the object announced outside itself, in order. */
  datatype Event =
    | ResourceChanged(oid: int, iid: int, rid: int)
    | InstancesChanged(oid: int)
    | Downlink(message: Sender.Message)

  datatype Runtime = Runtime(instances: map<int, Instance>, trace: seq<Event>)

  /** Every instance is stored under its own id. */
  predicate Valid(rt: Runtime)
  {
    forall k :: k in rt.instances ==> rt.instances[k].iid == k
  }

  function Empty(): (rt: Runtime)
    ensures Valid(rt) && rt.instances == map[] && rt.trace == []
  {
    Runtime(map[], [])
  }

  /** The exceptions the object raises. NullInstance is the null dereference
      on an id with no instance; WrongInputType is the input context refusing
      to read a value of the requested type. */
  datatype Error =
    | IidInUse
    | InvalidIid
    | UnsupportedResource(rid: int)
    | NullInstance
    | WrongInputType
    | PublishFailed

  /** A resource value as read or written. */
  datatype Value = StringValue(s: Option<string>) | BooleanValue(b: bool)

  datatype Outcome<T> = Ok(value: T) | Err(error: Error)

  /** The state after an operation, even one that raised. */
  datatype Step<T> = Step(rt: Runtime, outcome: Outcome<T>)

  /** All instances other than iid are the same in both tables. */
  predicate OthersUnchanged(before: map<int, Instance>, after: map<int, Instance>, iid: int)
  {
    forall j :: j in before && j != iid ==> j in after && after[j] == before[j]
  }

  /** Adds an instance with the given application type and supplier; polarity
      and output start false and the backup null. */
  function InstanceAdd(rt: Runtime, iid: int, applicationType: Option<string>, readOutput: Supplier): (r: Step<()>)
    ensures iid in rt.instances ==> r == Step(rt, Err(IidInUse))
    ensures iid !in rt.instances ==>
      && r.outcome == Ok(())
      && r.rt.instances.Keys == rt.instances.Keys + {iid}
      && r.rt.instances[iid] == Instance(iid, applicationType, None, false, false, readOutput)
      && OthersUnchanged(rt.instances, r.rt.instances, iid)
      && r.rt.trace == rt.trace + [InstancesChanged(ObjectId)]
    ensures Valid(rt) ==> Valid(r.rt)
  {
    if iid in rt.instances then Step(rt, Err(IidInUse))
    else
      Step(Runtime(rt.instances[iid := Instance(iid, applicationType, None, false, false, readOutput)],
                   rt.trace + [InstancesChanged(ObjectId)]),
           Ok(()))
  }

  /** Removal as the program has it: the test is inverted. A present instance
      is removed and then InvalidIid is raised with no notification; for an
      absent id nothing is removed and the instance set is announced changed. */
  function InstanceRemove(rt: Runtime, iid: int): (r: Step<()>)
    ensures iid in rt.instances ==>
      && r.outcome == Err(InvalidIid)
      && r.rt.instances.Keys == rt.instances.Keys - {iid}
      && OthersUnchanged(rt.instances, r.rt.instances, iid)
      && r.rt.trace == rt.trace
    ensures iid !in rt.instances ==>
      && r.outcome == Ok(())
      && r.rt.instances == rt.instances
      && r.rt.trace == rt.trace + [InstancesChanged(ObjectId)]
    ensures Valid(rt) ==> Valid(r.rt)
  {
    if iid in rt.instances then Step(rt.(instances := rt.instances - {iid}), Err(InvalidIid))
    else Step(rt.(trace := rt.trace + [InstancesChanged(ObjectId)]), Ok(()))
  }

  /** Removal as the error message and the object model intend it: an
      unknown id raises InvalidIid and changes nothing; a present instance is
      removed and the instance set is announced changed. */
  function InstanceRemoveCorrected(rt: Runtime, iid: int): (r: Step<()>)
    ensures iid in rt.instances ==>
      && r.outcome == Ok(())
      && r.rt.instances.Keys == rt.instances.Keys - {iid}
      && OthersUnchanged(rt.instances, r.rt.instances, iid)
      && r.rt.trace == rt.trace + [InstancesChanged(ObjectId)]
    ensures iid !in rt.instances ==> r == Step(rt, Err(InvalidIid))
    ensures Valid(rt) ==> Valid(r.rt)
  {
    if iid !in rt.instances then Step(rt, Err(InvalidIid))
    else Step(Runtime(rt.instances - {iid}, rt.trace + [InstancesChanged(ObjectId)]), Ok(()))
  }

  /** The two removals disagree on every input: removing a live instance
      raises in the program and succeeds when corrected, and removing an
      unknown id succeeds in the program and raises when corrected. */
  lemma RemoveTestInverted(rt: Runtime, iid: int)
    ensures InstanceRemove(rt, iid).outcome.Ok? <==> iid !in rt.instances
    ensures InstanceRemoveCorrected(rt, iid).outcome.Ok? <==> iid in rt.instances
    ensures InstanceRemove(rt, iid).outcome != InstanceRemoveCorrected(rt, iid).outcome
  {
  }

  /** Add then remove of a fresh id: the program's removal raises although it
      did remove; the corrected one returns the table it started from. */
  lemma AddThenRemove(rt: Runtime, iid: int, applicationType: Option<string>, s: Supplier)
    requires iid !in rt.instances
    ensures var added := InstanceAdd(rt, iid, applicationType, s).rt;
      && InstanceRemove(added, iid).outcome == Err(InvalidIid)
      && InstanceRemove(added, iid).rt.instances == rt.instances
      && InstanceRemoveCorrected(added, iid).outcome == Ok(())
      && InstanceRemoveCorrected(added, iid).rt.instances == rt.instances
  {
    var added := InstanceAdd(rt, iid, applicationType, s).rt;
    assert added.instances - {iid} == rt.instances;
  }

  /** The instance ids in ascending order, each once. */
  function Instances(rt: Runtime): (ids: seq<int>)
    ensures Ordered.StrictlyAscending(ids)
    ensures forall iid :: iid in ids <==> iid in rt.instances
    ensures |ids| == |rt.instances|
  {
    Ordered.SortedElements(rt.instances.Keys)
  }

  /** Stores an output state and announces resource 5550 of the instance
      changed. */
  function SetOutput(rt: Runtime, iid: int, b: bool): (r: Runtime)
    requires iid in rt.instances
    ensures r.instances.Keys == rt.instances.Keys
    ensures r.instances[iid] == rt.instances[iid].(output := b)
    ensures OthersUnchanged(rt.instances, r.instances, iid)
    ensures r.trace == rt.trace + [ResourceChanged(ObjectId, rt.instances[iid].iid, OutputState)]
    ensures Valid(rt) ==> Valid(r) && r.trace == rt.trace + [ResourceChanged(ObjectId, iid, OutputState)]
  {
    var inst := rt.instances[iid];
    Runtime(rt.instances[iid := inst.(output := b)],
            rt.trace + [ResourceChanged(ObjectId, inst.iid, OutputState)])
  }

  /** Sets the output state of an existing instance from outside the protocol
      engine; an unknown id raises InvalidIid and changes nothing. */
  function Update(rt: Runtime, iid: int, b: bool): (r: Step<()>)
    ensures iid !in rt.instances ==> r == Step(rt, Err(InvalidIid))
    ensures iid in rt.instances ==>
      && r.outcome == Ok(())
      && r.rt.instances.Keys == rt.instances.Keys
      && r.rt.instances[iid] == rt.instances[iid].(output := b)
      && OthersUnchanged(rt.instances, r.rt.instances, iid)
      && r.rt.trace == rt.trace + [ResourceChanged(ObjectId, rt.instances[iid].iid, OutputState)]
    ensures Valid(rt) ==> Valid(r.rt)
    ensures Valid(rt) && iid in rt.instances ==>
      r.rt.trace == rt.trace + [ResourceChanged(ObjectId, iid, OutputState)]
  {
    if iid !in rt.instances then Step(rt, Err(InvalidIid))
    else Step(SetOutput(rt, iid, b), Ok(()))
  }

  datatype Kind = ReadOnly | ReadWrite | Executable

  /** Static description of one resource: id, access kind, and whether it is
      present. */
  datatype ResourceDef = ResourceDef(rid: int, kind: Kind, present: bool)

  /** The resource schema, in ascending id order, the same for every
      instance. */
  function Resources(iid: int): (defs: seq<ResourceDef>)
    ensures |defs| == 3
    ensures forall i :: 0 <= i < |defs| ==> defs[i].kind == ReadWrite && defs[i].present
    ensures forall i, j :: 0 <= i < j < |defs| ==> defs[i].rid < defs[j].rid
    ensures forall rid :: (exists i :: 0 <= i < |defs| && defs[i].rid == rid) <==> IsResource(rid)
  {
    var defs := [ResourceDef(OutputState, ReadWrite, true),
                 ResourceDef(OutputPolarity, ReadWrite, true),
                 ResourceDef(ApplicationType, ReadWrite, true)];
    assert defs[0].rid == OutputState && defs[1].rid == OutputPolarity && defs[2].rid == ApplicationType;
    defs
  }

  predicate IsResource(rid: int)
  {
    rid == OutputState || rid == OutputPolarity || rid == ApplicationType
  }

  /** Reads a resource. The output state is not read from the table: the
      instance's supplier is asked, the answer is stored as the new output
      state with a change notification, and then returned. Both supplier
      calls in the program see the same cells, so they agree. */
  function ResourceRead(rt: Runtime, iid: int, rid: int, cells: Cells.Registered): (r: Step<Value>)
    ensures !IsResource(rid) ==> r == Step(rt, Err(UnsupportedResource(rid)))
    ensures IsResource(rid) && iid !in rt.instances ==> r == Step(rt, Err(NullInstance))
    ensures (rid == ApplicationType || rid == OutputPolarity) ==> r.rt == rt
    ensures rid == ApplicationType && iid in rt.instances ==>
      r.outcome == Ok(StringValue(rt.instances[iid].applicationType))
    ensures rid == OutputPolarity && iid in rt.instances ==>
      r.outcome == Ok(BooleanValue(rt.instances[iid].polarity))
    ensures rid == OutputState && iid in rt.instances ==>
      var supplied := Supply(rt.instances[iid].readOutput, cells);
      && r.outcome == Ok(BooleanValue(supplied))
      && r.rt == SetOutput(rt, iid, supplied)
    ensures Valid(rt) ==> Valid(r.rt)
    ensures Valid(rt) && rid == OutputState && iid in rt.instances ==>
      r.rt.trace == rt.trace + [ResourceChanged(ObjectId, iid, OutputState)]
  {
    if rid == ApplicationType then
      if iid !in rt.instances then Step(rt, Err(NullInstance))
      else Step(rt, Ok(StringValue(rt.instances[iid].applicationType)))
    else if rid == OutputPolarity then
      if iid !in rt.instances then Step(rt, Err(NullInstance))
      else Step(rt, Ok(BooleanValue(rt.instances[iid].polarity)))
    else if rid == OutputState then
      if iid !in rt.instances then Step(rt, Err(NullInstance))
      else
        var inst := rt.instances[iid];
        var supplied := Supply(inst.readOutput, cells);
        var after := SetOutput(rt, iid, supplied);
        Step(after, Ok(BooleanValue(after.instances[iid].output)))
    else Step(rt, Err(UnsupportedResource(rid)))
  }

  /** Writes a resource. The application type and the polarity are stored in
      the instance. The output state is never stored: the value is forwarded
      as an LED downlink, and an unknown instance id is not even looked at.
      The input is read before the instance is dereferenced, so a value of the
      wrong type is reported first. */
  function ResourceWrite(rt: Runtime, iid: int, rid: int, input: Value, transport: Sender.Transport): (r: Step<()>)
    ensures !IsResource(rid) ==> r == Step(rt, Err(UnsupportedResource(rid)))
    ensures r.rt.instances.Keys == rt.instances.Keys
    ensures r.outcome.Err? ==> r.rt == rt
    ensures rid == ApplicationType && r.outcome.Ok? ==>
      && input.StringValue? && iid in rt.instances
      && r.rt.instances[iid] == rt.instances[iid].(applicationType := input.s)
      && OthersUnchanged(rt.instances, r.rt.instances, iid)
      && r.rt.trace == rt.trace
    ensures rid == OutputPolarity && r.outcome.Ok? ==>
      && input.BooleanValue? && iid in rt.instances
      && r.rt.instances[iid] == rt.instances[iid].(polarity := input.b)
      && OthersUnchanged(rt.instances, r.rt.instances, iid)
      && r.rt.trace == rt.trace
    ensures (rid == ApplicationType && input.StringValue?) || (rid == OutputPolarity && input.BooleanValue?) ==>
      (r.outcome.Ok? <==> iid in rt.instances)
    ensures rid == OutputState ==>
      && r.rt.instances == rt.instances
      && (r.outcome.Ok? <==> input.BooleanValue? && transport == Sender.Delivering)
      && (r.outcome.Ok? ==>
            exists m :: r.rt.trace == rt.trace + [Downlink(m)]
                        && Sender.DecodeLedCommand(m.payload) == Some(input.b)
                        && m.topic == Sender.DownlinkTopic
                        && m.qos == Sender.AtMostOnce && m.retained)
    ensures IsResource(rid) && !(if rid == ApplicationType then input.StringValue? else input.BooleanValue?) ==>
      r.outcome == Err(WrongInputType)
    ensures (((rid == ApplicationType && input.StringValue?) || (rid == OutputPolarity && input.BooleanValue?))
             && iid !in rt.instances) ==> r.outcome == Err(NullInstance)
    ensures rid == OutputState && input.BooleanValue? && transport == Sender.Failing ==>
      r.outcome == Err(PublishFailed)
    ensures Valid(rt) ==> Valid(r.rt)
  {
    if rid == ApplicationType then
      match input
      case StringValue(s) =>
        if iid !in rt.instances then Step(rt, Err(NullInstance))
        else Step(rt.(instances := rt.instances[iid := rt.instances[iid].(applicationType := s)]), Ok(()))
      case BooleanValue(_) => Step(rt, Err(WrongInputType))
    else if rid == OutputPolarity then
      match input
      case BooleanValue(b) =>
        if iid !in rt.instances then Step(rt, Err(NullInstance))
        else Step(rt.(instances := rt.instances[iid := rt.instances[iid].(polarity := b)]), Ok(()))
      case StringValue(_) => Step(rt, Err(WrongInputType))
    else if rid == OutputState then
      match input
      case BooleanValue(b) =>
        (match Sender.SendLedDownlink(b, transport)
         case Published(m) => Step(rt.(trace := rt.trace + [Downlink(m)]), Ok(()))
         case PublishFailed => Step(rt, Err(PublishFailed)))
      case StringValue(_) => Step(rt, Err(WrongInputType))
    else Step(rt, Err(UnsupportedResource(rid)))
  }

  /** Snapshots every application type into its backup slot. */
  function TransactionBegin(rt: Runtime): (r: Runtime)
    ensures r.instances.Keys == rt.instances.Keys && r.trace == rt.trace
    ensures forall k :: k in rt.instances ==>
      r.instances[k] == rt.instances[k].(applicationTypeBackup := rt.instances[k].applicationType)
    ensures Valid(rt) ==> Valid(r)
  {
    rt.(instances := map k | k in rt.instances ::
          rt.instances[k].(applicationTypeBackup := rt.instances[k].applicationType))
  }

  /** Validation accepts every state and changes nothing. */
  function TransactionValidate(rt: Runtime): (r: Step<()>)
    ensures r.rt == rt && r.outcome.Ok?
    ensures Valid(rt) ==> Valid(r.rt)
  {
    Step(rt, Ok(()))
  }

  /** Clears every backup slot; current values stay. */
  function TransactionCommit(rt: Runtime): (r: Runtime)
    ensures r.instances.Keys == rt.instances.Keys && r.trace == rt.trace
    ensures forall k :: k in rt.instances ==>
      r.instances[k] == rt.instances[k].(applicationTypeBackup := None)
    ensures Valid(rt) ==> Valid(r)
  {
    rt.(instances := map k | k in rt.instances :: rt.instances[k].(applicationTypeBackup := None))
  }

  /** Sets every application type to its backup slot. Polarity and output
      state are not restored. */
  function TransactionRollback(rt: Runtime): (r: Runtime)
    ensures r.instances.Keys == rt.instances.Keys && r.trace == rt.trace
    ensures forall k :: k in rt.instances ==>
      r.instances[k] == rt.instances[k].(applicationType := rt.instances[k].applicationTypeBackup)
    ensures Valid(rt) ==> Valid(r)
  {
    rt.(instances := map k | k in rt.instances ::
          rt.instances[k].(applicationType := rt.instances[k].applicationTypeBackup))
  }

  /** A resource operation the engine may issue between begin and the
      terminal step of a transaction. */
  datatype Op =
    | Read(iid: int, rid: int, cells: Cells.Registered)
    | Write(iid: int, rid: int, input: Value, transport: Sender.Transport)
    | SetState(iid: int, b: bool)

  function Apply(rt: Runtime, op: Op): Runtime
  {
    match op
    case Read(iid, rid, cells) => ResourceRead(rt, iid, rid, cells).rt
    case Write(iid, rid, input, transport) => ResourceWrite(rt, iid, rid, input, transport).rt
    case SetState(iid, b) => Update(rt, iid, b).rt
  }

  /** Runs the operations in order, each on the state the previous one left,
      whether or not it raised. */
  function Run(rt: Runtime, ops: seq<Op>): Runtime
    decreases |ops|
  {
    if ops == [] then rt else Run(Apply(rt, ops[0]), ops[1..])
  }

  /** Resource operations keep the instance set and every backup slot. */
  lemma OpKeepsBackups(rt: Runtime, op: Op)
    ensures Apply(rt, op).instances.Keys == rt.instances.Keys
    ensures forall k :: k in rt.instances ==>
      Apply(rt, op).instances[k].applicationTypeBackup == rt.instances[k].applicationTypeBackup
  {
  }

  lemma {:induction false} RunKeepsBackups(rt: Runtime, ops: seq<Op>)
    ensures Run(rt, ops).instances.Keys == rt.instances.Keys
    ensures forall k :: k in rt.instances ==>
      Run(rt, ops).instances[k].applicationTypeBackup == rt.instances[k].applicationTypeBackup
    decreases |ops|
  {
    if ops != [] {
      OpKeepsBackups(rt, ops[0]);
      RunKeepsBackups(Apply(rt, ops[0]), ops[1..]);
    }
  }

  /** Begin, any resource operations, rollback: every application type is
      back to its value before begin, however many instances were written. */
  lemma RollbackRestoresApplicationTypes(rt: Runtime, ops: seq<Op>)
    ensures var after := TransactionRollback(Run(TransactionBegin(rt), ops));
      && after.instances.Keys == rt.instances.Keys
      && forall k :: k in rt.instances ==>
           after.instances[k].applicationType == rt.instances[k].applicationType
  {
    RunKeepsBackups(TransactionBegin(rt), ops);
  }

  /** Begin, any resource operations, commit: the written values stay and the
      backups are cleared. */
  lemma CommitKeepsWrites(rt: Runtime, ops: seq<Op>)
    ensures var written := Run(TransactionBegin(rt), ops);
      var after := TransactionCommit(written);
      && after.instances.Keys == rt.instances.Keys
      && forall k :: k in rt.instances ==>
           && after.instances[k].applicationType == written.instances[k].applicationType
           && after.instances[k].polarity == written.instances[k].polarity
           && after.instances[k].output == written.instances[k].output
           && after.instances[k].applicationTypeBackup.None?
  {
    RunKeepsBackups(TransactionBegin(rt), ops);
  }

  /** Rollback after a commit sets every application type to null. */
  lemma RollbackAfterCommitClears(rt: Runtime)
    ensures forall k :: k in rt.instances ==>
      TransactionRollback(TransactionCommit(rt)).instances[k].applicationType.None?
  {
  }

  /** Rollback with no begin since an instance was added sets its
      application type to null. */
  lemma RollbackWithoutBeginClears(rt: Runtime, iid: int, applicationType: Option<string>, s: Supplier)
    requires iid !in rt.instances
    ensures TransactionRollback(InstanceAdd(rt, iid, applicationType, s).rt).instances[iid].applicationType.None?
  {
  }

  /** Writing the output state never shows up in a later read of it: the
      read returns what the supplier says, with or without the write. */
  lemma WriteStateInvisibleToRead(rt: Runtime, iid: int, b: bool, transport: Sender.Transport, cells: Cells.Registered)
    ensures var written := ResourceWrite(rt, iid, OutputState, BooleanValue(b), transport).rt;
      ResourceRead(written, iid, OutputState, cells).outcome == ResourceRead(rt, iid, OutputState, cells).outcome
  {
  }
}
