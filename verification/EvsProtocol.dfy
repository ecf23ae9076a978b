/** The attach/detach protocol of the EVS controller as a state machine.

    One volume, its jobs, and any number of publish and unpublish calls in flight. A call is a program counter;
    each event is one API request of one call, or one move of the cloud. What the cloud does is assumed, and is
    written out here: an attach request is accepted only while the volume is available, and acceptance records
    the attachment at once; a detach request for a server that is not attached is refused with Ecs.0111; a job
    ends at any later time, successfully or not. An answer may get lost, and any request may fail. */
module EvsProtocol {

  type ServerId = string
  type CallId = nat

  /** A device is assigned when the attach job succeeds. The attachment's identity is the job that made it. */
  datatype Attachment = Attachment(id: nat, server: ServerId, device: string)

  datatype VolumeStatus = Available | Attaching | InUse | Detaching

  datatype Volume = Volume(status: VolumeStatus, attachments: seq<Attachment>)

  datatype Outcome = Running | Succeeded | FailedNotAttached | Failed

  /** Ghost knowledge of who asked: caller is never read by the driver. */
  datatype Job =
    | AttachJob(server: ServerId, caller: CallId, outcome: Outcome)
    | DetachJob(server: ServerId, caller: CallId, outcome: Outcome, target: nat)

  datatype Operation = Publish | Unpublish

  datatype Reply = Ok(devicePath: string) | Error

  datatype Pc =
    | PublishRead
    | PublishSubmit
    | PublishPoll(job: nat, checks: nat)
    | PublishWait(checks: nat)
    | PublishReread
    | UnpublishRead
    | UnpublishServer(skip: bool)
    | UnpublishSubmit
    | UnpublishPoll(job: nat, checks: nat)
    | Returned(reply: Reply)

  datatype Call = Call(op: Operation, server: ServerId, pc: Pc)

  datatype State = State(volume: Volume, jobs: seq<Job>, calls: map<CallId, Call>)

  datatype Event =
    | Begin(c: CallId, op: Operation, server: ServerId)
    | Fault(c: CallId)
    | Read(c: CallId)
    | ServerFound(c: CallId)
    | Submit(c: CallId, answered: bool)
    | Poll(c: CallId)
    | JobSucceeds(job: nat, device: string)
    | JobFails(job: nat)
    | JobFindsNothing(job: nat, reportsError: bool)

  datatype AttachmentStatus =
    | NotAttached | AttachingCurrentServer | AttachingOtherServer
    | AttachedCurrentServer | AttachedOtherServer | AttachError

  // The number of condition checks of a polling loop.
  const STEPS := 30

  // ---------- What the driver computes from a volume it has read ----------

  predicate AttachedTo(v: Volume, server: ServerId) {
    exists a <- v.attachments :: a.server == server
  }

  function Classify(v: Volume, server: ServerId): AttachmentStatus {
    match v.status
    case Available => NotAttached
    case Attaching => if AttachedTo(v, server) then AttachingCurrentServer else AttachingOtherServer
    case InUse => if AttachedTo(v, server) then AttachedCurrentServer else AttachedOtherServer
    case Detaching => AttachError
  }

  function DevicePathIn(attachments: seq<Attachment>, server: ServerId): (path: string)
    ensures path != "" ==> exists a <- attachments :: a.server == server && a.device == path
    ensures (forall a <- attachments :: a.server != server) ==> path == ""
  {
    if attachments == [] then ""
    else if attachments[0].server == server then attachments[0].device
    else DevicePathIn(attachments[1..], server)
  }

  function DevicePath(v: Volume, server: ServerId): string {
    DevicePathIn(v.attachments, server)
  }

  predicate NothingToDetach(v: Volume) {
    v.status == Available || v.attachments == []
  }

  // ---------- One request of a call ----------

  function CheckedAgain(pc: Pc): Pc
    requires pc.PublishPoll? || pc.PublishWait? || pc.UnpublishPoll?
  {
    if pc.checks + 1 >= STEPS then Returned(Error) else pc.(checks := pc.checks + 1)
  }

  predicate Reads(pc: Pc) {
    pc.PublishRead? || pc.PublishWait? || pc.PublishReread? || pc.UnpublishRead?
  }

  function AfterRead(call: Call, v: Volume): Pc
    requires Reads(call.pc)
  {
    match call.pc
    case PublishRead =>
      (match Classify(v, call.server)
       case NotAttached => PublishSubmit
       case AttachingCurrentServer => PublishWait(0)
       case AttachedCurrentServer => Returned(Ok(DevicePath(v, call.server)))
       case _ => Returned(Error))
    case PublishWait(_) =>
      if v.status == InUse then PublishReread
      else if v.status == Attaching then CheckedAgain(call.pc)
      else Returned(Error)
    case PublishReread => Returned(Ok(DevicePath(v, call.server)))
    case UnpublishRead => UnpublishServer(NothingToDetach(v))
  }

  function AfterPoll(pc: Pc, outcome: Outcome): Pc
    requires pc.PublishPoll? || pc.UnpublishPoll?
  {
    match outcome
    case Running => CheckedAgain(pc)
    case Succeeded => if pc.PublishPoll? then PublishReread else Returned(Ok(""))
    case FailedNotAttached => if pc.PublishPoll? then Returned(Error) else Returned(Ok(""))
    case Failed => Returned(Error)
  }

  function Goto(s: State, c: CallId, pc: Pc): State
    requires c in s.calls
  {
    s.(calls := s.calls[c := s.calls[c].(pc := pc)])
  }

  // ---------- The cloud's rules ----------

  function SubmitAttach(s: State, c: CallId, answered: bool): State
    requires c in s.calls
  {
    if s.volume.status != Available then Goto(s, c, Returned(Error))
    else
      var id := |s.jobs|;
      var server := s.calls[c].server;
      var accepted := s.(volume := Volume(Attaching, s.volume.attachments + [Attachment(id, server, "")]),
                         jobs := s.jobs + [AttachJob(server, c, Running)]);
      Goto(accepted, c, if answered then PublishPoll(id, 0) else Returned(Error))
  }

  function SubmitDetach(s: State, c: CallId, answered: bool): State
    requires c in s.calls
  {
    var server := s.calls[c].server;
    if !AttachedTo(s.volume, server) then
      Goto(s, c, Returned(if answered then Ok("") else Error))
    else if s.volume.status != InUse && s.volume.status != Detaching then
      Goto(s, c, Returned(Error))
    else
      var id := |s.jobs|;
      var target := IdOf(s.volume.attachments, server);
      var accepted := s.(volume := s.volume.(status := Detaching),
                         jobs := s.jobs + [DetachJob(server, c, Running, target)]);
      Goto(accepted, c, if answered then UnpublishPoll(id, 0) else Returned(Error))
  }

  function IdOf(attachments: seq<Attachment>, server: ServerId): (id: nat)
    requires exists a <- attachments :: a.server == server
    ensures exists a <- attachments :: a.server == server && a.id == id
  {
    if attachments[0].server == server then attachments[0].id else IdOf(attachments[1..], server)
  }

  predicate Holds(v: Volume, id: nat) {
    exists a <- v.attachments :: a.id == id
  }

  function Without(attachments: seq<Attachment>, id: nat): (r: seq<Attachment>)
    ensures forall a <- attachments :: a.id != id ==> a in r
    ensures forall a <- r :: a in attachments && a.id != id
  {
    if attachments == [] then []
    else (if attachments[0].id == id then [] else [attachments[0]]) + Without(attachments[1..], id)
  }

  function WithDevice(attachments: seq<Attachment>, id: nat, device: string): (r: seq<Attachment>)
    ensures |r| == |attachments|
    ensures forall i | 0 <= i < |r| ::
              r[i] == if attachments[i].id == id then attachments[i].(device := device) else attachments[i]
  {
    seq(|attachments|, i requires 0 <= i < |attachments| =>
      if attachments[i].id == id then attachments[i].(device := device) else attachments[i])
  }

  function Finish(s: State, job: nat, outcome: Outcome): State
    requires job < |s.jobs|
  {
    s.(jobs := s.jobs[job := s.jobs[job].(outcome := outcome)])
  }

  predicate JobMayEnd(s: State, e: Event)
    requires e.JobSucceeds? || e.JobFails? || e.JobFindsNothing?
  {
    && e.job < |s.jobs|
    && s.jobs[e.job].outcome == Running
    && var job := s.jobs[e.job];
       match e
       case JobSucceeds(_, device) =>
         if job.AttachJob? then device != ""
         else Holds(s.volume, job.target) && (s.volume.status == InUse || s.volume.status == Detaching)
       case JobFails(_) => job.AttachJob? || Holds(s.volume, job.target)
       case JobFindsNothing(_, _) => job.DetachJob? && !Holds(s.volume, job.target)
  }

  function EndJob(s: State, e: Event): State
    requires e.JobSucceeds? || e.JobFails? || e.JobFindsNothing?
    requires JobMayEnd(s, e)
  {
    var job := s.jobs[e.job];
    match e
    case JobSucceeds(j, device) =>
      Finish(s.(volume := if job.AttachJob? then Volume(InUse, WithDevice(s.volume.attachments, j, device))
                          else Volume(Available, Without(s.volume.attachments, job.target))), j, Succeeded)
    case JobFails(j) =>
      Finish(s.(volume := if job.AttachJob? then Volume(Available, Without(s.volume.attachments, j))
                          else if s.volume.status == Detaching then s.volume.(status := InUse)
                          else s.volume), j, Failed)
    case JobFindsNothing(j, reportsError) =>
      Finish(s, j, if reportsError then FailedNotAttached else Succeeded)
  }

  // ---------- Runs ----------

  predicate IsCloudMove(e: Event) {
    e.JobSucceeds? || e.JobFails? || e.JobFindsNothing?
  }

  predicate Live(s: State, c: CallId) {
    c in s.calls && !s.calls[c].pc.Returned?
  }

  predicate Enabled(s: State, e: Event) {
    if IsCloudMove(e) then JobMayEnd(s, e)
    else if e.Begin? then e.c !in s.calls
    else
      && Live(s, e.c)
      && var pc := s.calls[e.c].pc;
         match e
         case Fault(_) => true
         case Read(_) => Reads(pc)
         case ServerFound(_) => pc.UnpublishServer?
         case Submit(_, _) => pc.PublishSubmit? || pc.UnpublishSubmit?
         case Poll(_) => (pc.PublishPoll? || pc.UnpublishPoll?) && pc.job < |s.jobs|
  }

  function Next(s: State, e: Event): State
    requires Enabled(s, e)
  {
    if IsCloudMove(e) then EndJob(s, e)
    else if e.Begin? then
      s.(calls := s.calls[e.c := Call(e.op, e.server, if e.op == Publish then PublishRead else UnpublishRead)])
    else
      var call := s.calls[e.c];
      match e
      case Fault(c) => Goto(s, c, Returned(Error))
      case Read(c) => Goto(s, c, AfterRead(call, s.volume))
      case ServerFound(c) => Goto(s, c, if call.pc.skip then Returned(Ok("")) else UnpublishSubmit)
      case Submit(c, answered) =>
        if call.pc.PublishSubmit? then SubmitAttach(s, c, answered) else SubmitDetach(s, c, answered)
      case Poll(c) => Goto(s, c, AfterPoll(call.pc, s.jobs[call.pc.job].outcome))
  }

  predicate Initial(s: State) {
    s == State(Volume(Available, []), [], map[])
  }

  /** states[i] is the state before events[i]. */
  datatype Run = Run(states: seq<State>, events: seq<Event>) {
    predicate Valid() {
      && |states| == |events| + 1
      && Initial(states[0])
      && forall i :: 0 <= i < |events| ==> StepAt(i)
    }

    predicate StepAt(i: nat)
      requires i < |events| && |states| == |events| + 1
    {
      Enabled(states[i], events[i]) && states[i + 1] == Next(states[i], events[i])
    }

    function Last(): State
      requires Valid()
    {
      states[|events|]
    }

    function Then(e: Event): (r: Run)
      requires Valid() && Enabled(Last(), e)
      ensures r.Valid() && r.Extends(this) && r.Last() == Next(Last(), e) && r.events == events + [e]
    {
      var r := Run(states + [Next(Last(), e)], events + [e]);
      assert forall i | 0 <= i < |events| :: StepAt(i) ==> r.StepAt(i);
      r
    }

    /** This run goes on where the other one ends. */
    ghost predicate Extends(r: Run) {
      r.events <= events && r.states <= states
    }
  }
}
