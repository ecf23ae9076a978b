/** What a call decides at each of its reads and checks, in the statuses the volume and the job show, and whole
    courses of calls that succeed. */
module EvsPaths {
  import opened EvsProtocol
  import opened EvsSafety
  import opened EvsMoves
  import opened Wrappers

  // ---------- What each answer leads to ----------

  /** The first read of a publish: attach if the volume is available; wait if it is attaching to this server; succeed if
      it is in use by this server; fail otherwise. */
  lemma FirstReadDecides(call: Call, v: Volume)
    requires call.pc == PublishRead
    ensures var mine := exists a <- v.attachments :: a.server == call.server;
            var next := AfterRead(call, v);
            && (next == PublishSubmit <==> v.status == Available)
            && (next == PublishWait(0) <==> v.status == Attaching && mine)
            && (next.Returned? && next.reply.Ok? <==> v.status == InUse && mine)
            && (next == Returned(Error) <==> v.status == Detaching || (v.status in {Attaching, InUse} && !mine))
  {
  }

  /** A read while waiting, and the one after: in-use, for whichever server, ends the wait; attaching goes on with it up
      to thirty reads; and the last read is answered with the device of the first attachment to this server. */
  lemma LaterReadDecides(call: Call, v: Volume)
    requires call.pc.PublishWait? || call.pc == PublishReread
    ensures var next := AfterRead(call, v);
            && (call.pc == PublishReread ==> next == Returned(Ok(DevicePath(v, call.server))))
            && (call.pc.PublishWait? ==>
                  && (next == PublishReread <==> v.status == InUse)
                  && (next == PublishWait(call.pc.checks + 1) <==> v.status == Attaching && call.pc.checks < 29)
                  && (next == Returned(Error) <==>
                        v.status in {Available, Detaching} || (v.status == Attaching && call.pc.checks >= 29)))
  {
  }

  /** The device of the first attachment to this server, and no path exactly if there is none or it has no device. */
  lemma {:induction false} FirstDevice(attachments: seq<Attachment>, server: ServerId, i: nat)
    requires i < |attachments| && attachments[i].server == server
    requires forall j | 0 <= j < i :: attachments[j].server != server
    ensures DevicePathIn(attachments, server) == attachments[i].device
  {
    if i == 0 {
    } else {
      FirstDevice(attachments[1..], server, i - 1);
    }
  }

  /** A check of a job: running goes on with the wait up to thirty checks; success ends it, and so does, for a detach
      job, that the server is not attached; any other end is an error. */
  lemma CheckDecides(pc: Pc, outcome: Outcome)
    requires pc.PublishPoll? || pc.UnpublishPoll?
    ensures var next := AfterPoll(pc, outcome);
            && (next == pc.(checks := pc.checks + 1) <==> outcome == Running && pc.checks < 29)
            && (next == PublishReread <==> pc.PublishPoll? && outcome == Succeeded)
            && (next == Returned(Ok("")) <==> pc.UnpublishPoll? && outcome in {Succeeded, FailedNotAttached})
            && (next == Returned(Error) <==>
                  || outcome == Failed
                  || (outcome == Running && pc.checks >= 29)
                  || (outcome == FailedNotAttached && pc.PublishPoll?))
  {
  }

  /** An unpublish that finds the volume available, or attached to nobody, sends no detach request. */
  lemma UnpublishReadDecides(call: Call, v: Volume)
    requires call.pc == UnpublishRead
    ensures AfterRead(call, v) == UnpublishServer(v.status == Available || |v.attachments| == 0)
  {
  }

  /** Once the server is found, an unpublish with nothing to detach is done, and another one submits its detach job; a
      request that fails ends the call with an error; and a call begins with its read. */
  lemma OtherStepsDecide(s: State, e: Event)
    requires Enabled(s, e) && (e.ServerFound? || e.Fault? || e.Begin?)
    ensures var call := Next(s, e).calls[e.c];
            && (e.ServerFound? ==> call.pc == if s.calls[e.c].pc.skip then Returned(Ok("")) else UnpublishSubmit)
            && (e.Fault? ==> call.pc == Returned(Error))
            && (e.Begin? ==> call == Call(e.op, e.server, if e.op == Publish then PublishRead else UnpublishRead))
    ensures Next(s, e).volume == s.volume && Next(s, e).jobs == s.jobs
  {
  }

  /** A submission whose answer gets lost has the effect it has otherwise; the call fails. */
  lemma LostAnswer(s: State, c: CallId)
    requires Enabled(s, Submit(c, false))
    ensures Next(s, Submit(c, false)) ==
            var t := Next(s, Submit(c, true)); t.(calls := t.calls[c := s.calls[c].(pc := Returned(Error))])
  {
  }

  // ---------- Courses that succeed ----------

  /** What an accepted detach request leaves. */
  ghost predicate DetachAsked(before: State, after: State, c: CallId, instanceID: ServerId) {
    var v := before.volume;
    if v.status in {InUse, Detaching} && AttachedTo(v, instanceID) then
      && after.volume == v.(status := Detaching)
      && after.jobs == before.jobs + [DetachJob(instanceID, c, Running, v.attachments[0].id)]
    else after.volume == v && after.jobs == before.jobs
  }

  lemma SubmitAsksToDetach(s: State, c: CallId)
    requires Inv(s) && c in s.calls && s.calls[c].pc == UnpublishSubmit
    ensures DetachAsked(s, Next(s, Submit(c, true)), c, s.calls[c].server)
    ensures Next(s, Submit(c, true)).calls.Keys == s.calls.Keys
  {
  }

  /** A run goes on with these moves. */
  lemma GoesOn(r: Run, later: Run, moves: seq<Event>)
    requires r.Valid() && later.Valid() && later.Extends(r) && later.events == r.events + moves
    ensures Legal(r.Last(), moves) && After(r.Last(), moves) == later.Last()
  {
    RunMoves(later, |r.events|);
    assert later.events[|r.events|..] == moves;
  }

  lemma AttachAsked(r: Run, c: CallId, server: ServerId) returns (asked: Run)
    requires r.Valid() && c !in r.Last().calls && r.Last().volume.status == Available
    ensures asked.Valid() && asked.Extends(r)
    ensures asked.events == r.events + [Begin(c, Publish, server), Read(c), Submit(c, true)]
    ensures asked.Last().volume == Volume(Attaching, [Attachment(|r.Last().jobs|, server, "")])
    ensures asked.Last().jobs == r.Last().jobs + [AttachJob(server, c, Running)]
    ensures c in asked.Last().calls && asked.Last().calls[c] == Call(Publish, server, PublishPoll(|r.Last().jobs|, 0))
  {
    RunsAreSafe(r, |r.events|);
    asked := r.Then(Begin(c, Publish, server)).Then(Read(c));
    assert asked.Last().volume.attachments == [];
    asked := asked.Then(Submit(c, true));
  }

  lemma AttachEnds(r: Run, c: CallId, job: nat, server: ServerId, device: string) returns (done: Run)
    requires r.Valid() && job < |r.Last().jobs| && r.Last().jobs[job] == AttachJob(server, c, Running)
    requires r.Last().volume == Volume(Attaching, [Attachment(job, server, "")]) && device != ""
    requires c in r.Last().calls && r.Last().calls[c] == Call(Publish, server, PublishPoll(job, 0))
    ensures done.Valid() && done.Extends(r)
    ensures done.events == r.events + [Poll(c), JobSucceeds(job, device), Poll(c), Read(c)]
    ensures ReplyOf(done.Last(), c) == Some(Ok(device))
  {
    done := r.Then(Poll(c)).Then(JobSucceeds(job, device));
    assert done.Last().volume == Volume(InUse, [Attachment(job, server, device)]);
    assert done.Last().calls[c].pc == PublishPoll(job, 1) && done.Last().jobs[job].outcome == Succeeded;
    done := done.Then(Poll(c)).Then(Read(c));
  }

  lemma PublishPath(r: Run, c: CallId, server: ServerId, device: string)
    requires r.Valid() && c !in r.Last().calls && r.Last().volume.status == Available && device != ""
    ensures var s := r.Last();
            var moves := [Begin(c, Publish, server)] + [Read(c), Submit(c, true), Poll(c),
                                                        JobSucceeds(|s.jobs|, device), Poll(c), Read(c)];
            Legal(s, moves) && ReplyOf(After(s, moves), c) == Some(Ok(device))
  {
    var job := |r.Last().jobs|;
    var asked := AttachAsked(r, c, server);
    var done := AttachEnds(asked, c, job, server, device);
    GoesOn(r, done, [Begin(c, Publish, server)] + [Read(c), Submit(c, true), Poll(c),
                                                   JobSucceeds(job, device), Poll(c), Read(c)]);
  }

  lemma DetachReady(r: Run, c: CallId, server: ServerId) returns (ready: Run)
    requires r.Valid() && c !in r.Last().calls && r.Last().volume.status == InUse && r.Last().volume.attachments != []
    ensures ready.Valid() && ready.Extends(r)
    ensures ready.events == r.events + [Begin(c, Unpublish, server), Read(c), ServerFound(c)]
    ensures ready.Last() == r.Last().(calls := r.Last().calls[c := Call(Unpublish, server, UnpublishSubmit)])
  {
    ready := r.Then(Begin(c, Unpublish, server)).Then(Read(c));
    assert ready.Last().calls[c].pc == UnpublishServer(false);
    ready := ready.Then(ServerFound(c));
  }

  lemma DetachSubmitted(r: Run, c: CallId, server: ServerId) returns (asked: Run)
    requires r.Valid() && c !in r.Last().calls && r.Last().volume.status == InUse
    requires AttachedTo(r.Last().volume, server)
    ensures asked.Valid() && asked.Extends(r)
    ensures asked.events == r.events + [Begin(c, Unpublish, server), Read(c), ServerFound(c), Submit(c, true)]
    ensures DetachAsked(r.Last(), asked.Last(), c, server)
    ensures c in asked.Last().calls
    ensures asked.Last().calls[c] == Call(Unpublish, server, UnpublishPoll(|r.Last().jobs|, 0))
  {
    var ready := DetachReady(r, c, server);
    RunsAreSafe(ready, |ready.events|);
    SubmitAsksToDetach(ready.Last(), c);
    asked := ready.Then(Submit(c, true));
  }

  lemma DetachEnds(r: Run, c: CallId, job: nat, server: ServerId) returns (done: Run)
    requires r.Valid() && job < |r.Last().jobs| && r.Last().volume.status == Detaching
    requires r.Last().jobs[job].DetachJob? && r.Last().jobs[job].outcome == Running
    requires Holds(r.Last().volume, r.Last().jobs[job].target)
    requires c in r.Last().calls && r.Last().calls[c] == Call(Unpublish, server, UnpublishPoll(job, 0))
    ensures done.Valid() && done.Extends(r)
    ensures done.events == r.events + [Poll(c), JobSucceeds(job, ""), Poll(c)]
    ensures ReplyOf(done.Last(), c) == Some(Ok(""))
  {
    done := r.Then(Poll(c)).Then(JobSucceeds(job, ""));
    assert done.Last().calls[c].pc == UnpublishPoll(job, 1) && done.Last().jobs[job].outcome == Succeeded;
    done := done.Then(Poll(c));
  }

  lemma UnpublishPath(r: Run, c: CallId, server: ServerId)
    requires r.Valid() && c !in r.Last().calls && r.Last().volume.status == InUse
    requires AttachedTo(r.Last().volume, server)
    ensures var s := r.Last();
            var moves := [Begin(c, Unpublish, server)] + [Read(c), ServerFound(c), Submit(c, true), Poll(c),
                                                          JobSucceeds(|s.jobs|, ""), Poll(c)];
            Legal(s, moves) && ReplyOf(After(s, moves), c) == Some(Ok(""))
  {
    RunsAreSafe(r, |r.events|);
    var job, a := |r.Last().jobs|, r.Last().volume.attachments[0];
    var asked := DetachSubmitted(r, c, server);
    assert a in asked.Last().volume.attachments;
    var done := DetachEnds(asked, c, job, server);
    GoesOn(r, done, [Begin(c, Unpublish, server)] + [Read(c), ServerFound(c), Submit(c, true), Poll(c),
                                                     JobSucceeds(job, ""), Poll(c)]);
  }

  lemma WaitReached(r: Run, c: CallId, server: ServerId) returns (waiting: Run)
    requires r.Valid() && c !in r.Last().calls && r.Last().volume.status == Attaching
    requires AttachedTo(r.Last().volume, server)
    ensures waiting.Valid() && waiting.Extends(r)
    ensures waiting.events == r.events + [Begin(c, Publish, server), Read(c), Read(c)]
    ensures waiting.Last() == r.Last().(calls := r.Last().calls[c := Call(Publish, server, PublishWait(1))])
  {
    waiting := r.Then(Begin(c, Publish, server)).Then(Read(c));
    assert waiting.Last().calls[c].pc == PublishWait(0);
    waiting := waiting.Then(Read(c));
  }

  lemma WaitEnds(r: Run, c: CallId, server: ServerId, job: nat, device: string) returns (done: Run)
    requires r.Valid() && job < |r.Last().jobs| && r.Last().jobs[job].AttachJob?
    requires r.Last().jobs[job].outcome == Running && device != ""
    requires exists before :: r.Last().volume.attachments == [Attachment(job, server, before)]
    requires c in r.Last().calls && r.Last().calls[c] == Call(Publish, server, PublishWait(1))
    ensures done.Valid() && done.Extends(r)
    ensures done.events == r.events + [JobSucceeds(job, device), Read(c), Read(c)]
    ensures ReplyOf(done.Last(), c) == Some(Ok(device))
  {
    done := r.Then(JobSucceeds(job, device));
    assert done.Last().volume == Volume(InUse, [Attachment(job, server, device)]);
    done := done.Then(Read(c));
    assert done.Last().calls[c].pc == PublishReread;
    done := done.Then(Read(c));
  }

  lemma WaitPath(r: Run, c: CallId, server: ServerId, device: string)
    requires r.Valid() && c !in r.Last().calls && r.Last().volume.status == Attaching
    requires AttachedTo(r.Last().volume, server) && device != ""
    ensures r.Last().volume.attachments != []
    ensures var s := r.Last();
            var job := s.volume.attachments[0].id;
            var moves := [Begin(c, Publish, server)] + [Read(c), Read(c), JobSucceeds(job, device), Read(c), Read(c)];
            Legal(s, moves) && ReplyOf(After(s, moves), c) == Some(Ok(device))
  {
    RunsAreSafe(r, |r.events|);
    var s := r.Last();
    var a := s.volume.attachments[0];
    assert s.volume.attachments == [a] && MadeByJob(s, a) && JobOk(s, a.id);
    var waiting := WaitReached(r, c, server);
    assert waiting.Last().volume.attachments == [Attachment(a.id, server, a.device)];
    var done := WaitEnds(waiting, c, server, a.id, device);
    GoesOn(r, done, [Begin(c, Publish, server)] + [Read(c), Read(c), JobSucceeds(a.id, device), Read(c), Read(c)]);
  }
}
