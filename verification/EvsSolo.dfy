/** Runs in which at most one call is in flight at a time, as section "Concurrency" of "RPC Interface" in the CSI
    specification v1.5.0 has the caller see to, and a run that shows what breaks without it. Jobs of earlier calls
    that timed out may still be running. */
module EvsSolo {
  import opened EvsProtocol
  import opened EvsSafety
  import opened EvsHistory

  ghost predicate Solo(r: Run) {
    forall s <- r.states, c <- s.calls, d <- s.calls :: Live(s, c) && Live(s, d) ==> c == d
  }

  /** No detach job was ever asked for against this attachment. */
  ghost predicate Untouched(s: State, id: nat) {
    forall j: nat | j < |s.jobs| && s.jobs[j].DetachJob? :: s.jobs[j].target != id
  }

  ghost predicate HeldFor(s: State, server: ServerId) {
    s.volume.attachments != [] && s.volume.attachments[0].server == server
    && Untouched(s, s.volume.attachments[0].id)
  }

  /** What the one publish call in flight may rely on. */
  ghost predicate SoloOk(s: State, c: CallId)
    requires c in s.calls
  {
    var server := s.calls[c].server;
    match s.calls[c].pc
    case PublishSubmit => s.volume.status == Available
    case PublishPoll(j, _) =>
      && j < |s.jobs| && Untouched(s, j)
      && (s.jobs[j].outcome == Running || s.jobs[j].outcome == Succeeded ==>
            Holds(s.volume, j) && HeldFor(s, server))
      && (s.jobs[j].outcome == Succeeded ==> s.volume.status == InUse)
    case PublishWait(_) =>
      && s.volume.status != Detaching
      && (s.volume.status != Available ==> HeldFor(s, server))
    case PublishReread => s.volume.status == InUse && HeldFor(s, server)
    case _ => true
  }

  lemma CloudKeepsUntouched(s: State, e: Event)
    requires Enabled(s, e) && IsCloudMove(e)
    ensures forall id: nat :: Untouched(s, id) ==> Untouched(Next(s, e), id)
  {
    forall id: nat | Untouched(s, id) ensures Untouched(Next(s, e), id) {
      var t := Next(s, e);
      assert forall j: nat | j < |t.jobs| && t.jobs[j].DetachJob? ::
          s.jobs[j].DetachJob? && s.jobs[j].target == t.jobs[j].target;
    }
  }

  lemma CloudKeepsSoloOk(s: State, e: Event, c: CallId)
    requires Inv(s) && Enabled(s, e) && IsCloudMove(e) && c in s.calls && SoloOk(s, c)
    ensures SoloOk(Next(s, e), c)
  {
    assert JobOk(s, e.job) && CallOk(s, c);
    if s.jobs[e.job].AttachJob? { assert Holds(s.volume, e.job); OnlyOneLeavesNone(s.volume, e.job); }
    CloudKeepsUntouched(s, e);
    if s.volume.attachments != [] { assert MadeByJob(s, s.volume.attachments[0]); }
  }

  lemma OwnStepKeepsSoloOk(s: State, e: Event)
    requires Inv(s) && Enabled(s, e) && !IsCloudMove(e) && !e.Begin? && SoloOk(s, e.c)
    ensures SoloOk(Next(s, e), e.c)
  {
    assert CallOk(s, e.c);
    var t := Next(s, e);
    if s.volume.attachments != [] {
      var a := s.volume.attachments[0];
      assert MadeByJob(s, a) && JobOk(s, a.id);
    }
    forall j: nat | j < |s.jobs| && s.jobs[j].DetachJob?
      ensures s.jobs[j].target < j && s.jobs[s.jobs[j].target].outcome == Succeeded
    {
      assert JobOk(s, j);
    }
    assert forall j: nat | j < |s.jobs| :: t.jobs[j] == s.jobs[j];
  }

  lemma BeginKeepsSoloOk(s: State, e: Event, c: CallId)
    requires Enabled(s, e) && e.Begin? && c in s.calls && SoloOk(s, c)
    ensures SoloOk(Next(s, e), c)
  {
  }

  lemma {:induction false} SoloRuns(r: Run, i: nat, c: CallId)
    requires r.Valid() && Solo(r) && i <= |r.events| && Live(r.states[i], c)
    ensures SoloOk(r.states[i], c)
  {
    if i == 0 {
    } else {
      var s, e := r.states[i - 1], r.events[i - 1];
      assert r.StepAt(i - 1);
      if !(e.Begin? && e.c == c) {
        assert Live(s, c);
        SoloRuns(r, i - 1, c);
        RunsAreSafe(r, i - 1);
        if IsCloudMove(e) {
          CloudKeepsSoloOk(s, e, c);
        } else if e.Begin? {
          BeginKeepsSoloOk(s, e, c);
        } else {
          assert s in r.states;
          OwnStepKeepsSoloOk(s, e);
        }
      }
    }
  }

  /** One call in flight: a publish that returns OK leaves the volume in use on its server, and the path it
      returns is the device there, never empty. */
  lemma SoloPublishHolds(r: Run, i: nat, c: CallId)
    requires r.Valid() && Solo(r) && i < |r.events| && Live(r.states[i], c)
    requires c in r.states[i + 1].calls && r.states[i + 1].calls[c].op == Publish
    requires r.states[i + 1].calls[c].pc.Returned? && r.states[i + 1].calls[c].pc.reply.Ok?
    ensures var v := r.states[i + 1].volume;
            && v.status == InUse
            && (exists a :: v.attachments == [a] && a.server == r.states[i + 1].calls[c].server
                            && a.device == r.states[i + 1].calls[c].pc.reply.devicePath && a.device != "")
  {
    var s := r.states[i];
    assert r.StepAt(i);
    SoloRuns(r, i, c);
    RunsAreSafe(r, i);
    assert CallOk(s, c);
    assert s.volume.attachments != [];
    var a := s.volume.attachments[0];
    assert s.volume.attachments == [a];
    assert AttachedTo(s.volume, s.calls[c].server) ==> a.server == s.calls[c].server;
  }

  // ---------- What an unpublish leaves behind ----------

  /** What the one unpublish call in flight may rely on. */
  ghost predicate SoloFree(s: State, c: CallId)
    requires c in s.calls
  {
    var call := s.calls[c];
    match call.pc
    case UnpublishServer(true) => !AttachedTo(s.volume, call.server)
    case UnpublishPoll(j, _) =>
      j < |s.jobs| && s.jobs[j].DetachJob? && Ended(s, j) ==> !AttachedTo(s.volume, call.server)
    case _ => true
  }

  lemma CloudKeepsSoloFree(s: State, e: Event, c: CallId)
    requires Inv(s) && Enabled(s, e) && IsCloudMove(e) && c in s.calls && SoloFree(s, c)
    ensures SoloFree(Next(s, e), c)
  {
    assert JobOk(s, e.job) && CallOk(s, c);
    if e.JobSucceeds? && s.jobs[e.job].DetachJob? { OnlyOneLeavesNone(s.volume, s.jobs[e.job].target); }
    if e.JobFails? && s.jobs[e.job].AttachJob? { OnlyOneLeavesNone(s.volume, e.job); }
  }

  lemma OwnStepKeepsSoloFree(s: State, e: Event)
    requires Inv(s) && Enabled(s, e) && !IsCloudMove(e) && !e.Begin? && SoloFree(s, e.c)
    ensures SoloFree(Next(s, e), e.c)
    ensures s.calls[e.c].op == Unpublish && Next(s, e).calls[e.c].pc.Returned? && Next(s, e).calls[e.c].pc.reply.Ok? ==>
              !AttachedTo(Next(s, e).volume, s.calls[e.c].server)
  {
    assert CallOk(s, e.c);
  }

  lemma {:induction false} SoloRunsFree(r: Run, i: nat, c: CallId)
    requires r.Valid() && Solo(r) && i <= |r.events| && Live(r.states[i], c)
    ensures SoloFree(r.states[i], c)
  {
    if i == 0 {
    } else {
      var s, e := r.states[i - 1], r.events[i - 1];
      assert r.StepAt(i - 1);
      if !(e.Begin? && e.c == c) {
        assert Live(s, c);
        SoloRunsFree(r, i - 1, c);
        RunsAreSafe(r, i - 1);
        if IsCloudMove(e) {
          CloudKeepsSoloFree(s, e, c);
        } else if !e.Begin? {
          assert s in r.states;
          OwnStepKeepsSoloFree(s, e);
        }
      }
    }
  }

  /** One call in flight: an unpublish that returns OK leaves the volume not attached to its server. */
  lemma SoloUnpublishFrees(r: Run, i: nat, c: CallId)
    requires r.Valid() && Solo(r) && i < |r.events| && Live(r.states[i], c)
    requires c in r.states[i + 1].calls && r.states[i + 1].calls[c].op == Unpublish
    requires r.states[i + 1].calls[c].pc.Returned? && r.states[i + 1].calls[c].pc.reply.Ok?
    ensures !AttachedTo(r.states[i + 1].volume, r.states[i + 1].calls[c].server)
  {
    assert r.StepAt(i);
    SoloRunsFree(r, i, c);
    RunsAreSafe(r, i);
    OwnStepKeepsSoloFree(r.states[i], r.events[i]);
  }

  // ---------- One attach however often the call is retried ----------

  /** The attach requests among the first n events. */
  function AttachRequests(r: Run, n: nat): nat
    requires r.Valid() && n <= |r.events|
  {
    if n == 0 then 0
    else
      AttachRequests(r, n - 1) +
      (if r.events[n - 1].Submit? && r.events[n - 1].c in r.states[n - 1].calls
          && r.states[n - 1].calls[r.events[n - 1].c].op == Publish then 1 else 0)
  }

  /** The volume is free and no call is in flight. Whatever happened to it before, jobs may still be running that
      nobody waits for any more. */
  ghost predicate AtRest(s: State) {
    s.volume.status == Available && forall c <- s.calls :: !Live(s, c)
  }

  /** Another attempt to publish to this server, or a move that is no failing job. */
  predicate Retries(e: Event, server: ServerId) {
    (e.Begin? ==> e.op == Publish && e.server == server) && !e.JobFails?
  }

  ghost predicate OnlyRetries(r: Run, i: nat, server: ServerId) {
    forall m | i <= m < |r.events| :: Retries(r.events[m], server)
  }

  /** Calls in flight publish to this server, and an attachment is theirs. */
  ghost predicate Retrying(s: State, server: ServerId) {
    && (forall c <- s.calls | Live(s, c) :: s.calls[c].op == Publish && s.calls[c].server == server)
    && (s.volume.attachments != [] ==> HeldFor(s, server))
  }

  lemma CloudKeepsRetrying(s: State, e: Event, server: ServerId)
    requires Inv(s) && Enabled(s, e) && Retrying(s, server) && IsCloudMove(e) && !e.JobFails?
    ensures Retrying(Next(s, e), server) && |Next(s, e).jobs| == |s.jobs|
    ensures s.volume.status == Available || s.volume.status == InUse ==> Next(s, e).volume == s.volume
    ensures s.volume.status != Available ==> Next(s, e).volume.status != Available
  {
    assert JobOk(s, e.job);
    CloudKeepsUntouched(s, e);
  }

  lemma CallKeepsRetrying(s: State, e: Event, server: ServerId)
    requires Inv(s) && Enabled(s, e) && Retrying(s, server) && !IsCloudMove(e) && Retries(e, server)
    requires e.Submit? ==> s.volume.status == Available
    ensures Retrying(Next(s, e), server)
    ensures !e.Submit? ==> Next(s, e).volume == s.volume && Next(s, e).jobs == s.jobs
    ensures e.Submit? ==> Next(s, e).volume.status == Attaching && |Next(s, e).jobs| == |s.jobs| + 1
  {
    if e.Submit? {
      assert CallOk(s, e.c);
      forall j: nat | j < |s.jobs| && s.jobs[j].DetachJob? ensures s.jobs[j].target < |s.jobs| {
        assert JobOk(s, j);
      }
    }
  }

  lemma RetryStep(r: Run, n: nat, server: ServerId)
    requires r.Valid() && Solo(r) && n < |r.events| && Retrying(r.states[n], server) && Retries(r.events[n], server)
    ensures Retrying(r.states[n + 1], server)
    ensures AttachRequests(r, n + 1) - AttachRequests(r, n) == |r.states[n + 1].jobs| - |r.states[n].jobs|
            == if r.states[n].volume.status == Available && r.states[n + 1].volume.status != Available then 1 else 0
    ensures r.states[n].volume.status != Available ==> r.states[n + 1].volume.status != Available
    ensures r.states[n].volume.status == InUse ==> r.states[n + 1].volume == r.states[n].volume
  {
    var s, e := r.states[n], r.events[n];
    assert r.StepAt(n);
    RunsAreSafe(r, n);
    if IsCloudMove(e) {
      CloudKeepsRetrying(s, e, server);
    } else {
      if e.Submit? {
        SoloRuns(r, n, e.c);
        assert CallOk(s, e.c);
      }
      CallKeepsRetrying(s, e, server);
    }
  }

  /** From any instant at which the volume is at rest, however many publish calls for one server time out and are
      retried: one attach request is sent in all, and it is sent exactly when the volume leaves available. */
  lemma {:induction false} AttachedOnce(r: Run, i: nat, n: nat, server: ServerId)
    requires r.Valid() && Solo(r) && i <= n <= |r.events| && AtRest(r.states[i]) && OnlyRetries(r, i, server)
    ensures AttachRequests(r, n) - AttachRequests(r, i) == |r.states[n].jobs| - |r.states[i].jobs|
            == if r.states[n].volume.status == Available then 0 else 1
    ensures Retrying(r.states[n], server)
  {
    if n == i {
      RunsAreSafe(r, i);
    } else {
      AttachedOnce(r, i, n - 1, server);
      RetryStep(r, n - 1, server);
    }
  }

  /** Once in use it stays as it is. */
  lemma {:induction false} StaysInUse(r: Run, i: nat, m: nat, n: nat, server: ServerId)
    requires r.Valid() && Solo(r) && i <= m <= n <= |r.events| && AtRest(r.states[i]) && OnlyRetries(r, i, server)
    requires r.states[m].volume.status == InUse
    ensures r.states[n].volume == r.states[m].volume
  {
    if n == m {
    } else {
      StaysInUse(r, i, m, n - 1, server);
      AttachedOnce(r, i, n - 1, server);
      RetryStep(r, n - 1, server);
    }
  }

  /** Once the job is done, a retry returns OK with the device at its first read. */
  lemma RetryReturnsOk(r: Run, i: nat, server: ServerId, c: CallId)
    requires r.Valid() && Solo(r) && i <= |r.events| && AtRest(r.states[i]) && OnlyRetries(r, i, server)
    requires r.Last().volume.status == InUse && c !in r.Last().calls
    ensures |r.Last().volume.attachments| == 1
    ensures var s := Next(r.Last(), Begin(c, Publish, server));
            && Enabled(s, Read(c))
            && var t := Next(s, Read(c));
               && t.calls[c].pc == Returned(Ok(r.Last().volume.attachments[0].device))
               && r.Last().volume.attachments[0].device != ""
  {
    AttachedOnce(r, i, |r.events|, server);
    RunsAreSafe(r, |r.events|);
    var s := r.Last();
    assert s.volume.attachments == [s.volume.attachments[0]];
    assert AttachedTo(s.volume, server);
  }

  /** Every retry that returned OK returned that device, and the volume is in use with it. */
  lemma RetriesReturnDevice(r: Run, i: nat, server: ServerId, c: CallId)
    requires r.Valid() && Solo(r) && i <= |r.events| && AtRest(r.states[i]) && OnlyRetries(r, i, server)
    requires c !in r.states[i].calls && c in r.Last().calls && r.Last().calls[c].op == Publish
    requires r.Last().calls[c].pc.Returned? && r.Last().calls[c].pc.reply.Ok?
    ensures var v := r.Last().volume;
            && v.status == InUse && |v.attachments| == 1 && v.attachments[0].server == r.Last().calls[c].server
            && r.Last().calls[c].pc.reply == Ok(v.attachments[0].device) && v.attachments[0].device != ""
  {
    var k := PublishReturnsLastRead(r, |r.events|, c);
    assert r.StepAt(k);
    if k < i { CallsStay(r, k + 1, i, c); }
    SoloPublishHolds(r, k, c);
    StaysInUse(r, i, k + 1, |r.events|, server);
  }

  // ---------- With overlapping calls a publish may return OK for a server that does not hold the volume ----------

  const FREE := Volume(Available, [])

  lemma OverlapUpToWaiting() returns (r: Run)
    ensures r.Valid()
    ensures r.Last() == State(Volume(Attaching, [Attachment(0, "a", "")]), [AttachJob("a", 1, Running)],
                              map[1 := Call(Publish, "a", PublishPoll(0, 0)), 2 := Call(Publish, "a", PublishWait(0))])
  {
    r := Run([State(FREE, [], map[])], []);
    r := r.Then(Begin(1, Publish, "a")).Then(Read(1)).Then(Submit(1, true));
    assert r.Last() == State(Volume(Attaching, [Attachment(0, "a", "")]), [AttachJob("a", 1, Running)],
                             map[1 := Call(Publish, "a", PublishPoll(0, 0))]);
    r := r.Then(Begin(2, Publish, "a")).Then(Read(2));
  }

  lemma OverlapUpToHandOver() returns (r: Run)
    ensures r.Valid()
    ensures r.Last() == State(Volume(Attaching, [Attachment(1, "b", "")]),
                              [AttachJob("a", 1, Failed), AttachJob("b", 3, Running)],
                              map[1 := Call(Publish, "a", PublishPoll(0, 0)), 2 := Call(Publish, "a", PublishWait(0)),
                                  3 := Call(Publish, "b", PublishPoll(1, 0))])
  {
    r := OverlapUpToWaiting();
    OnlyOneLeavesNone(r.Last().volume, 0);
    r := r.Then(JobFails(0));
    assert r.Last() == State(FREE, [AttachJob("a", 1, Failed)],
                             map[1 := Call(Publish, "a", PublishPoll(0, 0)), 2 := Call(Publish, "a", PublishWait(0))]);
    r := r.Then(Begin(3, Publish, "b")).Then(Read(3)).Then(Submit(3, true));
  }

  /** Call 1 attaches to "a" and its job fails while call 2, a retry for "a", is waiting; call 3 attaches to "b".
      Call 2 sees "in-use" and returns OK with an empty path, the volume being on "b". */
  lemma OverlapReturnsEmptyPath() returns (r: Run)
    ensures r.Valid()
    ensures 2 in r.Last().calls && r.Last().calls[2] == Call(Publish, "a", Returned(Ok("")))
    ensures r.Last().volume == Volume(InUse, [Attachment(1, "b", "/dev/vdb")])
  {
    r := OverlapUpToHandOver();
    r := r.Then(JobSucceeds(1, "/dev/vdb"));
    assert r.Last().volume == Volume(InUse, [Attachment(1, "b", "/dev/vdb")]);
    r := r.Then(Read(2));
    assert DevicePathIn(r.Last().volume.attachments[1..], "a") == "";
    r := r.Then(Read(2));
  }
}
