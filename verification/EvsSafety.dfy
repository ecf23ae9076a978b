/** What every step of the attach/detach protocol keeps, and safety over every run with any number of
    interleaved calls. */
module EvsSafety {
  import opened EvsProtocol

  // ---------- The invariant ----------

  /** Available exactly when nothing is attached, never more than one attachment, and a device exactly from the
      success of the attach job on. */
  ghost predicate Consistent(v: Volume) {
    && |v.attachments| <= 1
    && (v.status == Available <==> v.attachments == [])
    && (v.status != Available ==> (v.attachments[0].device == "" <==> v.status == Attaching))
  }

  ghost predicate MadeByJob(s: State, a: Attachment) {
    a.id < |s.jobs| && s.jobs[a.id].AttachJob? && s.jobs[a.id].server == a.server
  }

  /** Every job was asked for by a call for the same server. A running attach job is the one the volume is
      attaching for; a detach job aims at an attachment whose attach job had succeeded. */
  ghost predicate JobOk(s: State, j: nat)
    requires j < |s.jobs|
  {
    var job := s.jobs[j];
    && job.caller in s.calls
    && s.calls[job.caller].server == job.server
    && if job.AttachJob? then
         && s.calls[job.caller].op == Publish
         && job.outcome != FailedNotAttached
         && (job.outcome == Running <==> s.volume.status == Attaching && Holds(s.volume, j))
         && (Holds(s.volume, j) ==> job.outcome == Running || job.outcome == Succeeded)
       else
         && s.calls[job.caller].op == Unpublish
         && job.target < j
         && s.jobs[job.target] == AttachJob(job.server, s.jobs[job.target].caller, Succeeded)
  }

  ghost predicate CallOk(s: State, c: CallId)
    requires c in s.calls
  {
    var call := s.calls[c];
    match call.pc
    case PublishRead => call.op == Publish
    case PublishSubmit => call.op == Publish
    case PublishReread => call.op == Publish
    case PublishWait(n) => call.op == Publish && n < STEPS
    case PublishPoll(j, n) =>
      call.op == Publish && n < STEPS && j < |s.jobs| && s.jobs[j].AttachJob? && s.jobs[j].caller == c
    case UnpublishRead => call.op == Unpublish
    case UnpublishServer(_) => call.op == Unpublish
    case UnpublishSubmit => call.op == Unpublish
    case UnpublishPoll(j, n) =>
      call.op == Unpublish && n < STEPS && j < |s.jobs| && s.jobs[j].DetachJob? && s.jobs[j].caller == c
    case Returned(_) => true
  }

  ghost predicate Inv(s: State) {
    && Consistent(s.volume)
    && (forall a <- s.volume.attachments :: MadeByJob(s, a))
    && (forall j: nat | j < |s.jobs| :: JobOk(s, j))
    && (forall c <- s.calls :: CallOk(s, c))
  }

  // ---------- Every step keeps it ----------

  lemma GotoKeepsInv(s: State, c: CallId, pc: Pc)
    requires Inv(s) && c in s.calls
    requires CallOk(Goto(s, c, pc), c)
    ensures Inv(Goto(s, c, pc))
  {
    var t := Goto(s, c, pc);
    forall j: nat | j < |t.jobs| ensures JobOk(t, j) {
      assert JobOk(s, j);
    }
    forall d <- t.calls ensures CallOk(t, d) {
      if d != c { assert CallOk(s, d); }
    }
    forall a <- t.volume.attachments ensures MadeByJob(t, a) {
      assert MadeByJob(s, a);
    }
  }

  lemma BeginKeepsInv(s: State, e: Event)
    requires Inv(s) && e.Begin? && Enabled(s, e)
    ensures Inv(Next(s, e))
  {
    var t := Next(s, e);
    forall j: nat | j < |t.jobs| ensures JobOk(t, j) {
      assert JobOk(s, j);
    }
    forall d <- t.calls ensures CallOk(t, d) {
      if d != e.c { assert CallOk(s, d); }
    }
    forall a <- t.volume.attachments ensures MadeByJob(t, a) {
      assert MadeByJob(s, a);
    }
  }

  lemma SubmitKeepsInv(s: State, e: Event)
    requires Inv(s) && e.Submit? && Enabled(s, e)
    ensures Inv(Next(s, e))
  {
    var t := Next(s, e);
    assert CallOk(s, e.c);
    if |t.jobs| == |s.jobs| {
      GotoKeepsInv(s, e.c, t.calls[e.c].pc);
    } else {
      forall j: nat | j < |t.jobs| ensures JobOk(t, j) {
        if j < |s.jobs| {
          assert JobOk(s, j);
          assert t.jobs[j] == s.jobs[j];
          if t.jobs[j].DetachJob? { assert t.jobs[t.jobs[j].target] == s.jobs[t.jobs[j].target]; }
        } else {
          SubmittedJobOk(s, e);
        }
      }
      forall d <- t.calls ensures CallOk(t, d) {
        if d != e.c { assert CallOk(s, d); }
      }
      forall a <- t.volume.attachments ensures MadeByJob(t, a) {
        if a in s.volume.attachments { assert MadeByJob(s, a); }
      }
    }
  }

  lemma SubmittedJobOk(s: State, e: Event)
    requires Inv(s) && e.Submit? && Enabled(s, e)
    requires |Next(s, e).jobs| == |s.jobs| + 1
    ensures JobOk(Next(s, e), |s.jobs|)
  {
    var t := Next(s, e);
    assert CallOk(s, e.c);
    if t.jobs[|s.jobs|].DetachJob? {
      var a := s.volume.attachments[0];
      assert MadeByJob(s, a) && JobOk(s, a.id);
      assert Holds(s.volume, a.id);
    } else {
      assert t.volume.attachments[0].id == |s.jobs|;
    }
  }

  lemma OnlyOneLeavesNone(v: Volume, id: nat)
    requires Consistent(v) && Holds(v, id)
    ensures Without(v.attachments, id) == []
  {
    assert v.attachments[0].id == id;
    assert Without(v.attachments[1..], id) == [];
  }

  lemma JobEndKeepsInv(s: State, e: Event)
    requires Inv(s) && IsCloudMove(e) && Enabled(s, e)
    ensures Inv(Next(s, e))
  {
    var t := Next(s, e);
    assert JobOk(s, e.job);
    if s.jobs[e.job].AttachJob? {
      OnlyOneLeavesNone(s.volume, e.job);
    } else if e.JobSucceeds? {
      OnlyOneLeavesNone(s.volume, s.jobs[e.job].target);
    }
    forall j: nat | j < |t.jobs| ensures JobOk(t, j) {
      assert JobOk(s, j);
    }
    forall d <- t.calls ensures CallOk(t, d) {
      assert CallOk(s, d);
    }
    forall a <- t.volume.attachments ensures MadeByJob(t, a) {
      assert exists b <- s.volume.attachments :: b.id == a.id && b.server == a.server && MadeByJob(s, b);
    }
  }

  lemma StepKeepsInv(s: State, e: Event)
    requires Inv(s) && Enabled(s, e)
    ensures Inv(Next(s, e))
  {
    if IsCloudMove(e) {
      JobEndKeepsInv(s, e);
    } else if e.Begin? {
      BeginKeepsInv(s, e);
    } else if e.Submit? {
      SubmitKeepsInv(s, e);
    } else {
      assert CallOk(s, e.c);
      GotoKeepsInv(s, e.c, Next(s, e).calls[e.c].pc);
    }
  }

  /** In every run, at every instant, status and attachments agree and at most one server holds the volume. */
  lemma {:induction false} RunsAreSafe(r: Run, i: nat)
    requires r.Valid() && i <= |r.events|
    ensures Inv(r.states[i])
  {
    if i == 0 {
    } else {
      RunsAreSafe(r, i - 1);
      assert r.StepAt(i - 1);
      StepKeepsInv(r.states[i - 1], r.events[i - 1]);
    }
  }

}
