/** Properties of whole runs of the attach/detach protocol, under any interleaving of any number of calls. */
module EvsHistory {
  import opened EvsProtocol
  import opened EvsSafety

  predicate ActsFor(e: Event, c: CallId) {
    !IsCloudMove(e) && e.c == c
  }

  /** Event k is the last one of call c before instant i. */
  ghost predicate LastAct(r: Run, i: nat, k: nat, c: CallId)
    requires i <= |r.events|
  {
    && k < i
    && ActsFor(r.events[k], c)
    && forall m | k < m < i :: !ActsFor(r.events[m], c)
  }

  /** Whatever state a call is in, its own last request put it there. */
  lemma {:induction false} Provenance(r: Run, i: nat, c: CallId) returns (k: nat)
    requires r.Valid() && i <= |r.events| && c in r.states[i].calls
    ensures LastAct(r, i, k, c)
    ensures c in r.states[k + 1].calls && r.states[k + 1].calls[c] == r.states[i].calls[c]
  {
    assert i > 0 && r.StepAt(i - 1);
    if ActsFor(r.events[i - 1], c) {
      k := i - 1;
    } else {
      k := Provenance(r, i - 1, c);
    }
  }

  lemma {:induction false} CallsStay(r: Run, i: nat, j: nat, c: CallId)
    requires r.Valid() && i <= j <= |r.events| && c in r.states[i].calls
    ensures c in r.states[j].calls
  {
    if i == j {
    } else {
      assert r.StepAt(j - 1);
      CallsStay(r, i, j - 1, c);
    }
  }

  // ---------- What a call submits and returns rests on its own last read ----------

  /** Every attach request follows that call's own read of an available volume, with no request of it between. */
  lemma AttachFollowsOwnRead(r: Run, i: nat) returns (k: nat)
    requires r.Valid() && i < |r.events|
    requires r.events[i].Submit? && r.events[i].c in r.states[i].calls && r.states[i].calls[r.events[i].c].op == Publish
    ensures LastAct(r, i, k, r.events[i].c)
    ensures r.events[k] == Read(r.events[i].c) && r.states[k].volume.status == Available
  {
    var c := r.events[i].c;
    assert r.StepAt(i);
    RunsAreSafe(r, i);
    assert CallOk(r.states[i], c);
    k := Provenance(r, i, c);
    assert r.StepAt(k);
  }

  /** A successful publish returns what its last read showed: a path if and only if that read showed the volume
      attached to this server by a finished job; and the path is then that attachment's device. */
  lemma PublishReturnsLastRead(r: Run, i: nat, c: CallId) returns (k: nat)
    requires r.Valid() && i <= |r.events| && c in r.states[i].calls
    requires r.states[i].calls[c].op == Publish && r.states[i].calls[c].pc.Returned?
    requires r.states[i].calls[c].pc.reply.Ok?
    ensures LastAct(r, i, k, c) && r.events[k] == Read(c)
    ensures Live(r.states[k], c) && c in r.states[k + 1].calls && r.states[k + 1].calls[c] == r.states[i].calls[c]
    ensures var call, v := r.states[i].calls[c], r.states[k].volume;
            var path := call.pc.reply.devicePath;
            && (path != "" <==> AttachedTo(v, call.server) && (v.status == InUse || v.status == Detaching))
            && (path != "" ==> exists a <- v.attachments :: a.server == call.server && a.device == path)
  {
    k := Provenance(r, i, c);
    assert r.StepAt(k);
    RunsAreSafe(r, k);
    var s := r.states[k];
    if c in s.calls { assert CallOk(s, c); }
    if s.volume.attachments != [] {
      assert DevicePathIn(s.volume.attachments[1..], r.states[i].calls[c].server) == "";
    }
  }

  // ---------- At most one server, and whose request takes an attachment away ----------

  /** A server loses the volume only through a job that a call for that very server asked for: its own attach
      job failing or a detach job of its own succeeding. */
  lemma OnlyOwnJobsTakeAway(s: State, e: Event, server: ServerId)
    requires Inv(s) && Enabled(s, e)
    requires AttachedTo(s.volume, server) && !AttachedTo(Next(s, e).volume, server)
    ensures IsCloudMove(e) && s.jobs[e.job].server == server
    ensures if s.jobs[e.job].AttachJob? then e.JobFails? else e.JobSucceeds?
    ensures s.jobs[e.job].caller in s.calls
    ensures var asker := s.calls[s.jobs[e.job].caller];
            asker.server == server && asker.op == (if e.JobFails? then Publish else Unpublish)
    ensures Next(s, e).volume == Volume(Available, [])
  {
    var a := s.volume.attachments[0];
    assert MadeByJob(s, a);
    assert IsCloudMove(e);
    assert JobOk(s, e.job);
    var id := if s.jobs[e.job].AttachJob? then e.job else s.jobs[e.job].target;
    OnlyOneLeavesNone(s.volume, id);
  }

  lemma {:induction false} HoldUntilFree(r: Run, i: nat, j: nat, server: ServerId)
    requires r.Valid() && i <= j <= |r.events|
    requires AttachedTo(r.states[i].volume, server) && !AttachedTo(r.states[j].volume, server)
    ensures exists k :: i < k <= j && r.states[k].volume == Volume(Available, [])
  {
    if AttachedTo(r.states[j - 1].volume, server) {
      assert r.StepAt(j - 1);
      RunsAreSafe(r, j - 1);
      OnlyOwnJobsTakeAway(r.states[j - 1], r.events[j - 1], server);
    } else {
      HoldUntilFree(r, i, j - 1, server);
    }
  }

  /** Two publish calls that returned device paths for different servers read the volume at instants between
      which it was free: the volume is never handed over without having been given back. */
  lemma NoHandOver(r: Run, n: nat, c: CallId, d: CallId) returns (i: nat, j: nat)
    requires r.Valid() && n <= |r.events| && c in r.states[n].calls && d in r.states[n].calls
    requires PublishedWithPath(r.states[n].calls[c]) && PublishedWithPath(r.states[n].calls[d])
    requires r.states[n].calls[c].server != r.states[n].calls[d].server
    ensures LastAct(r, n, i, c) && r.events[i] == Read(c) && AttachedTo(r.states[i].volume, r.states[n].calls[c].server)
    ensures LastAct(r, n, j, d) && r.events[j] == Read(d) && AttachedTo(r.states[j].volume, r.states[n].calls[d].server)
    ensures exists k :: (i < k < j || j < k < i) && r.states[k].volume == Volume(Available, [])
  {
    i := PublishReturnsLastRead(r, n, c);
    j := PublishReturnsLastRead(r, n, d);
    RunsAreSafe(r, i);
    RunsAreSafe(r, j);
    if i < j {
      HoldUntilFree(r, i, j, r.states[n].calls[c].server);
    } else {
      HoldUntilFree(r, j, i, r.states[n].calls[d].server);
    }
  }

  predicate PublishedWithPath(call: Call) {
    call.op == Publish && call.pc.Returned? && call.pc.reply.Ok? && call.pc.reply.devicePath != ""
  }

  // ---------- Unpublish takes effect at an instant of its own ----------

  /** At some instant up to i the call was in flight and the volume was not attached to the server. */
  ghost predicate SeenFree(r: Run, i: nat, c: CallId, server: ServerId)
    requires i < |r.states|
  {
    exists k :: 0 <= k <= i && Live(r.states[k], c) && !AttachedTo(r.states[k].volume, server)
  }

  /** A detach job that reports the server as detached, or whose attachment is gone. */
  predicate Ended(s: State, j: nat)
    requires j < |s.jobs| && s.jobs[j].DetachJob?
  {
    || s.jobs[j].outcome == Succeeded
    || s.jobs[j].outcome == FailedNotAttached
    || !Holds(s.volume, s.jobs[j].target)
  }

  /** What an unpublish call has gathered by instant i is backed by such an instant. */
  ghost predicate Backed(r: Run, i: nat, c: CallId)
    requires i < |r.states| && c in r.states[i].calls
  {
    var s := r.states[i];
    var call := s.calls[c];
    call.op == Unpublish ==>
      match call.pc
      case UnpublishServer(true) => SeenFree(r, i, c, call.server)
      case UnpublishPoll(j, _) =>
        j < |s.jobs| && s.jobs[j].DetachJob? && Ended(s, j) ==> SeenFree(r, i, c, call.server)
      case Returned(Ok(_)) => SeenFree(r, i, c, call.server)
      case _ => true
  }

  lemma SeenFreeLater(r: Run, i: nat, j: nat, c: CallId, server: ServerId)
    requires i <= j < |r.states| && SeenFree(r, i, c, server)
    ensures SeenFree(r, j, c, server)
  {
    var k :| 0 <= k <= i && Live(r.states[k], c) && !AttachedTo(r.states[k].volume, server);
  }

  lemma SeenFreeNow(r: Run, i: nat, j: nat, c: CallId, server: ServerId)
    requires i <= j < |r.states| && Live(r.states[i], c) && !AttachedTo(r.states[i].volume, server)
    ensures SeenFree(r, j, c, server)
  {
  }

  lemma FreeBacks(r: Run, i: nat, c: CallId)
    requires i < |r.states| && c in r.states[i].calls && SeenFree(r, i, c, r.states[i].calls[c].server)
    ensures Backed(r, i, c)
  {
  }

  lemma SameCall(s: State, e: Event, c: CallId)
    requires Enabled(s, e) && c in s.calls
    ensures c in Next(s, e).calls
    ensures Next(s, e).calls[c].server == s.calls[c].server && Next(s, e).calls[c].op == s.calls[c].op
    ensures !ActsFor(e, c) ==> Next(s, e).calls[c] == s.calls[c]
  {
  }

  /** While the volume stays attached, the attachment that a detach job aims at stays too. */
  lemma StillHeld(s: State, e: Event, j: nat)
    requires Inv(s) && Enabled(s, e) && j < |s.jobs| && s.jobs[j].DetachJob? && !Ended(s, j)
    requires Next(s, e).volume.attachments != []
    ensures j < |Next(s, e).jobs| && Next(s, e).jobs[j].DetachJob? && !Ended(Next(s, e), j)
  {
    var t, target := Next(s, e), s.jobs[j].target;
    assert s.volume.attachments[0].id == target;
    if IsCloudMove(e) { assert JobOk(s, e.job); }
    assert t.volume.attachments[0].id == target;
  }

  lemma StaysBacked(r: Run, i: nat, c: CallId)
    requires r.Valid() && i < |r.events| && c in r.states[i].calls
    requires Backed(r, i, c)
    ensures c in r.states[i + 1].calls && Backed(r, i + 1, c)
  {
    var s, t, e := r.states[i], r.states[i + 1], r.events[i];
    var server := s.calls[c].server;
    assert r.StepAt(i);
    SameCall(s, e, c);
    if SeenFree(r, i, c, server) {
      SeenFreeLater(r, i, i + 1, c, server);
      FreeBacks(r, i + 1, c);
    } else if Live(t, c) && !AttachedTo(t.volume, server) {
      SeenFreeNow(r, i + 1, i + 1, c, server);
      FreeBacks(r, i + 1, c);
    } else if ActsFor(e, c) {
      OwnStepBacked(r, i, c);
    } else if t.calls[c].op == Unpublish && t.calls[c].pc.UnpublishPoll? {
      OthersStepBacked(r, i, c);
    }
  }

  lemma OwnStepBacked(r: Run, i: nat, c: CallId)
    requires r.Valid() && i < |r.events| && c in r.states[i].calls && c in r.states[i + 1].calls
    requires Backed(r, i, c) && ActsFor(r.events[i], c) && r.StepAt(i)
    requires !SeenFree(r, i, c, r.states[i].calls[c].server)
    ensures Backed(r, i + 1, c)
  {
    var s := r.states[i];
    RunsAreSafe(r, i);
    assert CallOk(s, c);
    assert AttachedTo(s.volume, s.calls[c].server);
  }

  lemma OthersStepBacked(r: Run, i: nat, c: CallId)
    requires r.Valid() && i < |r.events| && c in r.states[i].calls && c in r.states[i + 1].calls
    requires Backed(r, i, c) && r.StepAt(i) && r.states[i + 1].calls[c] == r.states[i].calls[c]
    requires r.states[i].calls[c].op == Unpublish && r.states[i].calls[c].pc.UnpublishPoll?
    requires AttachedTo(r.states[i + 1].volume, r.states[i].calls[c].server)
    requires !SeenFree(r, i, c, r.states[i].calls[c].server)
    ensures Backed(r, i + 1, c)
  {
    RunsAreSafe(r, i);
    assert CallOk(r.states[i], c);
    StillHeld(r.states[i], r.events[i], r.states[i].calls[c].pc.job);
  }

  lemma {:induction false} AlwaysBacked(r: Run, i: nat, c: CallId)
    requires r.Valid() && i <= |r.events| && c in r.states[i].calls
    ensures Backed(r, i, c)
  {
    assert i > 0 && r.StepAt(i - 1);
    if c !in r.states[i - 1].calls {
      // The call has just begun.
    } else {
      AlwaysBacked(r, i - 1, c);
      StaysBacked(r, i - 1, c);
    }
  }

  /** Every successful unpublish has an instant between its start and its return at which the volume was not
      attached to its server, whatever other calls did meanwhile. */
  lemma UnpublishTakesEffect(r: Run, i: nat, c: CallId)
    requires r.Valid() && i <= |r.events| && c in r.states[i].calls
    requires r.states[i].calls[c].op == Unpublish && r.states[i].calls[c].pc.Returned?
    requires r.states[i].calls[c].pc.reply.Ok?
    ensures exists k :: 0 <= k <= i && Live(r.states[k], c)
                        && !AttachedTo(r.states[k].volume, r.states[i].calls[c].server)
  {
    AlwaysBacked(r, i, c);
  }
}
