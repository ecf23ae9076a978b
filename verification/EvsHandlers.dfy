/** The controller's publish and unpublish handlers as they are written: reads, submissions and polling loops,
    with the rest of the world moving between any two requests. A script says what happens: moves of others, and
    how each request of the call itself fares. Every execution is a run of the protocol, and every run of the
    protocol in which the call returns is an execution: the handler returns what the run says. */
module EvsHandlers {
  import opened EvsProtocol
  import opened EvsSafety
  import opened EvsHistory
  import opened EvsSolo
  import opened EvsMoves
  import opened EvsPaths
  import opened Sequences
  import opened Wrappers

  /** What a publish call comes to when nothing else happens, jobs ending included: an available volume is left
      attaching to this server, by one new job, and the call times out; it succeeds exactly if the volume was
      attached to this server before. */
  ghost predicate Answered(before: State, after: State, c: CallId, instanceID: ServerId, reply: Reply) {
    var v, id := before.volume, |before.jobs|;
    && reply == (if v.status == InUse && AttachedTo(v, instanceID) then Ok(DevicePath(v, instanceID)) else Error)
    && after.volume == (if v.status == Available then Volume(Attaching, [Attachment(id, instanceID, "")]) else v)
    && after.jobs == (if v.status == Available then before.jobs + [AttachJob(instanceID, c, Running)] else before.jobs)
    && after.calls.Keys == before.calls.Keys + {c}
  }

  /** What an unpublish call comes to when nothing else happens: it succeeds exactly if the volume was not attached
      to this server, and then changes nothing; otherwise it leaves one new job to detach it, unless the volume is
      still attaching, and times out. */
  ghost predicate Dismissed(before: State, after: State, c: CallId, instanceID: ServerId, reply: Reply) {
    var v := before.volume;
    && reply == (if AttachedTo(v, instanceID) then Error else Ok(""))
    && DetachAsked(before, after, c, instanceID)
    && after.calls.Keys == before.calls.Keys + {c}
  }

  /** If these moves are possible from here and call c returns in the course of them, this is its reply. */
  ghost predicate ReturnsAsIn(c: CallId, s: State, moves: seq<Event>, reply: Reply) {
    Legal(s, moves) && ReplyOf(After(s, moves), c).Some? ==> ReplyOf(After(s, moves), c) == Some(reply)
  }

  lemma Shift(past: seq<Event>, moves: seq<Event>, now: seq<Event>, rest: seq<Event>)
    requires past + moves <= now + rest && past <= now
    ensures moves <= now[|past|..] + rest
  {
    assert moves == (past + moves)[|past|..];
    assert (now + rest)[|past|..] == now[|past|..] + rest;
  }

  /** At some check of call c since the run had so many events, the job stood like this. */
  ghost predicate SeenAt(r: Run, since: nat, c: CallId, job: nat, outcome: Outcome)
    requires r.Valid()
  {
    exists k :: since <= k < |r.events| && r.events[k] == Poll(c)
                && job < |r.states[k].jobs| && r.states[k].jobs[job].outcome == outcome
  }

  /** At some read of call c since the run had so many events, the volume was this. */
  ghost predicate ReadAt(r: Run, since: nat, c: CallId, v: Volume)
    requires r.Valid()
  {
    exists k :: since <= k < |r.events| && r.events[k] == Read(c) && r.states[k].volume == v
  }

  predicate Harmless(e: Event) {
    !e.Begin? && !e.JobFails?
  }

  /** A run goes on with the beginning of a call, and then only with harmless moves. */
  ghost predicate AddedCalmly(before: Run, after: Run, begin: Event) {
    && |before.events| < |after.events| && after.events[|before.events|] == begin
    && forall k | |before.events| < k < |after.events| :: Harmless(after.events[k])
  }

  /** Then no other call comes to be in flight. */
  lemma {:induction false} CalmCall(before: Run, after: Run, begin: Event, m: nat)
    requires before.Valid() && after.Valid() && after.Extends(before) && begin.Begin?
    requires AddedCalmly(before, after, begin) && (forall c <- before.Last().calls :: !Live(before.Last(), c))
    requires |before.events| < m <= |after.events|
    ensures after.states[m].calls.Keys == before.Last().calls.Keys + {begin.c}
    ensures forall c <- before.Last().calls :: after.states[m].calls[c] == before.Last().calls[c]
  {
    assert after.StepAt(m - 1) && after.states[|before.events|] == before.Last();
    if m - 1 == |before.events| {
    } else {
      CalmCall(before, after, begin, m - 1);
    }
  }

  lemma CalmCallIsSolo(before: Run, after: Run, begin: Event)
    requires before.Valid() && after.Valid() && after.Extends(before) && begin.Begin? && Solo(before)
    requires AddedCalmly(before, after, begin) && (forall c <- before.Last().calls :: !Live(before.Last(), c))
    ensures Solo(after)
  {
    forall s <- after.states, c <- s.calls, d <- s.calls | Live(s, c) && Live(s, d) ensures c == d {
      var m :| 0 <= m < |after.states| && after.states[m] == s;
      if m <= |before.events| {
        assert after.states[m] == before.states[m] && before.states[m] in before.states;
      } else {
        CalmCall(before, after, begin, m);
      }
    }
  }

  lemma RetriesGoOn(before: Run, after: Run, begin: Event, i: nat, server: ServerId)
    requires before.Valid() && after.Valid() && after.Extends(before) && begin.Begin?
    requires AddedCalmly(before, after, begin) && begin.op == Publish && begin.server == server
    requires i <= |before.events| && OnlyRetries(before, i, server)
    ensures OnlyRetries(after, i, server)
  {
    forall m | i <= m < |after.events| ensures Retries(after.events[m], server) {
      if m < |before.events| { assert after.events[m] == before.events[m]; }
    }
  }

  class EvsCloud {
    var state: State
    var script: seq<Event>
    ghost var run: Run
    // The events of a run that the handler is to follow.
    ghost var goal: seq<Event>
    // How many events the run had when the call had begun.
    ghost var since: nat

    ghost predicate Valid()
      reads this
    {
      run.Valid() && run.Last() == state
    }

    /** The handler is on its way along the goal, or has gone past its end; all that is scripted can happen. */
    ghost predicate Following()
      reads this
    {
      goal <= run.events + script && Legal(state, script)
    }

    /** Since the call began nobody else began one and no job failed, nor will they. */
    ghost predicate Calm()
      reads this
    {
      && (forall k | since <= k < |run.events| :: Harmless(run.events[k]))
      && (forall e <- script :: Harmless(e))
    }

    twostate predicate StillFollowing()
      reads this
    {
      && goal == old(goal) && (old(Following()) ==> Following())
      && since == old(since) && (old(Calm()) ==> Calm())
    }

    /** Nothing more is to happen between requests, and nothing changed but the calls. */
    twostate predicate Undisturbed()
      reads this
    {
      && script == [] && state.volume == old(state.volume) && state.jobs == old(state.jobs)
      && state.calls.Keys == old(state.calls.Keys)
    }

    constructor (script: seq<Event>)
      ensures Valid() && state.calls == map[] && this.script == script
    {
      state := State(Volume(Available, []), [], map[]);
      this.script := script;
      run := Run([State(Volume(Available, []), [], map[])], []);
      goal := [];
      since := 0;
    }

    method Take(e: Event)
      requires Valid() && Enabled(state, e)
      modifies this`state, this`run
      ensures Valid() && state == Next(old(state), e)
      ensures run == old(run).Then(e) && run.Extends(old(run)) && run.events == old(run).events + [e]
    {
      run := run.Then(e);
      state := Next(state, e);
    }

    /** Lets the others move up to what is scripted for call c; what cannot happen is passed over. */
    method Wait(c: CallId)
      requires Valid() && Live(state, c)
      modifies this
      ensures Valid() && run.Extends(old(run)) && StillFollowing()
      ensures c in state.calls && state.calls[c] == old(state.calls[c])
      ensures script == [] || ActsFor(script[0], c)
      ensures old(script) == [] ==> state == old(state) && script == []
    {
      while script != [] && !ActsFor(script[0], c)
        invariant Valid() && run.Extends(old(run)) && StillFollowing()
        invariant c in state.calls && state.calls[c] == old(state.calls[c])
        invariant old(script) == [] ==> state == old(state) && script == []
        decreases |script|
      {
        var next, rest := script[0], script[1..];
        assert script == [next] + rest && run.events + script == run.events + [next] + rest;
        assert next in script && forall e <- rest :: e in script;
        script := rest;
        if Enabled(state, next) {
          Take(next);
        }
      }
    }

    /** The next request of call c: what is scripted for it if that is possible, and what it wants otherwise. */
    method Request(c: CallId, wanted: Event) returns (fate: Event)
      requires Valid() && Live(state, c) && ActsFor(wanted, c) && Enabled(state, wanted)
      modifies this
      ensures Valid() && run.Extends(old(run)) && goal == old(goal) && since == old(since)
      ensures old(Calm()) && Harmless(wanted) ==> Calm() && Harmless(fate)
      ensures c in state.calls && state.calls[c] == old(state.calls[c])
      ensures ActsFor(fate, c) && Enabled(state, fate)
      ensures old(Following()) ==> goal <= run.events + [fate] + script && Legal(Next(state, fate), script)
      ensures old(script) == [] ==> fate == wanted && state == old(state) && script == []
    {
      Wait(c);
      RunsAreSafe(run, |run.events|);
      assert CallOk(state, c);
      fate := wanted;
      if script != [] {
        var next, rest := script[0], script[1..];
        assert script == [next] + rest && run.events + script == run.events + [next] + rest;
        assert next in script && forall e <- rest :: e in script;
        script := rest;
        if Enabled(state, next) { fate := next; }
      }
    }

    method GetVolume(c: CallId) returns (v: Option<Volume>)
      requires Valid() && Live(state, c) && Reads(state.calls[c].pc)
      modifies this
      ensures Valid() && run.Extends(old(run)) && StillFollowing() && c in state.calls
      ensures state.calls[c] ==
              old(state.calls[c]).(pc := if v.None? then Returned(Error) else AfterRead(old(state.calls[c]), v.value))
      ensures v.Some? ==> ReadAt(run, old(|run.events|), c, v.value)
      ensures old(script) == [] ==> Undisturbed() && v == Some(state.volume)
    {
      var fate := Request(c, Read(c));
      v := if fate == Fault(c) then None else Some(state.volume);
      ghost var k := |run.events|;
      Take(fate);
      assert v.Some? ==> run.events[k] == Read(c);
    }

    /** Looks the server up. Only to unpublish does it matter when; to publish, a failure alone is a move. */
    method GetServer(c: CallId) returns (found: bool)
      requires Valid() && Live(state, c) && (state.calls[c].pc == PublishRead || state.calls[c].pc.UnpublishServer?)
      modifies this
      ensures Valid() && run.Extends(old(run)) && StillFollowing() && c in state.calls
      ensures state.calls[c] ==
              old(state.calls[c]).(pc := if !found then Returned(Error)
                                         else if old(state.calls[c]).pc == PublishRead then PublishRead
                                         else if old(state.calls[c]).pc.skip then Returned(Ok(""))
                                         else UnpublishSubmit)
      ensures old(script) == [] ==> Undisturbed() && found
    {
      if state.calls[c].pc.UnpublishServer? {
        var fate := Request(c, ServerFound(c));
        Take(fate);
        return fate != Fault(c);
      }
      Wait(c);
      found := script == [] || script[0] != Fault(c);
      if !found {
        assert run.events + script == run.events + [Fault(c)] + script[1..];
        assert forall e <- script[1..] :: e in script;
        script := script[1..];
        Take(Fault(c));
      }
    }

    /** Submits the attach or detach job of call c. None is an error, refusal by the cloud included. */
    method SubmitJob(c: CallId) returns (pc: Option<Pc>)
      requires Valid() && Live(state, c) && (state.calls[c].pc.PublishSubmit? || state.calls[c].pc.UnpublishSubmit?)
      modifies this
      ensures Valid() && run.Extends(old(run)) && StillFollowing() && c in state.calls
      ensures state.calls[c] == old(state.calls[c]).(pc := if pc.None? then Returned(Error) else pc.value)
      ensures pc.Some? && old(state.calls[c]).pc.PublishSubmit? ==>
                pc.value.PublishPoll? && pc.value.checks == 0
      ensures pc.Some? && old(state.calls[c]).pc.UnpublishSubmit? ==>
                pc.value == Returned(Ok("")) || (pc.value.UnpublishPoll? && pc.value.checks == 0)
      ensures old(script) == [] ==> script == [] && state == Next(old(state), Submit(c, true))
    {
      var fate := Request(c, Submit(c, true));
      Take(fate);
      pc := if state.calls[c].pc == Returned(Error) then None else Some(state.calls[c].pc);
    }

    /** How the job a call waits for stands. */
    static ghost function OutcomeFor(c: CallId, s: State): Outcome {
      if c in s.calls && (s.calls[c].pc.PublishPoll? || s.calls[c].pc.UnpublishPoll?) && s.calls[c].pc.job < |s.jobs|
        then s.jobs[s.calls[c].pc.job].outcome
      else Failed
    }

    /** One check of a job, or None if the query fails. */
    method GetJob(c: CallId) returns (outcome: Option<Outcome>)
      requires Valid() && Live(state, c) && (state.calls[c].pc.PublishPoll? || state.calls[c].pc.UnpublishPoll?)
      modifies this
      ensures Valid() && run.Extends(old(run)) && StillFollowing() && c in state.calls
      ensures state.calls[c] ==
              old(state.calls[c]).(pc := if outcome.None? then Returned(Error)
                                         else AfterPoll(old(state.calls[c]).pc, outcome.value))
      ensures outcome.Some? ==> SeenAt(run, old(|run.events|), c, old(state.calls[c]).pc.job, outcome.value)
      ensures old(script) == [] ==> Undisturbed() && outcome == Some(OutcomeFor(c, old(state)))
    {
      RunsAreSafe(run, |run.events|);
      assert CallOk(state, c);
      var fate := Request(c, Poll(c));
      ghost var k := |run.events|;
      outcome := if fate == Fault(c) then None else Some(state.jobs[state.calls[c].pc.job].outcome);
      Take(fate);
      assert outcome.Some? ==> run.events[k] == Poll(c);
    }

    /** waitForCondition under the common backoff: the verdict of the first check that fails or finds the job ended,
        and an error after thirty that find it running. The error of a failed detach job carries the job's own
        error code. */
    method WaitForJob(c: CallId) returns (done: bool, notAttached: bool, ghost seen: seq<Option<Outcome>>)
      requires Valid() && Live(state, c) && (state.calls[c].pc.PublishPoll? || state.calls[c].pc.UnpublishPoll?)
      requires state.calls[c].pc.checks == 0
      modifies this
      ensures Valid() && run.Extends(old(run)) && StillFollowing() && c in state.calls
      ensures 1 <= |seen| <= 30 && forall i | 0 <= i < |seen| - 1 :: seen[i] == Some(Running)
      ensures seen[|seen| - 1] == Some(Running) ==> |seen| == 30
      ensures done <==> seen[|seen| - 1] == Some(Succeeded)
      ensures notAttached <==> seen[|seen| - 1] == Some(FailedNotAttached)
      ensures seen[|seen| - 1].Some? ==>
                SeenAt(run, old(|run.events|), c, old(state.calls[c]).pc.job, seen[|seen| - 1].value)
      ensures state.calls[c] ==
              old(state.calls[c]).(pc := if done then (if old(state.calls[c]).pc.PublishPoll? then PublishReread
                                                       else Returned(Ok("")))
                                         else if notAttached && old(state.calls[c]).pc.UnpublishPoll?
                                              then Returned(Ok(""))
                                         else Returned(Error))
      ensures old(script) == [] ==> Undisturbed() && seen[|seen| - 1] == Some(OutcomeFor(c, old(state)))
    {
      var steps := STEPS;
      seen := [];
      while true
        invariant Valid() && run.Extends(old(run)) && StillFollowing() && c in state.calls
        invariant |seen| == STEPS - steps && forall i | 0 <= i < |seen| :: seen[i] == Some(Running)
        invariant old(script) == [] ==>
                    Undisturbed() && OutcomeFor(c, state) == OutcomeFor(c, old(state))
        invariant 0 < steps <= STEPS
        invariant state.calls[c] == old(state.calls[c]).(pc := old(state.calls[c].pc).(checks := STEPS - steps))
        decreases steps
      {
        var outcome := GetJob(c);
        seen := seen + [outcome];
        if outcome.None? { return false, false, seen; }
        match outcome.value {
          case Succeeded => return true, false, seen;
          case Failed => return false, false, seen;
          case FailedNotAttached => return false, true, seen;
          case Running =>
        }
        if steps == 1 { return false, false, seen; }
        steps := steps - 1;
      }
    }

    /** Reads the volume until it is attaching no more, at most thirty times: in-use then is success, for whichever
        server, and anything else an error, as are thirty reads that find it attaching. */
    method WaitForVolumeAttaching(c: CallId) returns (ok: bool, ghost seen: seq<Option<Volume>>)
      requires Valid() && c in state.calls && state.calls[c].pc == PublishWait(0)
      modifies this
      ensures Valid() && run.Extends(old(run)) && StillFollowing() && c in state.calls
      ensures 1 <= |seen| <= 30
      ensures forall i | 0 <= i < |seen| - 1 :: seen[i].Some? && seen[i].value.status == Attaching
      ensures var last := seen[|seen| - 1];
              && (last.Some? && last.value.status == Attaching ==> |seen| == 30)
              && (ok <==> last.Some? && last.value.status == InUse)
              && (last.Some? ==> ReadAt(run, old(|run.events|), c, last.value))
      ensures state.calls[c] == old(state.calls[c]).(pc := if ok then PublishReread else Returned(Error))
      ensures old(script) == [] ==> Undisturbed() && (ok <==> state.volume.status == InUse)
    {
      var steps := STEPS;
      seen := [];
      while true
        invariant Valid() && run.Extends(old(run)) && StillFollowing() && c in state.calls
        invariant |seen| == STEPS - steps
        invariant forall i | 0 <= i < |seen| :: seen[i].Some? && seen[i].value.status == Attaching
        invariant old(script) == [] ==> Undisturbed() && (steps < STEPS ==> state.volume.status == Attaching)
        invariant 0 < steps <= STEPS
        invariant state.calls[c] == old(state.calls[c]).(pc := PublishWait(STEPS - steps))
        decreases steps
      {
        var v := GetVolume(c);
        seen := seen + [v];
        if v.None? { return false, seen; }
        if v.value.status == InUse { return true, seen; }
        if v.value.status != Attaching { return false, seen; }
        if steps == 1 { return false, seen; }
        steps := steps - 1;
      }
    }

    method AttachVolumeCompleted(c: CallId) returns (ok: bool)
      requires Valid() && c in state.calls && state.calls[c].pc == PublishSubmit
      modifies this
      ensures Valid() && run.Extends(old(run)) && StillFollowing() && c in state.calls
      ensures state.calls[c] == old(state.calls[c]).(pc := if ok then PublishReread else Returned(Error))
      ensures old(script) == [] ==>
                !ok && script == [] && state.calls.Keys == old(state.calls.Keys)
                && state.volume == Next(old(state), Submit(c, true)).volume
                && state.jobs == Next(old(state), Submit(c, true)).jobs
    {
      var submitted := SubmitJob(c);
      if submitted.None? { return false; }
      var notAttached;
      ghost var seen;
      ok, notAttached, seen := WaitForJob(c);
    }

    /** Second result: whether the error text names Ecs.0111. */
    method DetachVolumeCompleted(c: CallId) returns (ok: bool, notAttached: bool)
      requires Valid() && c in state.calls && state.calls[c].pc == UnpublishSubmit
      modifies this
      ensures Valid() && run.Extends(old(run)) && StillFollowing() && c in state.calls
      ensures state.calls[c] ==
              old(state.calls[c]).(pc := if ok || notAttached then Returned(Ok("")) else Returned(Error))
      ensures old(script) == [] ==>
                && !ok && (notAttached <==> !AttachedTo(old(state.volume), old(state.calls[c]).server))
                && script == [] && state.calls.Keys == old(state.calls.Keys)
                && DetachAsked(old(state), state, c, old(state.calls[c]).server)
    {
      RunsAreSafe(run, |run.events|);
      SubmitAsksToDetach(state, c);
      var submitted := SubmitJob(c);
      if submitted.None? { return false, false; }
      if submitted.value.Returned? { return false, true; }
      ghost var seen;
      ok, notAttached, seen := WaitForJob(c);
    }

    /** Any execution, whatever the others do: a path is the device of an attachment to this server that the
        volume showed during this call. And any run: if what is scripted is possible and makes the call return, the
        handler returns just that. */
    method ControllerPublishVolume(c: CallId, volumeID: string, instanceID: ServerId, hasCapability: bool)
      returns (reply: Reply)
      requires Valid() && c !in state.calls
      modifies this
      ensures Valid() && run.Extends(old(run))
      ensures volumeID == "" || instanceID == "" || !hasCapability ==> reply == Error && state == old(state)
      ensures volumeID != "" && instanceID != "" && hasCapability ==>
                c in state.calls && state.calls[c] == Call(Publish, instanceID, Returned(reply))
      ensures reply.Ok? && reply.devicePath != "" ==>
                exists k :: |old(run.events)| <= k <= |run.events|
                  && exists a <- run.states[k].volume.attachments ::
                       a.server == instanceID && a.device == reply.devicePath
      ensures old(script) == [] && volumeID != "" && instanceID != "" && hasCapability ==>
                script == [] && Answered(old(state), state, c, instanceID, reply)
      ensures volumeID != "" && instanceID != "" && hasCapability ==>
                ReturnsAsIn(c, old(state), [Begin(c, Publish, instanceID)] + old(script), reply)
      ensures volumeID != "" && instanceID != "" && hasCapability && old(forall e <- script :: Harmless(e)) ==>
                AddedCalmly(old(run), run, Begin(c, Publish, instanceID))
    {
      if volumeID == "" || instanceID == "" || !hasCapability { return Error; }
      var begin := Begin(c, Publish, instanceID);
      ghost var moves := [begin] + script;
      Start(begin);
      reply := PublishValidated(c, instanceID);
      Finished(c, old(run), moves, reply);
      if reply.Ok? && reply.devicePath != "" {
        var k := PublishReturnsLastRead(run, |run.events|, c);
        assert run.StepAt(k);
        if k < |old(run.events)| {
          CallsStay(run, k, |old(run.events)|, c);
        }
      }
    }

    /** A call begins; its goal is all that is to happen from then on. */
    method Start(begin: Event)
      requires Valid() && begin.Begin? && Enabled(state, begin)
      modifies this
      ensures Valid() && run.Extends(old(run)) && script == old(script) && state == Next(old(state), begin)
      ensures goal == old(run).events + ([begin] + script)
      ensures Legal(old(state), [begin] + script) ==> Following()
      ensures run.events == old(run).events + [begin] && since == |run.events|
    {
      goal := run.events + ([begin] + script);
      OneMove(state, begin, script);
      Take(begin);
      since := |run.events|;
      assert run.events + script == goal;
    }

    lemma Finished(c: CallId, before: Run, moves: seq<Event>, reply: Reply)
      requires Valid() && before.Valid() && run.Extends(before) && goal == before.events + moves
      requires Legal(before.Last(), moves) ==> Following()
      requires ReplyOf(state, c) == Some(reply)
      ensures ReturnsAsIn(c, before.Last(), moves, reply)
    {
      if Legal(before.Last(), moves) {
        var i := |before.events|;
        Shift(before.events, moves, run.events, script);
        RunMoves(run, i);
        MovesInTwo(before.Last(), run.events[i..], script);
        SameReply(before.Last(), run.events[i..], script, moves, c);
      }
    }

    method PublishValidated(c: CallId, instanceID: ServerId) returns (reply: Reply)
      requires Valid() && c in state.calls && state.calls[c] == Call(Publish, instanceID, PublishRead)
      modifies this
      ensures Valid() && run.Extends(old(run)) && StillFollowing() && c in state.calls
      ensures state.calls[c] == Call(Publish, instanceID, Returned(reply))
      ensures old(script) == [] ==> script == [] && Answered(old(state), state, c, instanceID, reply)
    {
      var found := GetServer(c);
      if !found { return Error; }
      var volume := GetVolume(c);
      if volume.None? { return Error; }
      reply := PublishBy(c, instanceID, volume.value);
    }

    /** What follows from the volume that was read. */
    method PublishBy(c: CallId, instanceID: ServerId, volume: Volume) returns (reply: Reply)
      requires Valid() && c in state.calls
      requires state.calls[c] ==
               Call(Publish, instanceID, AfterRead(Call(Publish, instanceID, PublishRead), volume))
      modifies this
      ensures Valid() && run.Extends(old(run)) && StillFollowing() && c in state.calls
      ensures state.calls[c] == Call(Publish, instanceID, Returned(reply))
      ensures old(script) == [] && volume == old(state.volume) ==>
                script == [] && Answered(old(state), state, c, instanceID, reply)
    {
      RunsAreSafe(run, |run.events|);
      match Classify(volume, instanceID) {
        case NotAttached =>
          var ok := AttachVolumeCompleted(c);
          if !ok { return Error; }
        case AttachingCurrentServer =>
          var ok;
          ghost var seen;
          ok, seen := WaitForVolumeAttaching(c);
          if !ok { return Error; }
        case AttachingOtherServer => return Error;
        case AttachedCurrentServer => return Ok(DevicePath(volume, instanceID));
        case AttachedOtherServer => return Error;
        case AttachError => return Error;
      }
      var reread := GetVolume(c);
      if reread.None? { return Error; }
      reply := Ok(DevicePath(reread.value, instanceID));
    }

    /** Any execution, whatever the others do: OK means that at some instant of this call the volume was not
        attached to this server. And any run: if what is scripted is possible and makes the call return, the handler
        returns just that. */
    method ControllerUnpublishVolume(c: CallId, volumeID: string, instanceID: ServerId) returns (reply: Reply)
      requires Valid() && c !in state.calls
      modifies this
      ensures Valid() && run.Extends(old(run))
      ensures volumeID == "" || instanceID == "" ==> reply == Error && state == old(state)
      ensures volumeID != "" && instanceID != "" ==>
                c in state.calls && state.calls[c] == Call(Unpublish, instanceID, Returned(reply))
      ensures reply.Ok? ==>
                exists k :: |old(run.events)| <= k <= |run.events| && !AttachedTo(run.states[k].volume, instanceID)
      ensures old(script) == [] && volumeID != "" && instanceID != "" ==>
                script == [] && Dismissed(old(state), state, c, instanceID, reply)
      ensures volumeID != "" && instanceID != "" ==>
                ReturnsAsIn(c, old(state), [Begin(c, Unpublish, instanceID)] + old(script), reply)
      ensures volumeID != "" && instanceID != "" && old(forall e <- script :: Harmless(e)) ==>
                AddedCalmly(old(run), run, Begin(c, Unpublish, instanceID))
    {
      if volumeID == "" || instanceID == "" { return Error; }
      var begin := Begin(c, Unpublish, instanceID);
      ghost var moves := [begin] + script;
      Start(begin);
      reply := UnpublishValidated(c, instanceID);
      Finished(c, old(run), moves, reply);
      if reply.Ok? {
        UnpublishTakesEffect(run, |run.events|, c);
        ghost var k :| 0 <= k <= |run.events| && Live(run.states[k], c)
                       && !AttachedTo(run.states[k].volume, instanceID);
        if k < |old(run.events)| {
          CallsStay(run, k, |old(run.events)|, c);
        }
      }
    }

    method UnpublishValidated(c: CallId, instanceID: ServerId) returns (reply: Reply)
      requires Valid() && c in state.calls && state.calls[c] == Call(Unpublish, instanceID, UnpublishRead)
      modifies this
      ensures Valid() && run.Extends(old(run)) && StillFollowing() && c in state.calls
      ensures state.calls[c] == Call(Unpublish, instanceID, Returned(reply))
      ensures old(script) == [] ==> script == [] && Dismissed(old(state), state, c, instanceID, reply)
    {
      RunsAreSafe(run, |run.events|);
      var volume := GetVolume(c);
      if volume.None? { return Error; }
      var found := GetServer(c);
      if !found { return Error; }
      if volume.value.status == Available || |volume.value.attachments| == 0 { return Ok(""); }
      var ok, notAttached := DetachVolumeCompleted(c);
      reply := if ok || notAttached then Ok("") else Error;
    }

    /** Any number of publish calls that time out while the job is running, then its success and one call more: one
        attach job in all, and OK with the device. */
    method PublishUntilDone(first: CallId, n: nat, volumeID: string, instanceID: ServerId, device: string)
      returns (reply: Reply)
      requires Valid() && script == [] && state.volume.status == Available && n > 0
      requires volumeID != "" && instanceID != "" && device != ""
      requires forall c | first <= c <= first + n :: c !in state.calls
      modifies this
      ensures Valid() && reply == Ok(device)
      ensures state.jobs == old(state.jobs) + [AttachJob(instanceID, first, Succeeded)]
      ensures state.volume == Volume(InUse, [Attachment(|old(state.jobs)|, instanceID, device)])
    {
      ghost var id := |state.jobs|;
      for k := 0 to n
        invariant Valid() && script == []
        invariant forall c | first + k <= c <= first + n :: c !in state.calls
        invariant k == 0 ==> state == old(state)
        invariant k > 0 ==> state.jobs == old(state.jobs) + [AttachJob(instanceID, first, Running)]
        invariant k > 0 ==> state.volume == Volume(Attaching, [Attachment(id, instanceID, "")])
      {
        reply := ControllerPublishVolume(first + k, volumeID, instanceID, true);
      }
      Take(JobSucceeds(|state.jobs| - 1, device));
      assert state.volume.attachments == [Attachment(id, instanceID, device)];
      reply := ControllerPublishVolume(first + n, volumeID, instanceID, true);
    }

    /** Any number of publish calls for one server, one after the other, on a volume at rest, each with its own faults
        and lost answers, while jobs end in any way but failing: one attach request in all, exactly if the volume is
        available no more, and every OK names the device that the volume then is in use with. */
    method PublishRetried(ids: seq<CallId>, volumeID: string, instanceID: ServerId, scripts: seq<seq<Event>>)
      returns (replies: seq<Reply>)
      requires Valid() && Solo(run) && AtRest(state) && volumeID != "" && instanceID != "" && |ids| == |scripts|
      requires Distinct(ids) && forall c <- ids :: c !in state.calls
      requires forall moves <- scripts, e <- moves :: Harmless(e)
      modifies this
      ensures Valid() && run.Extends(old(run)) && Solo(run) && |replies| == |ids|
      ensures AttachRequests(run, |run.events|) - AttachRequests(run, |old(run.events)|)
              == |state.jobs| - |old(state.jobs)| == if state.volume.status == Available then 0 else 1
      ensures forall i | 0 <= i < |replies| && replies[i].Ok? ::
                && state.volume.status == InUse && |state.volume.attachments| == 1
                && state.volume.attachments[0].server == instanceID
                && replies[i] == Ok(state.volume.attachments[0].device) && replies[i].devicePath != ""
    {
      ghost var start := |run.events|;
      replies := [];
      for k := 0 to |ids|
        invariant Valid() && run.Extends(old(run)) && Solo(run) && |replies| == k
        invariant OnlyRetries(run, start, instanceID) && forall c <- state.calls :: !Live(state, c)
        invariant forall i | k <= i < |ids| :: ids[i] !in state.calls
        invariant forall i | 0 <= i < k ::
                    ids[i] in state.calls && state.calls[ids[i]] == Call(Publish, instanceID, Returned(replies[i]))
      {
        ghost var before := run;
        var begin := Begin(ids[k], Publish, instanceID);
        script := scripts[k];
        assert script in scripts;
        var reply := ControllerPublishVolume(ids[k], volumeID, instanceID, true);
        replies := replies + [reply];
        CalmCallIsSolo(before, run, begin);
        CalmCall(before, run, begin, |run.events|);
        RetriesGoOn(before, run, begin, start, instanceID);
      }
      AttachedOnce(run, start, |run.events|, instanceID);
      forall i | 0 <= i < |replies| && replies[i].Ok?
        ensures state.volume.status == InUse && |state.volume.attachments| == 1
                && state.volume.attachments[0].server == instanceID
                && replies[i] == Ok(state.volume.attachments[0].device) && replies[i].devicePath != ""
      {
        RetriesReturnDevice(run, start, instanceID, ids[i]);
      }
    }

    /** An available volume whose attach job succeeds between two checks: the call returns OK with the device. */
    method PublishSucceeds(c: CallId, volumeID: string, instanceID: ServerId, device: string) returns (reply: Reply)
      requires Valid() && c !in state.calls && state.volume.status == Available
      requires volumeID != "" && instanceID != "" && device != ""
      modifies this
      ensures Valid() && reply == Ok(device)
    {
      var job := |state.jobs|;
      PublishPath(run, c, instanceID, device);
      script := [Read(c), Submit(c, true), Poll(c), JobSucceeds(job, device), Poll(c), Read(c)];
      reply := ControllerPublishVolume(c, volumeID, instanceID, true);
    }

    /** A volume attaching to this server whose job succeeds between two reads: the call waits for it and returns OK
        with the device. */
    method PublishWaits(c: CallId, volumeID: string, instanceID: ServerId, device: string) returns (reply: Reply)
      requires Valid() && c !in state.calls && state.volume.status == Attaching && AttachedTo(state.volume, instanceID)
      requires volumeID != "" && instanceID != "" && device != ""
      modifies this
      ensures Valid() && reply == Ok(device)
    {
      WaitPath(run, c, instanceID, device);
      var job := state.volume.attachments[0].id;
      script := [Read(c), Read(c), JobSucceeds(job, device), Read(c), Read(c)];
      reply := ControllerPublishVolume(c, volumeID, instanceID, true);
    }

    /** A volume on this server whose detach job succeeds between two checks: the call returns OK. */
    method UnpublishSucceeds(c: CallId, volumeID: string, instanceID: ServerId) returns (reply: Reply)
      requires Valid() && c !in state.calls && state.volume.status == InUse && AttachedTo(state.volume, instanceID)
      requires volumeID != "" && instanceID != ""
      modifies this
      ensures Valid() && reply == Ok("")
    {
      var job := |state.jobs|;
      UnpublishPath(run, c, instanceID);
      script := [Read(c), ServerFound(c), Submit(c, true), Poll(c), JobSucceeds(job, ""), Poll(c)];
      reply := ControllerUnpublishVolume(c, volumeID, instanceID);
    }
  }
}
