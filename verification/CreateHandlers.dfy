/** The create handlers as they are written. A script says what happens: moves of others, and how each request of
    the call itself fares. Every execution is a run of the create protocol. */
module CreateHandlers {
  import opened CreateByName
  import opened Sequences
  import opened Wrappers

  predicate ActsFor(e: Event, c: CallId) {
    !e.Vanish? && !e.Expand? && e.c == c
  }

  /** No call for this name but c is in flight. */
  ghost predicate OnlyLive(s: State, c: CallId, name: string) {
    forall d <- s.calls :: LiveFor(s, d, name) ==> d == c
  }

  ghost predicate NoneLive(s: State, name: string) {
    forall d <- s.calls :: !LiveFor(s, d, name)
  }

  /** The calls that others begin are for other names, and have other ids than these. */
  ghost predicate OtherNames(moves: seq<Event>, name: string, ids: set<CallId>) {
    forall e <- moves | e.Begin? :: e.name != name && e.c !in ids
  }

  /** The check each driver makes on a listing. */
  method Query(driver: Driver, entries: seq<Entry>, name: string, attributes: Attributes) returns (lookup: Lookup)
    ensures lookup == LookUp(driver, entries, name, attributes)
  {
    match driver {
      case Evs => lookup := CheckVolumeExists(entries, name, attributes);
      case Snapshots => lookup := CheckDuplicateSnapshotName(entries, name, attributes);
      case SfsTurbo => lookup := CheckShareExists(entries, name, attributes);
    }
  }

  class Service {
    const driver: Driver
    var state: State
    var script: seq<Event>
    ghost var run: Run
    // Ids that no other call is to take.
    ghost var reserved: set<CallId>

    ghost predicate Valid()
      reads this
    {
      run.Valid() && run.Last() == state && run.driver == driver
    }

    /** Call c has been and will be the only one in flight for its name. */
    ghost predicate Alone(c: CallId)
      requires c in state.calls
      reads this
    {
      var name := state.calls[c].name;
      Solo(run, name) && OnlyLive(state, c, name) && OtherNames(script, name, reserved)
    }

    /** The run goes on; calls that have returned stay as they are; and a call that is alone stays alone. */
    twostate predicate GoesOn(c: CallId)
      requires c in old(state.calls)
      reads this
    {
      && run.Extends(old(run)) && reserved == old(reserved)
      && c in state.calls && state.calls[c].name == old(state.calls[c].name)
      && (forall d <- old(state.calls) | d != c && !Live(old(state), d) ::
            d in state.calls && state.calls[d] == old(state.calls[d]))
      && (old(Alone(c)) ==> Alone(c) && reserved * state.calls.Keys == reserved * old(state.calls.Keys))
    }

    constructor (driver: Driver, script: seq<Event>)
      ensures Valid() && this.driver == driver && this.script == script && state == State([], 0, map[])
      ensures forall name :: Solo(run, name)
    {
      this.driver := driver;
      this.script := script;
      state := State([], 0, map[]);
      run := Run(driver, [State([], 0, map[])], []);
      reserved := {};
    }

    method Take(e: Event)
      requires Valid() && Enabled(state, e)
      modifies this`state, this`run
      ensures Valid() && state == Next(driver, old(state), e) && run.Extends(old(run))
      ensures run.states == old(run).states + [state]
    {
      run := run.Then(e);
      state := Next(driver, state, e);
    }

    /** What others do next, if it can happen. */
    method OthersMove(c: CallId)
      requires Valid() && Live(state, c) && script != [] && !ActsFor(script[0], c)
      modifies this
      ensures Valid() && GoesOn(c) && state.calls[c] == old(state.calls[c])
      ensures script == old(script)[1..]
    {
      var next := script[0];
      assert next in script;
      script := script[1..];
      if Enabled(state, next) {
        Take(next);
      }
    }

    /** Lets the others move up to what is scripted for call c; what cannot happen is passed over. */
    method Wait(c: CallId)
      requires Valid() && Live(state, c)
      modifies this
      ensures Valid() && GoesOn(c) && c in state.calls && state.calls[c] == old(state.calls[c])
      ensures script == [] || ActsFor(script[0], c)
      ensures old(script) == [] || ActsFor(old(script)[0], c) ==> state == old(state) && script == old(script)
    {
      while script != [] && !ActsFor(script[0], c)
        invariant Valid() && GoesOn(c) && c in state.calls && state.calls[c] == old(state.calls[c])
        invariant old(script) == [] || ActsFor(old(script)[0], c) ==> state == old(state) && script == old(script)
        decreases |script|
      {
        OthersMove(c);
      }
    }

    /** The next request of call c: what is scripted for it if that is possible, and what it wants otherwise. */
    method Request(c: CallId, wanted: Event) returns (fate: Event)
      requires Valid() && Live(state, c) && ActsFor(wanted, c) && Enabled(state, wanted)
      modifies this
      ensures Valid() && GoesOn(c) && c in state.calls && state.calls[c] == old(state.calls[c])
      ensures ActsFor(fate, c) && Enabled(state, fate) && !fate.Begin?
      ensures old(script) == [] ==> fate == wanted && state == old(state) && script == []
      ensures old(script) != [] && ActsFor(old(script)[0], c) && Enabled(old(state), old(script)[0]) ==>
                fate == old(script)[0] && state == old(state) && script == old(script)[1..]
    {
      Wait(c);
      fate := wanted;
      if script != [] {
        var next := script[0];
        script := script[1..];
        if Enabled(state, next) { fate := next; }
      }
    }

    method FindExisting(c: CallId, name: string, attributes: Attributes) returns (found: Option<Lookup>)
      requires Valid() && c in state.calls && state.calls[c] == Call(name, attributes, Listing)
      modifies this
      ensures Valid() && GoesOn(c) && c in state.calls
      ensures state.calls[c] ==
              Call(name, attributes, if found.None? then Returned(Error) else AfterLookup(found.value))
      ensures old(script) == [] || old(script)[0] == List(c) ==>
                && found == Some(LookUp(driver, old(state.entries), name, attributes))
                && state.entries == old(state.entries) && state.nextId == old(state.nextId)
                && script == if old(script) == [] then [] else old(script)[1..]
    {
      var fate := Request(c, List(c));
      if fate == Fault(c) {
        Take(fate);
        return None;
      }
      var lookup := Query(driver, state.entries, name, attributes);
      found := Some(lookup);
      Take(fate);
    }

    /** Submits the creation. None is an error; the cloud may have accepted it all the same. */
    method SubmitCreation(c: CallId) returns (id: Option<Id>)
      requires Valid() && c in state.calls && state.calls[c].pc == Submitting
      modifies this
      ensures Valid() && GoesOn(c) && c in state.calls
      ensures state.calls[c] ==
              old(state.calls[c]).(pc := if id.None? then Returned(Error) else Waiting(id.value))
      ensures old(script) == [] || old(script)[0] in {Submit(c, true), Submit(c, false)} ==>
                && script == (if old(script) == [] then [] else old(script)[1..])
                && (id == if old(script) != [] && old(script)[0] == Submit(c, false) then None
                          else Some(old(state.nextId)))
                && state.entries == old(state.entries) + [Entry(old(state.nextId), old(state.calls[c]).name,
                                                                old(state.calls[c]).attributes)]
    {
      var fate := Request(c, Submit(c, true));
      Take(fate);
      id := if fate == Submit(c, true) then Some(state.calls[c].pc.id) else None;
    }

    /** Waits for what has been accepted; it exists whether or not the wait succeeds. */
    method WaitCreated(c: CallId, id: Id) returns (ok: bool)
      requires Valid() && c in state.calls && state.calls[c].pc == Waiting(id)
      modifies this
      ensures Valid() && GoesOn(c) && c in state.calls
      ensures state.calls[c] == old(state.calls[c]).(pc := Returned(if ok then Ok(id) else Error))
      ensures old(script) == [] || old(script) == [Fault(c)] ==>
                (ok <==> old(script) == []) && state.entries == old(state.entries)
    {
      var fate := Request(c, Ready(c));
      Take(fate);
      ok := fate != Fault(c);
    }

    method CreateCompleted(c: CallId) returns (id: Option<Id>)
      requires Valid() && c in state.calls && state.calls[c].pc == Submitting
      modifies this
      ensures Valid() && GoesOn(c) && c in state.calls
      ensures state.calls[c] ==
              old(state.calls[c]).(pc := Returned(if id.None? then Error else Ok(id.value)))
      ensures old(script) == [] || GivesUp(old(script), c) ==>
                && id == (if old(script) == [] then Some(old(state.nextId)) else None)
                && state.entries == old(state.entries) + [Entry(old(state.nextId), old(state.calls[c]).name,
                                                                old(state.calls[c]).attributes)]
    {
      id := SubmitCreation(c);
      if id.None? { return; }
      var ok := WaitCreated(c, id.value);
      if !ok { id := None; }
    }

    /** The cloud accepts the creation, but its answer is lost, or waiting for it fails or times out. */
    static predicate GivesUp(moves: seq<Event>, c: CallId) {
      moves == [Submit(c, false)] || moves == [Submit(c, true), Fault(c)]
    }

    /** Any execution is part of a run. Undisturbed, it returns the one entry of that name if it is what was asked
        for, refuses it if it is not, and otherwise adds an entry of its own, also if it then gives up. */
    method CreateVolume(c: CallId, name: string, attributes: Attributes) returns (reply: Reply)
      requires Valid() && c !in state.calls
      modifies this
      ensures Valid() && run.Extends(old(run))
      ensures name == "" ==> reply == Error && state == old(state)
      ensures name != "" ==> c in state.calls && state.calls[c] == Call(name, attributes, Returned(reply))
      ensures forall d <- old(state.calls) | !Live(old(state), d) ::
                d in state.calls && state.calls[d] == old(state.calls[d])
      ensures reserved == old(reserved)
      ensures old(Solo(run, name) && NoneLive(state, name) && OtherNames(script, name, reserved)) ==>
                && Solo(run, name) && NoneLive(state, name)
                && reserved * state.calls.Keys <= reserved * old(state.calls.Keys) + {c}
      ensures name != "" && (old(script) == [] || old(script)[0] == List(c)) ==>
                Decided(name, c, old(state), old(script), attributes, reply)
    {
      if name == "" { return Error; }
      Take(Begin(c, name, attributes));
      reply := CreateBegun(c, name, attributes);
    }

    method CreateBegun(c: CallId, name: string, attributes: Attributes) returns (reply: Reply)
      requires Valid() && c in state.calls && state.calls[c] == Call(name, attributes, Listing)
      modifies this
      ensures Valid() && GoesOn(c) && c in state.calls
      ensures state.calls[c] == Call(name, attributes, Returned(reply))
      ensures old(script) == [] || old(script)[0] == List(c) ==>
                Decided(name, c, old(state), old(script), attributes, reply)
    {
      var found := FindExisting(c, name, attributes);
      if found.None? || found.value.Conflict? { return Error; }
      if found.value.Found? { return Ok(found.value.id); }
      var id := CreateCompleted(c);
      reply := if id.None? then Error else Ok(id.value);
    }

    /** What a call comes to that nobody disturbs, if it can read the listing. */
    ghost predicate Decided(name: string, c: CallId, before: State, moves: seq<Event>, attributes: Attributes,
                            reply: Reply)
      reads this
    {
      match LookUp(driver, before.entries, name, attributes)
      case Found(id) => reply == Ok(id) && state.entries == before.entries
      case Conflict => reply == Error && state.entries == before.entries
      case Absent =>
        moves == [] || GivesUp(moves[1..], c) ==>
          && reply == (if moves == [] then Ok(before.nextId) else Error)
          && state.entries == before.entries + [Entry(before.nextId, name, attributes)]
    }

    /** Any number of create calls for one name, one after the other, each with its own faults, and with deletions,
        expansions and calls for other names at any time: never more than one entry of the name, and one id for all
        that returned one that still exists. */
    method CreateRepeatedly(ids: seq<CallId>, name: string, requests: seq<Attributes>, scripts: seq<seq<Event>>)
      returns (replies: seq<Reply>)
      requires Valid() && Solo(run, name) && NoneLive(state, name) && name != ""
      requires |ids| == |scripts| == |requests|
      requires Distinct(ids) && forall c <- ids :: c !in state.calls
      requires forall moves <- scripts :: OtherNames(moves, name, set c <- ids)
      modifies this
      ensures Valid() && Solo(run, name) && |replies| == |requests|
      ensures |Named(state.entries, name)| <= 1
      ensures forall i, j | 0 <= i < j < |replies| && Exists(state, replies[i]) && Exists(state, replies[j]) ::
                replies[i] == replies[j]
    {
      reserved := set c <- ids;
      replies := [];
      for k := 0 to |requests|
        invariant Valid() && Solo(run, name) && NoneLive(state, name) && |replies| == k && reserved == set c <- ids
        invariant forall i | k <= i < |ids| :: ids[i] !in state.calls
        invariant forall i | 0 <= i < k ::
                    ids[i] in state.calls && state.calls[ids[i]] == Call(name, requests[i], Returned(replies[i]))
      {
        script := scripts[k];
        assert script in scripts;
        ghost var before := state;
        var reply := CreateVolume(ids[k], name, requests[k]);
        replies := replies + [reply];
        forall i | k < i < |ids| ensures ids[i] !in state.calls {
          assert ids[i] in reserved && ids[i] !in before.calls && ids[i] != ids[k];
          assert ids[i] !in reserved * state.calls.Keys;
        }
      }
      OnePerName(run, |run.events|, name);
      forall i, j | 0 <= i < j < |replies| && Exists(state, replies[i]) && Exists(state, replies[j])
        ensures replies[i] == replies[j]
      {
        SameIdForSameName(run, |run.events|, ids[i], ids[j]);
      }
    }

    /** A call that gives up after the cloud accepted its creation, and a retry: one entry, and its id. */
    method CreateRetried(c: CallId, d: CallId, name: string, attributes: Attributes, moves: seq<Event>)
      returns (reply: Reply)
      requires Valid() && Solo(run, name) && NoneLive(state, name) && name != ""
      requires c != d && c !in state.calls && d !in state.calls
      requires LookUp(driver, state.entries, name, attributes) == Absent && GivesUp(moves, c)
      modifies this
      ensures Valid() && reply == Ok(old(state.nextId))
      ensures state.entries == old(state.entries) + [Entry(old(state.nextId), name, attributes)]
    {
      reserved := {d};
      script := [List(c)] + moves;
      assert OtherNames(script, name, reserved) && script[1..] == moves;
      var failed := CreateVolume(c, name, attributes);
      script := [];
      SoloRunsAreSingle(run, |run.events|, name);
      RunsAreHonest(run, |run.events|);
      assert state.entries[|state.entries| - 1] == Entry(old(state.nextId), name, attributes);
      FoundEntry(driver, state.entries, Entry(old(state.nextId), name, attributes), attributes);
      assert d !in reserved * state.calls.Keys;
      reply := CreateVolume(d, name, attributes);
    }
  }

  /** The entry this reply names is still there. */
  ghost predicate Exists(s: State, reply: Reply) {
    reply.Ok? && exists e <- s.entries :: e.id == reply.id
  }
}
