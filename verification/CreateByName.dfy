/** Creating EVS volumes, EVS snapshots and SFS Turbo shares by name: list first, create if the name is not there.
    The cloud lists what it has accepted; a call may fail or give up at any point, and what it had created stays. */
module CreateByName {
  import opened Sequences

  type Id = nat
  type CallId = nat

  /** What is asked for: a share is compared by all of it, a volume by its size, a snapshot by its source. */
  datatype Attributes =
    Attributes(size: int, proto: string, kind: string, zone: string, network: string, source: string)

  datatype Entry = Entry(id: Id, name: string, attributes: Attributes)

  datatype Driver = Evs | Snapshots | SfsTurbo

  datatype Lookup = Found(id: Id) | Absent | Conflict

  datatype Reply = Ok(id: Id) | Error

  datatype Pc = Listing | Submitting | Waiting(id: Id) | Returned(reply: Reply)

  datatype Call = Call(name: string, attributes: Attributes, pc: Pc)

  datatype State = State(entries: seq<Entry>, nextId: Id, calls: map<CallId, Call>)

  datatype Event =
    | Begin(c: CallId, name: string, attributes: Attributes)
    | Fault(c: CallId)
    | List(c: CallId)
    | Submit(c: CallId, answered: bool)
    | Ready(c: CallId)
    | Vanish(id: Id)
    | Expand(id: Id, size: int)

  // ---------- Looking a name up ----------

  function Named(entries: seq<Entry>, name: string): (r: seq<Entry>)
    ensures forall e :: e in r <==> e in entries && e.name == name
  {
    if entries == [] then []
    else (if entries[0].name == name then [entries[0]] else []) + Named(entries[1..], name)
  }

  predicate Matches(driver: Driver, e: Entry, attributes: Attributes) {
    match driver
    case Evs => e.attributes.size == attributes.size
    case Snapshots => e.attributes.source == attributes.source
    case SfsTurbo => e.attributes == attributes
  }

  /** EVS insists on a single volume or snapshot of that name; SFS Turbo takes the first share of that name. */
  function LookUp(driver: Driver, entries: seq<Entry>, name: string, attributes: Attributes): Lookup {
    var named := Named(entries, name);
    if named == [] then Absent
    else if driver != SfsTurbo && |named| > 1 then Conflict
    else if Matches(driver, named[0], attributes) then Found(named[0].id)
    else Conflict
  }

  /** Volumes are compared by size alone, snapshots by their source alone, shares by all that was asked for. */
  lemma OneOfTheName(driver: Driver, entries: seq<Entry>, e: Entry, attributes: Attributes)
    requires Named(entries, e.name) == [e]
    ensures LookUp(driver, entries, e.name, attributes) ==
            if (driver == Evs && e.attributes.size == attributes.size)
               || (driver == Snapshots && e.attributes.source == attributes.source)
               || (driver == SfsTurbo && e.attributes == attributes) then Found(e.id)
            else Conflict
  {
  }

  /** None of the name is absent; several are a conflict for volumes and snapshots, and for shares the first decides. */
  lemma SeveralOfTheName(driver: Driver, entries: seq<Entry>, name: string, attributes: Attributes)
    ensures LookUp(driver, entries, name, attributes).Absent? <==> forall e <- entries :: e.name != name
    ensures |Named(entries, name)| > 1 ==>
              LookUp(driver, entries, name, attributes) ==
              if driver == SfsTurbo && Named(entries, name)[0].attributes == attributes then
                Found(Named(entries, name)[0].id)
              else Conflict
  {
    var named := Named(entries, name);
    if named != [] {
      assert named[0] in named;
    } else {
      forall e <- entries ensures e.name != name {
        assert e !in named;
      }
    }
  }

  /** The entries of a name stay in their order. */
  lemma {:induction false} NamedFirst(entries: seq<Entry>, name: string, i: nat)
    requires i < |entries| && entries[i].name == name && forall j | 0 <= j < i :: entries[j].name != name
    ensures Named(entries, name) == [entries[i]] + Named(entries[i + 1..], name)
  {
    if i == 0 {
    } else {
      NamedFirst(entries[1..], name, i - 1);
      assert entries[1..][i..] == entries[i + 1..];
    }
  }

  /** CheckVolumeExists of EVS, on a listing that the service filtered by name. */
  method CheckVolumeExists(entries: seq<Entry>, name: string, attributes: Attributes) returns (r: Lookup)
    ensures r == LookUp(Evs, entries, name, attributes)
    ensures forall e | Named(entries, name) == [e] :: r.Found? <==> e.attributes.size == attributes.size
  {
    var volumes := Named(entries, name);
    if |volumes| == 1 {
      var vol := volumes[0];
      if attributes.size != vol.attributes.size { return Conflict; }
      return Found(vol.id);
    } else if |volumes| > 1 {
      return Conflict;
    }
    r := Absent;
  }

  /** checkDuplicateSnapshotName, on a listing filtered the same way. */
  method CheckDuplicateSnapshotName(entries: seq<Entry>, name: string, attributes: Attributes) returns (r: Lookup)
    ensures r == LookUp(Snapshots, entries, name, attributes)
    ensures forall e | Named(entries, name) == [e] :: r.Found? <==> e.attributes.source == attributes.source
  {
    var listSnapshots := Named(entries, name);
    if |listSnapshots| == 1 {
      var snap := listSnapshots[0];
      if snap.attributes.source != attributes.source { return Conflict; }
      return Found(snap.id);
    }
    if |listSnapshots| > 1 { return Conflict; }
    r := Absent;
  }

  /** checkVolumeExists of SFS Turbo, which goes through all shares. */
  method CheckShareExists(entries: seq<Entry>, name: string, attributes: Attributes) returns (r: Lookup)
    ensures r == LookUp(SfsTurbo, entries, name, attributes)
    ensures forall e | Named(entries, name) == [e] :: r.Found? <==> e.attributes == attributes
  {
    for k := 0 to |entries|
      invariant Named(entries, name) == Named(entries[k..], name)
    {
      var v := entries[k];
      assert entries[k..][1..] == entries[k + 1..];
      if v.name == name {
        return if v.attributes == attributes then Found(v.id) else Conflict;
      }
    }
    r := Absent;
  }

  // ---------- The steps ----------

  predicate Live(s: State, c: CallId) {
    c in s.calls && !s.calls[c].pc.Returned?
  }

  predicate Enabled(s: State, e: Event) {
    match e
    case Begin(c, _, _) => c !in s.calls
    case Fault(c) => Live(s, c)
    case List(c) => Live(s, c) && s.calls[c].pc == Listing
    case Submit(c, _) => Live(s, c) && s.calls[c].pc == Submitting
    case Ready(c) => Live(s, c) && s.calls[c].pc.Waiting?
    case Vanish(id) => exists e <- s.entries :: e.id == id
    case Expand(id, size) => exists e <- s.entries :: e.id == id && e.attributes.size <= size
  }

  function Goto(s: State, c: CallId, pc: Pc): State
    requires c in s.calls
  {
    s.(calls := s.calls[c := s.calls[c].(pc := pc)])
  }

  function AfterLookup(l: Lookup): Pc {
    match l
    case Found(id) => Returned(Ok(id))
    case Absent => Submitting
    case Conflict => Returned(Error)
  }

  function Remove(entries: seq<Entry>, id: Id): (r: seq<Entry>)
    ensures forall e :: e in r <==> e in entries && e.id != id
    ensures |r| <= |entries|
  {
    if entries == [] then []
    else (if entries[0].id == id then [] else [entries[0]]) + Remove(entries[1..], id)
  }

  function Resized(e: Entry, id: Id, size: int): Entry {
    if e.id == id then e.(attributes := e.attributes.(size := size)) else e
  }

  function Resize(entries: seq<Entry>, id: Id, size: int): (r: seq<Entry>)
    ensures |r| == |entries| && forall i | 0 <= i < |r| :: r[i] == Resized(entries[i], id, size)
  {
    seq(|entries|, i requires 0 <= i < |entries| => Resized(entries[i], id, size))
  }

  function Next(driver: Driver, s: State, e: Event): State
    requires Enabled(s, e)
  {
    match e
    case Begin(c, name, attributes) => s.(calls := s.calls[c := Call(name, attributes, Listing)])
    case Fault(c) => Goto(s, c, Returned(Error))
    case List(c) => Goto(s, c, AfterLookup(LookUp(driver, s.entries, s.calls[c].name, s.calls[c].attributes)))
    case Submit(c, answered) =>
      Goto(s.(entries := s.entries + [Entry(s.nextId, s.calls[c].name, s.calls[c].attributes)], nextId := s.nextId + 1),
           c, if answered then Waiting(s.nextId) else Returned(Error))
    case Ready(c) => Goto(s, c, Returned(Ok(s.calls[c].pc.id)))
    case Vanish(id) => s.(entries := Remove(s.entries, id))
    case Expand(id, size) => s.(entries := Resize(s.entries, id, size))
  }

  datatype Run = Run(driver: Driver, states: seq<State>, events: seq<Event>) {
    predicate Valid() {
      && |states| == |events| + 1
      && states[0] == State([], 0, map[])
      && forall i :: 0 <= i < |events| ==> StepAt(i)
    }

    predicate StepAt(i: nat)
      requires i < |events| && |states| == |events| + 1
    {
      Enabled(states[i], events[i]) && states[i + 1] == Next(driver, states[i], events[i])
    }

    function Last(): State
      requires Valid()
    {
      states[|events|]
    }

    function Then(e: Event): (r: Run)
      requires Valid() && Enabled(Last(), e)
      ensures r.Valid() && r.driver == driver && r.Last() == Next(driver, Last(), e)
      ensures r.Extends(this) && r.events == events + [e] && r.states == states + [Next(driver, Last(), e)]
    {
      var r := Run(driver, states + [Next(driver, Last(), e)], events + [e]);
      assert forall i | 0 <= i < |events| :: StepAt(i) ==> r.StepAt(i);
      r
    }

    /** This run goes on where the other one ends. */
    ghost predicate Extends(r: Run) {
      r.driver == driver && r.events <= events && r.states <= states
    }
  }

  /** At most one create call for this name in flight at a time; calls for other names, deletions and expansions may
      come at any time. */
  ghost predicate Solo(r: Run, name: string) {
    forall s <- r.states :: OneLive(s, name)
  }

  ghost predicate OneLive(s: State, name: string) {
    forall c <- s.calls, d <- s.calls :: LiveFor(s, c, name) && LiveFor(s, d, name) ==> c == d
  }

  predicate LiveFor(s: State, c: CallId, name: string) {
    Live(s, c) && s.calls[c].name == name
  }

  // ---------- Ids, whatever overlaps ----------

  /** Like what is asked for, but for having grown since. */
  predicate Covers(driver: Driver, e: Entry, attributes: Attributes) {
    match driver
    case Evs => e.attributes.size >= attributes.size
    case Snapshots => e.attributes.source == attributes.source
    case SfsTurbo =>
      e.attributes.(size := attributes.size) == attributes && e.attributes.size >= attributes.size
  }

  /** A call that holds an id has it from an entry that covers its own request. */
  ghost predicate Honest(driver: Driver, s: State, c: CallId)
    requires c in s.calls
  {
    var call := s.calls[c];
    match call.pc
    case Waiting(id) => IsTheirs(driver, s, call, id)
    case Returned(Ok(id)) => IsTheirs(driver, s, call, id)
    case _ => true
  }

  ghost predicate IsTheirs(driver: Driver, s: State, call: Call, id: Id) {
    id < s.nextId && forall e <- s.entries | e.id == id :: e.name == call.name && Covers(driver, e, call.attributes)
  }

  /** Ids are handed out once. */
  ghost predicate Inv(driver: Driver, s: State) {
    && Distinct(s.entries)
    && (forall e <- s.entries, f <- s.entries | e.id == f.id :: e == f)
    && (forall e <- s.entries :: e.id < s.nextId)
    && (forall c <- s.calls :: Honest(driver, s, c))
  }

  lemma LookUpFinds(driver: Driver, entries: seq<Entry>, name: string, attributes: Attributes)
    ensures match LookUp(driver, entries, name, attributes)
            case Found(id) => exists e <- entries :: e.name == name && e.id == id && Matches(driver, e, attributes)
            case Absent => forall e <- entries :: e.name != name
            case Conflict => exists e <- entries :: e.name == name
  {
    var named := Named(entries, name);
    if named != [] {
      assert named[0] in named;
    } else {
      forall e <- entries ensures e.name != name {
        assert e !in named;
      }
    }
  }

  lemma {:induction false} RemoveDistinct(entries: seq<Entry>, id: Id)
    requires Distinct(entries)
    ensures Distinct(Remove(entries, id))
  {
    if entries == [] {
    } else {
      RemoveDistinct(entries[1..], id);
      var rest := Remove(entries[1..], id);
      forall j | 0 <= j < |rest| ensures rest[j] != entries[0] {
        assert rest[j] in rest && rest[j] in entries[1..];
      }
    }
  }

  lemma ResizeKeeps(entries: seq<Entry>, id: Id, size: int)
    requires Distinct(entries) && forall e <- entries, f <- entries | e.id == f.id :: e == f
    ensures var after := Resize(entries, id, size);
            && Distinct(after)
            && (forall e <- after :: exists f <- entries :: e == Resized(f, id, size))
            && (forall e <- after, f <- after | e.id == f.id :: e == f)
  {
    var after := Resize(entries, id, size);
    forall e <- after ensures exists f <- entries :: e == Resized(f, id, size) {
      var i :| 0 <= i < |after| && after[i] == e;
      assert entries[i] in entries;
    }
    forall i, j | 0 <= i < j < |after| ensures after[i] != after[j] {
      assert entries[i] in entries && entries[j] in entries && entries[i] != entries[j];
    }
  }

  lemma ListKeepsInv(driver: Driver, s: State, e: Event)
    requires Inv(driver, s) && Enabled(s, e) && e.List?
    ensures Inv(driver, Next(driver, s, e))
  {
    var t := Next(driver, s, e);
    LookUpFinds(driver, s.entries, s.calls[e.c].name, s.calls[e.c].attributes);
    forall c <- t.calls ensures Honest(driver, t, c) {
      assert Honest(driver, s, c);
    }
  }

  lemma SubmitKeepsInv(driver: Driver, s: State, e: Event)
    requires Inv(driver, s) && Enabled(s, e) && e.Submit?
    ensures Inv(driver, Next(driver, s, e))
  {
    var t := Next(driver, s, e);
    assert forall x <- t.entries :: x in s.entries || x == t.entries[|s.entries|];
    forall c <- t.calls ensures Honest(driver, t, c) {
      assert Honest(driver, s, c);
    }
  }

  lemma CallKeepsInv(driver: Driver, s: State, e: Event)
    requires Inv(driver, s) && Enabled(s, e) && (e.Begin? || e.Fault? || e.Ready?)
    ensures Inv(driver, Next(driver, s, e))
  {
    var t := Next(driver, s, e);
    forall c <- t.calls ensures Honest(driver, t, c) {
      if c in s.calls { assert Honest(driver, s, c); }
    }
  }

  lemma VanishKeepsInv(driver: Driver, s: State, e: Event)
    requires Inv(driver, s) && Enabled(s, e) && e.Vanish?
    ensures Inv(driver, Next(driver, s, e))
  {
    var t := Next(driver, s, e);
    RemoveDistinct(s.entries, e.id);
    forall c <- t.calls ensures Honest(driver, t, c) {
      assert Honest(driver, s, c);
    }
  }

  lemma ExpandKeepsInv(driver: Driver, s: State, e: Event)
    requires Inv(driver, s) && Enabled(s, e) && e.Expand?
    ensures Inv(driver, Next(driver, s, e))
  {
    var t := Next(driver, s, e);
    ResizeKeeps(s.entries, e.id, e.size);
    forall c <- t.calls ensures Honest(driver, t, c) {
      assert Honest(driver, s, c);
    }
  }

  /** In every run, however calls overlap. */
  lemma {:induction false} RunsAreHonest(r: Run, i: nat)
    requires r.Valid() && i <= |r.events|
    ensures Inv(r.driver, r.states[i])
  {
    if i == 0 {
    } else {
      var s, e := r.states[i - 1], r.events[i - 1];
      RunsAreHonest(r, i - 1);
      assert r.StepAt(i - 1);
      if e.Vanish? {
        VanishKeepsInv(r.driver, s, e);
      } else if e.Expand? {
        ExpandKeepsInv(r.driver, s, e);
      } else if e.List? {
        ListKeepsInv(r.driver, s, e);
      } else if e.Submit? {
        SubmitKeepsInv(r.driver, s, e);
      } else {
        CallKeepsInv(r.driver, s, e);
      }
    }
  }

  /** An id a call has returned is that of an entry of its name that agrees with its request in what its driver
      compares, but may have grown. */
  lemma ReturnedIdsAgree(r: Run, i: nat, c: CallId, e: Entry)
    requires r.Valid() && i <= |r.events| && c in r.states[i].calls && e in r.states[i].entries
    requires r.states[i].calls[c].pc == Returned(Ok(e.id))
    ensures var asked := r.states[i].calls[c].attributes;
            && e.name == r.states[i].calls[c].name
            && (r.driver == Evs ==> e.attributes.size >= asked.size)
            && (r.driver == Snapshots ==> e.attributes.source == asked.source)
            && (r.driver == SfsTurbo ==>
                  e.attributes.size >= asked.size && e.attributes.(size := 0) == asked.(size := 0))
  {
    RunsAreHonest(r, i);
    assert Honest(r.driver, r.states[i], c);
  }

  // ---------- One entry for a name ----------

  /** There is one entry of the name at most, and none when a call is about to create it. */
  ghost predicate Single(s: State, name: string) {
    && OneOf(s.entries, name)
    && (forall c <- s.calls | s.calls[c].name == name && s.calls[c].pc == Submitting ::
          forall e <- s.entries :: e.name != name)
  }

  ghost predicate OneOf(entries: seq<Entry>, name: string) {
    forall e <- entries, f <- entries | e.name == name && f.name == name :: e == f
  }

  lemma {:induction false} NamedAtMostOnce(entries: seq<Entry>, name: string)
    requires OneOf(entries, name) && Distinct(entries)
    ensures |Named(entries, name)| <= 1
  {
    if entries == [] {
    } else {
      assert forall e <- entries[1..] :: e in entries && e != entries[0];
      NamedAtMostOnce(entries[1..], name);
      var rest := Named(entries[1..], name);
      assert rest == [] || rest[0] in rest;
    }
  }

  lemma ResizeStaysSingle(s: State, t: State, id: Id, size: int, name: string)
    requires Distinct(s.entries) && (forall e <- s.entries, f <- s.entries | e.id == f.id :: e == f)
    requires Single(s, name) && t == s.(entries := Resize(s.entries, id, size))
    ensures Single(t, name)
  {
    ResizeKeeps(s.entries, id, size);
  }

  lemma SubmitStaysSingle(s: State, t: State, c: CallId, e: Entry, name: string)
    requires Single(s, name) && c in s.calls && s.calls[c].pc == Submitting && e.name == s.calls[c].name
    requires t.entries == s.entries + [e] && c in t.calls && !t.calls[c].pc.Submitting? && t.calls.Keys == s.calls.Keys
    requires forall d <- s.calls | d != c :: t.calls[d] == s.calls[d]
    requires e.name == name ==> forall d <- s.calls :: LiveFor(s, d, name) ==> d == c
    ensures Single(t, name)
  {
    forall d <- t.calls | t.calls[d].name == name && t.calls[d].pc == Submitting
      ensures forall f <- t.entries :: f.name != name
    {
      assert d != c && LiveFor(s, d, name);
    }
  }

  lemma StaysSingle(driver: Driver, s: State, e: Event, name: string)
    requires Inv(driver, s) && Single(s, name) && Enabled(s, e)
    requires e.Submit? && s.calls[e.c].name == name ==> forall c <- s.calls :: LiveFor(s, c, name) ==> c == e.c
    ensures Single(Next(driver, s, e), name)
  {
    var t := Next(driver, s, e);
    if e.Expand? {
      ResizeStaysSingle(s, t, e.id, e.size, name);
    } else if e.Submit? {
      SubmitStaysSingle(s, t, e.c, t.entries[|s.entries|], name);
    } else if e.List? {
      LookUpFinds(driver, s.entries, s.calls[e.c].name, s.calls[e.c].attributes);
    }
  }

  lemma {:induction false} SoloRunsAreSingle(r: Run, i: nat, name: string)
    requires r.Valid() && Solo(r, name) && i <= |r.events|
    ensures Single(r.states[i], name)
  {
    if i == 0 {
    } else {
      SoloRunsAreSingle(r, i - 1, name);
      RunsAreHonest(r, i - 1);
      assert r.StepAt(i - 1);
      assert r.states[i - 1] in r.states;
      StaysSingle(r.driver, r.states[i - 1], r.events[i - 1], name);
    }
  }

  /** However often creates are repeated, fail or give up after the cloud accepted them, and whatever happens to other
      names: there is never more than one volume, snapshot or share of a name whose creates do not overlap. */
  lemma OnePerName(r: Run, i: nat, name: string)
    requires r.Valid() && Solo(r, name) && i <= |r.events|
    ensures |Named(r.states[i].entries, name)| <= 1
  {
    SoloRunsAreSingle(r, i, name);
    RunsAreHonest(r, i);
    NamedAtMostOnce(r.states[i].entries, name);
  }

  /** While an entry exists, whoever asks for its name again creates nothing, and gets its id exactly if the entry
      is what is asked for, also if the call that created it never returned it. */
  lemma RepeatReturnsSame(r: Run, i: nat, e: Entry)
    requires r.Valid() && Solo(r, e.name) && i < |r.events| && r.events[i].List?
    requires r.events[i].c in r.states[i].calls && r.states[i].calls[r.events[i].c].name == e.name
    requires e in r.states[i].entries
    ensures r.events[i].c in r.states[i + 1].calls
    ensures var asked, found := r.states[i].calls[r.events[i].c].attributes, e.attributes;
            r.states[i + 1].calls[r.events[i].c].pc ==
            Returned(if (r.driver == Evs && found.size == asked.size)
                        || (r.driver == Snapshots && found.source == asked.source)
                        || (r.driver == SfsTurbo && found == asked) then Ok(e.id)
                     else Error)
    ensures r.states[i + 1].entries == r.states[i].entries
  {
    SoloRunsAreSingle(r, i, e.name);
    RunsAreHonest(r, i);
    assert r.StepAt(i);
    FoundEntry(r.driver, r.states[i].entries, e, r.states[i].calls[r.events[i].c].attributes);
  }

  lemma FoundEntry(driver: Driver, entries: seq<Entry>, e: Entry, attributes: Attributes)
    requires OneOf(entries, e.name) && Distinct(entries) && e in entries
    ensures LookUp(driver, entries, e.name, attributes) ==
            if Matches(driver, e, attributes) then Found(e.id) else Conflict
  {
    NamedAtMostOnce(entries, e.name);
    assert e in Named(entries, e.name);
  }

  /** Expanding an entry makes the request that had found it a conflict, exactly if its size changes and sizes are
      compared at all. */
  lemma ExpandedIsRefused(driver: Driver, entries: seq<Entry>, e: Entry, attributes: Attributes, size: int)
    requires OneOf(entries, e.name) && Distinct(entries) && e in entries && Matches(driver, e, attributes)
    requires forall f <- entries, g <- entries | f.id == g.id :: f == g
    ensures LookUp(driver, Resize(entries, e.id, size), e.name, attributes) ==
            if driver == Snapshots || size == e.attributes.size then Found(e.id) else Conflict
  {
    var after, now := Resize(entries, e.id, size), Resized(e, e.id, size);
    var i :| 0 <= i < |entries| && entries[i] == e;
    assert after[i] == now;
    ResizeKeeps(entries, e.id, size);
    ResizeKeepsOne(entries, e.id, size, e.name);
    FoundEntry(driver, after, now, attributes);
  }

  lemma ResizeKeepsOne(entries: seq<Entry>, id: Id, size: int, name: string)
    requires OneOf(entries, name)
    ensures OneOf(Resize(entries, id, size), name)
  {
    var after := Resize(entries, id, size);
    forall e <- after, f <- after | e.name == name && f.name == name ensures e == f {
      var i :| 0 <= i < |after| && after[i] == e;
      var j :| 0 <= j < |after| && after[j] == f;
      assert entries[i] in entries && entries[j] in entries;
    }
  }

  /** Two calls for the same name that both returned an id returned the same one, if the first's still exists when
      the second's does. */
  lemma SameIdForSameName(r: Run, i: nat, c: CallId, d: CallId)
    requires r.Valid() && i <= |r.events| && c in r.states[i].calls && d in r.states[i].calls
    requires r.states[i].calls[c].name == r.states[i].calls[d].name && Solo(r, r.states[i].calls[c].name)
    requires r.states[i].calls[c].pc.Returned? && r.states[i].calls[c].pc.reply.Ok?
    requires r.states[i].calls[d].pc.Returned? && r.states[i].calls[d].pc.reply.Ok?
    requires exists e <- r.states[i].entries :: e.id == r.states[i].calls[c].pc.reply.id
    requires exists e <- r.states[i].entries :: e.id == r.states[i].calls[d].pc.reply.id
    ensures r.states[i].calls[c].pc.reply.id == r.states[i].calls[d].pc.reply.id
  {
    SoloRunsAreSingle(r, i, r.states[i].calls[c].name);
    RunsAreHonest(r, i);
    assert Honest(r.driver, r.states[i], c) && Honest(r.driver, r.states[i], d);
  }

  /** Two overlapping creates of one name may make two of it; EVS then refuses the name until one of them is
      deleted. */
  lemma OverlapDuplicates(a: Attributes) returns (r: Run)
    ensures r.Valid() && r.driver == Evs
    ensures |Named(r.Last().entries, "pvc")| == 2
    ensures LookUp(Evs, r.Last().entries, "pvc", a) == Conflict
    ensures LookUp(Evs, Remove(r.Last().entries, 0), "pvc", a) == Found(1)
  {
    r := Run(Evs, [State([], 0, map[])], []);
    r := r.Then(Begin(1, "pvc", a)).Then(Begin(2, "pvc", a)).Then(List(1)).Then(List(2));
    assert Named([], "pvc") == [];
    assert r.Last().calls == map[1 := Call("pvc", a, Submitting), 2 := Call("pvc", a, Submitting)];
    r := r.Then(Submit(1, true)).Then(Submit(2, true));
    var x, y := Entry(0, "pvc", a), Entry(1, "pvc", a);
    assert r.Last().entries == [x, y];
    TwoOfTheName(x, y, "pvc");
  }

  lemma TwoOfTheName(x: Entry, y: Entry, name: string)
    requires x.name == name && y.name == name && x.id != y.id
    ensures Named([x, y], name) == [x, y] && Remove([x, y], x.id) == [y] && Named([y], name) == [y]
  {
    assert [x, y][1..] == [y] && Named([y], name) == [y] + Named([y][1..], name);
    assert Remove([y], x.id) == [y] + Remove([y][1..], x.id);
  }
}
