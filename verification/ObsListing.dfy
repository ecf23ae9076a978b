/** Listing OBS buckets: the marker scan, the concurrent workers that fill the page, and the tokens a caller
    follows. */
module ObsListing {
  import opened GoStrings
  import opened Wrappers

  datatype Bucket = Bucket(name: GoString, capacity: int)

  /** What OBS answers about one bucket: its file system flag and its quota. */
  datatype Answer = Unanswered | Answered(parallelFs: bool, quota: Option<int>)

  datatype ListResult = Buckets(list: seq<Bucket>) | Error | Panic

  datatype Reply = Reply(entries: seq<Bucket>, nextToken: GoString)

  datatype ReplyResult = Replied(reply: Reply) | InvalidArgument | Failed | Crashed

  function GetParallelFSBucket(name: GoString, answer: Answer): Option<Bucket> {
    if answer.Answered? && answer.parallelFs && answer.quota.Some? then Some(Bucket(name, answer.quota.value))
    else None
  }

  /** OBS has answered that the bucket is a parallel file system, and what its quota is. */
  predicate Usable(answer: Answer) {
    answer.Answered? && answer.parallelFs && answer.quota.Some?
  }

  /** The buckets of these names, in this order, with the quotas that OBS answered for them. */
  ghost predicate BucketsOf(page: seq<GoString>, answers: GoString -> Answer, list: seq<Bucket>) {
    && |list| == |page|
    && forall k | 0 <= k < |page| ::
         && list[k].name == page[k]
         && Usable(answers(page[k])) && answers(page[k]).quota == Some(list[k].capacity)
  }

  // ---------- What a page is ----------

  predicate Reachable(names: seq<GoString>, marker: GoString) {
    marker == [] || marker in names
  }

  /** The first place of the marker from i on, or the end. */
  function PlaceOf(names: seq<GoString>, marker: GoString, i: nat): (j: nat)
    requires i <= |names|
    ensures i <= j <= |names| && (j < |names| ==> names[j] == marker)
    ensures forall m | i <= m < j :: names[m] != marker
    decreases |names| - i
  {
    if i == |names| || names[i] == marker then i else PlaceOf(names, marker, i + 1)
  }

  /** Where the page after this marker begins. */
  function After(names: seq<GoString>, marker: GoString): (i: nat)
    requires Reachable(names, marker)
    ensures i <= |names|
    ensures if marker == [] then i == 0
            else i > 0 && names[i - 1] == marker && forall m | 0 <= m < i - 1 :: names[m] != marker
  {
    if marker == [] then 0 else PlaceOf(names, marker, 0) + 1
  }

  function PageNames(names: seq<GoString>, marker: GoString, limit: nat): seq<GoString>
    requires Reachable(names, marker)
  {
    var i := After(names, marker);
    names[i..if i + limit < |names| then i + limit else |names|]
  }

  function Fetch(names: seq<GoString>, answers: GoString -> Answer): (r: seq<Option<Bucket>>)
    ensures |r| == |names|
    ensures forall k | 0 <= k < |r| :: r[k] == GetParallelFSBucket(names[k], answers(names[k]))
  {
    seq(|names|, k requires 0 <= k < |names| => GetParallelFSBucket(names[k], answers(names[k])))
  }

  lemma FetchFails(names: seq<GoString>, answers: GoString -> Answer)
    ensures AllSome(Fetch(names, answers)) <==> forall name <- names :: Usable(answers(name))
  {
    var fetched := Fetch(names, answers);
    forall k | 0 <= k < |names| ensures fetched[k].Some? <==> Usable(answers(names[k])) {
    }
    if AllSome(fetched) {
      forall name <- names ensures Usable(answers(name)) {
        var k :| 0 <= k < |names| && names[k] == name;
        assert fetched[k].Some?;
      }
    }
  }

  predicate AllSome(fetched: seq<Option<Bucket>>) {
    forall k | 0 <= k < |fetched| :: fetched[k].Some?
  }

  function Values(fetched: seq<Option<Bucket>>): (r: seq<Bucket>)
    requires AllSome(fetched)
    ensures |r| == |fetched| && forall k | 0 <= k < |r| :: r[k] == fetched[k].value
  {
    seq(|fetched|, k requires 0 <= k < |fetched| => fetched[k].value)
  }

  // ---------- The workers ----------

  datatype Worker = Ready(name: GoString, slot: nat) | Fetched(bucket: Option<Bucket>, slot: nat) | Finished

  /** The error group of one listing. A worker first asks OBS and later writes its slot; a schedule says who moves
      when. */
  class Group {
    const slots: array<Option<Bucket>>
    ghost const names: seq<GoString>
    const answers: GoString -> Answer
    var workers: seq<Worker>
    var failed: bool
    ghost var writes: seq<nat>

    ghost function Wanted(k: nat): Option<Bucket>
      requires k < |names|
    {
      GetParallelFSBucket(names[k], answers(names[k]))
    }

    ghost predicate Progress(k: nat)
      reads this, slots
      requires k < |names| == |workers| == slots.Length
    {
      match workers[k]
      case Ready(name, slot) => name == names[k] && slot == k && slots[k] == None && k !in writes
      case Fetched(bucket, slot) => bucket == Wanted(k) && slot == k && slots[k] == None && k !in writes
      case Finished => slots[k] == Wanted(k) && k in writes && (Wanted(k).None? ==> failed)
    }

    ghost predicate Valid()
      reads this, slots
    {
      && |names| == |workers| == slots.Length
      && (forall k: nat | k < |names| :: Progress(k))
      && (forall w <- writes :: w < |names|)
      && (forall m, n | 0 <= m < n < |writes| :: writes[m] != writes[n])
      && (failed ==> exists k: nat :: k < |names| && Wanted(k).None?)
    }

    constructor (tasks: seq<GoString>, answers: GoString -> Answer)
      ensures Valid() && fresh(slots) && this.names == tasks && this.answers == answers
      ensures forall k | 0 <= k < |tasks| :: !workers[k].Finished?
    {
      this.names := tasks;
      this.answers := answers;
      slots := new Option<Bucket>[|tasks|](_ => None);
      workers := seq(|tasks|, k requires 0 <= k < |tasks| => Ready(tasks[k], k));
      failed := false;
      writes := [];
    }

    method Step(w: nat)
      requires Valid() && w < |names|
      modifies this, slots
      ensures Valid()
      ensures workers == old(workers)[w := workers[w]]
      ensures old(workers[w]).Ready? ==> workers[w].Fetched?
      ensures !old(workers[w]).Ready? ==> workers[w].Finished?
    {
      assert Progress(w);
      label before:
      match workers[w] {
        case Ready(name, slot) =>
          workers := workers[w := Fetched(GetParallelFSBucket(name, answers(name)), slot)];
        case Fetched(bucket, slot) =>
          slots[slot] := bucket;
          writes := writes + [slot];
          workers := workers[w := Finished];
          failed := failed || bucket.None?;
        case Finished =>
      }
      forall k: nat | k < |names| ensures Progress(k) {
        assert old@before(Progress(k));
      }
      if failed && !old(failed) { assert Wanted(w).None?; }
    }

    /** For every schedule: each slot is in bounds and written exactly once, slot k ends with the bucket of task
        k, and the group fails exactly when some worker does. */
    method Wait(schedule: seq<nat>)
      requires Valid()
      modifies this, slots
      ensures Valid()
      ensures slots[..] == Fetch(names, answers)
      ensures failed <==> !AllSome(Fetch(names, answers))
      ensures forall k: nat :: k in writes <==> k < |names|
      ensures forall m, n | 0 <= m < n < |writes| :: writes[m] != writes[n]
    {
      for t := 0 to |schedule|
        invariant Valid()
      {
        if schedule[t] < |workers| { Step(schedule[t]); }
      }
      for w := 0 to |workers|
        invariant Valid()
        invariant forall k | 0 <= k < w :: workers[k].Finished?
      {
        Step(w);
        Step(w);
      }
      var fetched := Fetch(names, answers);
      forall k: nat | k < |names| ensures slots[k] == fetched[k] && k in writes && (fetched[k].None? ==> failed) {
        assert Progress(k);
      }
    }
  }

  // ---------- ListBuckets ----------

  function Min(i: int, j: int): int {
    if i < j then i else j
  }

  /** The position of the marker: -1 for none, the length of the listing if it is gone. */
  method ScanMarker(names: seq<GoString>, marker: GoString) returns (i: int)
    ensures Reachable(names, marker) ==> i + 1 == After(names, marker)
    ensures !Reachable(names, marker) ==> i == |names|
    ensures -1 <= i <= |names|
  {
    i := -1;
    if marker != [] {
      i := 0;
      while i < |names| && marker != names[i]
        invariant 0 <= i <= |names| && forall m | 0 <= m < i :: names[m] != marker
      {
        i := i + 1;
      }
    }
  }

  /** An error if OBS does not answer with a listing. With one, a panic exactly when the marker is gone or the limit
      is negative; otherwise the page after the marker, in the order of the listing whatever the schedule, and an
      error exactly when a worker fails. */
  method ListBuckets(listing: Option<seq<GoString>>, marker: GoString, limit: int, answers: GoString -> Answer,
                     schedule: seq<nat>)
    returns (r: ListResult)
    ensures listing.None? ==> r.Error?
    ensures listing.Some? ==> (r.Panic? <==> !Reachable(listing.value, marker) || limit < 0)
    ensures listing.Some? && !r.Panic? ==>
              var fetched := Fetch(PageNames(listing.value, marker, limit), answers);
              r == if AllSome(fetched) then Buckets(Values(fetched)) else Error
    ensures listing.Some? && !r.Panic? ==>
              var page := PageNames(listing.value, marker, limit);
              && (r.Buckets? ==> BucketsOf(page, answers, r.list))
              && (r.Error? <==> exists name <- page :: !Usable(answers(name)))
  {
    if listing.None? { return Error; }
    var names := listing.value;
    var i := ScanMarker(names, marker);
    var bucketCount := Min(|names| - 1 - i, limit);
    if bucketCount < 0 {
      return Panic;
    }
    var tasks := [];
    var k, j := 0, i + 1;
    while j <= i + limit && j < |names|
      invariant j == i + 1 + k && 0 <= k <= bucketCount
      invariant tasks == names[i + 1..j]
    {
      tasks := tasks + [names[j]];
      k, j := k + 1, j + 1;
    }
    assert tasks == PageNames(names, marker, limit);
    var group := new Group(tasks, answers);
    group.Wait(schedule);
    FetchFails(tasks, answers);
    if group.failed {
      return Error;
    }
    r := Buckets(Values(group.slots[..]));
  }

  // ---------- ListVolumes ----------

  function NextToken(page: seq<GoString>, limit: int): GoString {
    if |page| > 0 && |page| == limit then page[|page| - 1] else []
  }

  method ListVolumes(listing: Option<seq<GoString>>, token: GoString, maxEntries: int, answers: GoString -> Answer,
                     schedule: seq<nat>)
    returns (r: ReplyResult)
    ensures r.InvalidArgument? <==> maxEntries < 0
    ensures maxEntries >= 0 && listing.None? ==> r.Failed?
    ensures r.Crashed? <==> maxEntries >= 0 && listing.Some? && !Reachable(listing.value, token)
    ensures maxEntries >= 0 && listing.Some? && Reachable(listing.value, token) ==>
              var page := PageNames(listing.value, token, maxEntries);
              var fetched := Fetch(page, answers);
              r == if AllSome(fetched) then Replied(Reply(Values(fetched), NextToken(page, maxEntries))) else Failed
    ensures maxEntries >= 0 && listing.Some? && Reachable(listing.value, token) ==>
              var page := PageNames(listing.value, token, maxEntries);
              && (r.Replied? ==>
                    && BucketsOf(page, answers, r.reply.entries)
                    && r.reply.nextToken == if page != [] && |page| == maxEntries then page[|page| - 1] else [])
              && (r.Failed? <==> exists name <- page :: !Usable(answers(name)))
  {
    if maxEntries < 0 {
      return InvalidArgument;
    }
    var volumes := ListBuckets(listing, token, maxEntries, answers, schedule);
    match volumes {
      case Panic => return Crashed;
      case Error => return Failed;
      case Buckets(list) =>
        ghost var page := PageNames(listing.value, token, maxEntries);
        assert forall k | 0 <= k < |page| :: list[k].name == page[k] by {
          assert list == Values(Fetch(page, answers));
        }
        var entries := [];
        for k := 0 to |list|
          invariant entries == list[..k]
        {
          entries := entries + [list[k]];
        }
        var next := [];
        if |list| > 0 && |list| == maxEntries {
          next := list[|list| - 1].name;
        }
        r := Replied(Reply(entries, next));
    }
  }
}
