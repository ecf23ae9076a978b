/** Deleting an OBS bucket: abort the uploads, empty the bucket batch by batch, delete it. Requests may fail and
    others may write and delete while it runs; a script says what happens between the driver's requests. */
module ObsDelete {
  import opened Division
  import opened Sequences
  import opened Wrappers

  type Key = string

  datatype ErrorCode = InvalidArgument | NotFound | Unavailable | Internal

  datatype Outcome = Done | Failed(code: ErrorCode)

  /** The next request goes through, fails without effect, is carried out but its answer gets lost, or (for a batch
      of deletions) is carried out for the first n keys only; or, before it, somebody writes or deletes an object,
      starts or aborts an upload, or removes the bucket, as another deletion of the same bucket does. */
  datatype Happening =
    | Passes | Fails | Loses | Partial(n: nat)
    | Writes(key: Key) | Deletes(key: Key) | Starts(upload: Key) | Aborts(upload: Key) | Vanishes

  // What one listing of objects or uploads returns at most.
  const PAGE := 1000

  function FirstOf(keys: seq<Key>): seq<Key> {
    if |keys| <= PAGE then keys else keys[..PAGE]
  }

  function RestOf(keys: seq<Key>): seq<Key> {
    if |keys| <= PAGE then [] else keys[PAGE..]
  }

  function Minus(keys: seq<Key>, batch: seq<Key>): (r: seq<Key>)
    ensures Distinct(keys) ==> Distinct(r)
    ensures forall k :: k in r <==> k in keys && k !in batch
    ensures |r| <= |keys|
    ensures (exists k <- keys :: k in batch) ==> |r| < |keys|
  {
    if keys == [] then []
    else
      var rest := Minus(keys[1..], batch);
      if keys[0] in batch then rest else [keys[0]] + rest
  }

  lemma {:induction false} NothingToRemove(keys: seq<Key>, batch: seq<Key>)
    requires forall k <- keys :: k !in batch
    ensures Minus(keys, batch) == keys
  {
    if keys == [] {
    } else {
      NothingToRemove(keys[1..], batch);
    }
  }

  lemma {:induction false} RemovePrefix(keys: seq<Key>, done: nat, n: nat)
    requires Distinct(keys) && done <= n <= |keys|
    ensures Minus(keys[done..], keys[..n]) == keys[n..]
    decreases n - done
  {
    if done == n {
      NothingToRemove(keys[n..], keys[..n]);
    } else {
      assert keys[done..][0] in keys[..n];
      assert keys[done..][1..] == keys[done + 1..];
      RemovePrefix(keys, done + 1, n);
    }
  }

  lemma EmptiesBatch(keys: seq<Key>, batch: seq<Key>)
    requires Distinct(keys) && batch == FirstOf(keys)
    ensures Minus(keys, batch) == RestOf(keys)
  {
    assert keys[0..] == keys && batch == keys[..|batch|];
    RemovePrefix(keys, 0, |batch|);
  }

  /** Batches of PAGE, rounded up. */
  function Batches(n: nat): nat {
    Quotient(n + PAGE - 1, PAGE)
  }

  lemma BatchesCount(n: nat)
    ensures Batches(n) == (n + 999) / 1000
  {
    QuotientIsDivision(n + PAGE - 1, PAGE);
  }

  lemma OneBatchLess(n: nat)
    requires n > 0
    ensures Batches(n) == 1 + Batches(if n <= PAGE then 0 else n - PAGE)
  {
    BatchesCount(n);
  }

  class ObsBucket {
    var present: bool
    var parallelFs: bool
    var objects: seq<Key>
    var uploads: seq<Key>
    var script: seq<Happening>
    // How many requests failed or lost their answer.
    ghost var failures: nat
    // How often the bucket was begun to be emptied, and how often it was asked to be deleted.
    ghost var cleanings: nat
    ghost var deletions: nat

    ghost predicate Valid()
      reads this
    {
      Distinct(objects) && Distinct(uploads) && (!present ==> objects == [] && uploads == [])
    }

    /** No object or upload is new, except what the script brings. */
    twostate predicate OnlyShrinks()
      reads this
    {
      && (present ==> old(present) && parallelFs == old(parallelFs))
      && ((forall h <- old(script) :: !h.Starts?) ==> forall u <- uploads :: u in old(uploads))
      && ((forall h <- old(script) :: !h.Writes?) ==> forall o <- objects :: o in old(objects))
      && (forall h <- script :: h in old(script)) && |script| <= |old(script)|
      && |uploads| + |script| <= |old(uploads)| + |old(script)|
      && |objects| + |script| <= |old(objects)| + |old(script)|
    }

    twostate predicate SameStage()
      reads this
    {
      cleanings == old(cleanings) && deletions == old(deletions)
    }

    /** What happens up to the driver's next request, and how that request fares. */
    method Request() returns (fate: Happening)
      requires Valid()
      modifies this
      ensures Valid() && OnlyShrinks() && SameStage()
      ensures fate.Passes? || fate.Fails? || fate.Loses? || fate.Partial?
      ensures failures == old(failures) + if fate.Fails? || fate.Loses? then 1 else 0
      ensures present && |objects| + |script| == |old(objects)| + |old(script)| ==>
                forall o <- old(objects) :: o in objects
      ensures old(script) == [] ==> fate.Passes? && present == old(present)
      ensures old(script) == [] ==> objects == old(objects) && uploads == old(uploads) && script == []
    {
      fate := Passes;
      while script != []
        invariant Valid() && OnlyShrinks() && SameStage() && fate.Passes? && failures == old(failures)
        invariant present && |objects| + |script| == |old(objects)| + |old(script)| ==>
                    forall o <- old(objects) :: o in objects
        invariant old(script) == [] ==> present == old(present) && objects == old(objects) && uploads == old(uploads)
        decreases |script|
      {
        var next := script[0];
        assert next in script;
        script := script[1..];
        match next {
          case Writes(key) => if present && key !in objects { objects := objects + [key]; }
          case Deletes(key) => objects := Minus(objects, [key]);
          case Aborts(upload) => uploads := Minus(uploads, [upload]);
          case Starts(upload) => if present && upload !in uploads { uploads := uploads + [upload]; }
          case Vanishes => present, objects, uploads := false, [], [];
          case _ =>
            fate := next;
            failures := failures + if fate.Fails? || fate.Loses? then 1 else 0;
            return;
        }
      }
    }

    method GetParallelFSBucket() returns (err: Option<ErrorCode>)
      requires Valid()
      modifies this
      ensures Valid() && OnlyShrinks() && SameStage()
      ensures old(script) == [] ==> present == old(present) && objects == old(objects) && uploads == old(uploads)
      ensures old(script) == [] ==>
                err == if !present then Some(NotFound) else if !parallelFs then Some(Unavailable) else None
      ensures err.None? || err == Some(Unavailable) ==> present && (parallelFs <==> err.None?)
      ensures err.None? ==> old(present) && old(parallelFs)
      ensures err == Some(NotFound) ==> !present
      ensures err == Some(Internal) <==> failures != old(failures)
    {
      label start:
      var metadata := Request();
      if metadata.Fails? || metadata.Loses? { return Some(Internal); }
      if !present { return Some(NotFound); }
      if !parallelFs { return Some(Unavailable); }
      assert old@start(present);
      var quota := Request();
      if quota.Fails? || quota.Loses? { return Some(Internal); }
      if !present { return Some(NotFound); }
      err := None;
    }

    /** One request to abort an upload, which fails if the upload is gone. */
    method AbortUpload(upload: Key) returns (ok: bool)
      requires Valid()
      modifies this
      ensures Valid() && OnlyShrinks() && SameStage()
      ensures ok ==> failures == old(failures) && upload !in uploads
      ensures old(script) == [] && old(present) && upload in old(uploads) ==>
                ok && present && script == [] && uploads == Minus(old(uploads), [upload]) && objects == old(objects)
    {
      var abort := Request();
      if abort.Fails? || !present || upload !in uploads { return false; }
      uploads := Minus(uploads, [upload]);
      ok := !abort.Loses?;
    }

    /** Aborts the uploads that one listing shows. Nil means that no request failed, and if there were no more than a
        listing shows and none was started, that none is left. */
    method AbortMultipartUpload() returns (err: Option<ErrorCode>)
      requires Valid()
      modifies this
      ensures Valid() && OnlyShrinks() && SameStage()
      ensures old(script) == [] && old(present) ==>
                err.None? && present && script == [] && uploads == RestOf(old(uploads)) && objects == old(objects)
      ensures err.None? || err == Some(NotFound) ==> failures == old(failures)
      ensures err.None? && |old(uploads)| <= 1000 && (forall h <- old(script) :: !h.Starts?) ==> uploads == []
    {
      var listed := Request();
      if listed.Fails? || listed.Loses? { return Some(Internal); }
      if !present { return Some(NotFound); }
      if forall h <- old(script) :: !h.Starts? { FewerDistinct(uploads, old(uploads)); }
      var ok := AbortListed(FirstOf(uploads));
      err := if ok then None else Some(Internal);
    }

    /** Aborts these uploads one by one. */
    method AbortListed(jobs: seq<Key>) returns (ok: bool)
      requires Valid() && jobs == FirstOf(uploads)
      modifies this
      ensures Valid() && OnlyShrinks() && SameStage()
      ensures ok ==> failures == old(failures)
      ensures ok && |old(uploads)| <= 1000 && (forall h <- old(script) :: !h.Starts?) ==> uploads == []
      ensures old(script) == [] && old(present) ==>
                ok && present && script == [] && uploads == RestOf(old(uploads)) && objects == old(objects)
    {
      ghost var quiet := |uploads| <= 1000 && forall h <- script :: !h.Starts?;
      for i := 0 to |jobs|
        invariant Valid() && OnlyShrinks() && SameStage() && failures == old(failures)
        invariant old(script) == [] && old(present) ==>
                    present && script == [] && uploads == old(uploads)[i..] && objects == old(objects)
        invariant quiet ==> forall u <- uploads :: u in jobs[i..]
      {
        if old(script) == [] && old(present) {
          assert uploads[..1] == [jobs[i]] && uploads[0..] == uploads;
          RemovePrefix(uploads, 0, 1);
        }
        ok := AbortUpload(jobs[i]);
        if !ok { return; }
      }
      assert uploads != [] ==> uploads[0] in uploads;
      ok := true;
    }

    /** One request to delete these objects: how many OBS confirms. */
    method DeleteBatch(batch: seq<Key>) returns (deleteds: Option<nat>)
      requires Valid() && batch != [] && batch[0] in objects
      modifies this
      ensures Valid() && OnlyShrinks() && SameStage()
      ensures deleteds == Some(|batch|) ==> failures == old(failures)
      ensures deleteds == Some(|batch|) ==> present && |objects| + |script| < |old(objects)| + |old(script)|
      ensures old(script) == [] && old(present) ==>
                deleteds == Some(|batch|) && present && script == [] && uploads == old(uploads)
                && objects == Minus(old(objects), batch)
    {
      var deletion := Request();
      if deletion.Fails? || !present { return None; }
      var n := if deletion.Partial? && deletion.n < |batch| then deletion.n else |batch|;
      assert batch[..|batch|] == batch && batch[0] in batch;
      objects := Minus(objects, batch[..n]);
      deleteds := if deletion.Loses? then None else Some(n);
    }

    /** Returns nil only when a listing was empty; ends however many objects others still write; and alone it takes
        one round for every thousand objects. */
    method DeleteObjects() returns (err: Option<ErrorCode>, ghost rounds: nat)
      requires Valid()
      modifies this
      ensures Valid() && OnlyShrinks() && SameStage()
      ensures err.None? ==> present && objects == []
      ensures err.None? || err == Some(NotFound) ==> failures == old(failures)
      ensures old(script) == [] && old(present) ==>
                err.None? && uploads == old(uploads) && script == [] && rounds == (|old(objects)| + 999) / 1000
    {
      rounds := 0;
      BatchesCount(|objects|);
      while true
        invariant Valid() && OnlyShrinks() && SameStage() && failures == old(failures)
        invariant old(script) == [] && old(present) ==>
                    present && uploads == old(uploads) && script == []
                    && rounds + Batches(|objects|) == Batches(|old(objects)|)
        decreases |objects| + |script|
      {
        var listed := Request();
        if listed.Fails? || listed.Loses? { return Some(Internal), rounds; }
        if !present { return Some(NotFound), rounds; }
        var contents := FirstOf(objects);
        var objectCount := |contents|;
        if objectCount == 0 { break; }
        OneBatchLess(|objects|);
        var batch := [];
        for k := 0 to objectCount
          invariant batch == contents[..k]
        {
          batch := batch + [contents[k]];
        }
        if old(script) == [] { EmptiesBatch(objects, batch); }
        var deleteds := DeleteBatch(batch);
        if deleteds != Some(objectCount) { return Some(Internal), rounds; }
        rounds := rounds + 1;
      }
      err := None;
    }

    method CleanBucket() returns (err: Option<ErrorCode>)
      requires Valid()
      modifies this
      ensures Valid() && OnlyShrinks()
      ensures err.None? ==> present && objects == []
      ensures err.None? || err == Some(NotFound) ==> failures == old(failures)
      ensures cleanings == old(cleanings) + 1 && deletions == old(deletions)
      ensures err.None? && |old(uploads)| <= 1000 && (forall h <- old(script) :: !h.Starts?) ==> uploads == []
      ensures old(script) == [] && old(present) ==>
                err.None? && script == [] && uploads == RestOf(old(uploads))
    {
      cleanings := cleanings + 1;
      err := AbortMultipartUpload();
      if err.Some? { return; }
      ghost var rounds;
      err, rounds := DeleteObjects();
      assert uploads != [] ==> uploads[0] in uploads;
    }

    method DeleteBucket() returns (err: Option<ErrorCode>)
      requires Valid()
      modifies this
      ensures Valid() && OnlyShrinks()
      ensures err.None? || err == Some(NotFound) ==> !present
      ensures err == Some(Internal) <==> failures != old(failures)
      ensures cleanings == old(cleanings) && deletions == old(deletions) + 1
      ensures old(script) == [] && old(present) && old(objects) == [] ==>
                if old(uploads) == [] then err.None?
                else err == Some(Unavailable) && present && uploads == old(uploads) && objects == []
    {
      deletions := deletions + 1;
      var deletion := Request();
      if deletion.Fails? { return Some(Internal); }
      err := if !present then Some(NotFound) else if objects != [] || uploads != [] then Some(Unavailable) else None;
      if err.None? { present := false; }
      if deletion.Loses? { err := Some(Internal); }
    }

    /** OK means the bucket is gone and no request of the call failed; once the call has begun to empty the bucket, it
        takes its own request to delete it, even if the bucket vanishes meanwhile. A call that nothing disturbs succeeds
        exactly when the bucket is gone already or is a parallel file system whose uploads fit one listing; otherwise
        it leaves a bucket without objects and with a thousand uploads less. A bucket of another kind is never
        touched. */
    method DeleteVolume(volName: string) returns (r: Outcome)
      requires Valid()
      modifies this
      ensures Valid() && OnlyShrinks()
      ensures r.Done? ==> !present && failures == old(failures)
      ensures r.Done? ==> deletions - old(deletions) == cleanings - old(cleanings) <= 1
      ensures volName == "" ==> r == Failed(InvalidArgument) && unchanged(this)
      ensures volName != "" && old(script) == [] ==>
                if !old(present) then r.Done?
                else if !old(parallelFs) then
                  r == Failed(Unavailable) && present && objects == old(objects) && uploads == old(uploads)
                else if |old(uploads)| <= 1000 then r.Done?
                else r == Failed(Internal) && present && objects == [] && uploads == old(uploads)[1000..]
    {
      if volName == "" { return Failed(InvalidArgument); }
      var err := GetParallelFSBucket();
      if err.Some? {
        return if err.value == NotFound then Done else Failed(err.value);
      }
      err := CleanBucket();
      if err.Some? { return Failed(err.value); }
      err := DeleteBucket();
      if err.Some? {
        return if err.value == NotFound then Done else Failed(Internal);
      }
      r := Done;
    }

    /** However many calls failed before, at whatever step, and whatever objects were written meanwhile, one more
        call that nothing disturbs removes the bucket. */
    method DeleteVolumeRetried(volName: string, disturbed: seq<seq<Happening>>) returns (r: Outcome)
      requires Valid() && volName != ""
      requires present ==> parallelFs && |uploads| <= 1000
      requires forall s <- disturbed, h <- s :: !h.Starts?
      modifies this
      ensures Valid() && r.Done? && !present
    {
      for i := 0 to |disturbed|
        invariant Valid()
        invariant present ==> parallelFs && |uploads| <= PAGE
      {
        script := disturbed[i];
        label call:
        var failed := DeleteVolume(volName);
        if present { FewerDistinct(uploads, old@call(uploads)); }
      }
      script := [];
      r := DeleteVolume(volName);
    }

    /** Uploads beyond one listing cost further calls: one for every thousand. */
    method DeleteVolumeUntilDone(volName: string) returns (calls: nat)
      requires Valid() && volName != "" && present && parallelFs && script == []
      modifies this
      ensures Valid() && !present
      ensures calls == if old(uploads) == [] then 1 else (|old(uploads)| + 999) / 1000
    {
      var r := DeleteVolume(volName);
      calls := 1;
      BatchesCount(|old(uploads)|);
      if old(uploads) != [] { OneBatchLess(|old(uploads)|); }
      while !r.Done?
        invariant Valid() && (present ==> parallelFs && script == [] && uploads != [])
        invariant r.Done? <==> !present
        invariant present ==> old(uploads) != [] && calls + Batches(|uploads|) == Batches(|old(uploads)|)
        invariant !present ==> calls == if old(uploads) == [] then 1 else Batches(|old(uploads)|)
        decreases |uploads|
      {
        OneBatchLess(|uploads|);
        r := DeleteVolume(volName);
        calls := calls + 1;
      }
    }
  }

  lemma FewerDistinct(some: seq<Key>, all: seq<Key>)
    requires Distinct(some) && forall k <- some :: k in all
    ensures |some| <= |all|
  {
    DistinctCount(some);
    CountAtMost(all);
    assert Elements(some) <= Elements(all);
    SubsetCount(Elements(some), Elements(all));
  }

  function Elements(keys: seq<Key>): set<Key> {
    set k <- keys
  }

  lemma {:induction false} DistinctCount(keys: seq<Key>)
    requires Distinct(keys)
    ensures |Elements(keys)| == |keys|
  {
    if keys == [] {
    } else {
      DistinctCount(keys[1..]);
      assert Elements(keys) == {keys[0]} + Elements(keys[1..]);
    }
  }

  lemma {:induction false} CountAtMost(keys: seq<Key>)
    ensures |Elements(keys)| <= |keys|
  {
    if keys == [] {
    } else {
      CountAtMost(keys[1..]);
      assert Elements(keys) == {keys[0]} + Elements(keys[1..]);
    }
  }

  lemma SubsetCount(a: set<Key>, b: set<Key>)
    requires a <= b
    ensures |a| <= |b|
  {
    assert b == a + (b - a);
  }
}
