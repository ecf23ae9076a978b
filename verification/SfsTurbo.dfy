/** The sizes of SFS Turbo shares: between 500 and 32768 GiB, growing by at least 100 GiB at a time. */
module SfsTurbo {
  import opened Capacity
  import opened GoInts
  import Polling
  import opened Wrappers

  const MIN_SIZE := 500
  const MAX_SIZE := 32768
  const STEP := 100

  /** How the requests of one call fare: the first read fails; the expansion is refused; or it is accepted, and then
      the cloud carries it out or not, the wait sees these views of the share, of which a success may be that of an
      earlier expansion, and the last read works or not. */
  datatype Fate = ReadFails | Refused | Accepted(grows: bool, views: nat -> Polling.View, reread: bool)

  /** The wait for the expansion sees success before anything else that is final. */
  ghost predicate SeesSuccess(views: nat -> Polling.View) {
    Polling.Comes(views, "121", "221")
  }

  ghost predicate Fine(fate: Fate) {
    fate.Accepted? && fate.grows && SeesSuccess(fate.views) && fate.reread
  }

  datatype Reply = Replied(capacityBytes: int) | InvalidArgument | OutOfRange | Failed

  // ---------- Which size ----------

  predicate LegalSize(size: int) {
    MIN_SIZE <= size <= MAX_SIZE
  }

  /** A share may be expanded to a size that holds what is asked for and is a whole step away. */
  predicate LegalTarget(current: int, asked: int, size: int) {
    asked <= size && current + STEP <= size <= MAX_SIZE
  }

  ghost predicate NoLegalSize(current: int, asked: int) {
    asked > MAX_SIZE || (current < asked && forall n :: !LegalTarget(current, asked, n))
  }

  /** The size of a new share of so many bytes, if there may be one. */
  method SizeForCreate(required: int) returns (size: Option<int>)
    ensures size.None? <==> required > 32768 * GIB
    ensures size.Some? ==> 500 <= size.value <= 32768 && size.value * GIB >= required
    ensures size.Some? ==> forall n :: LegalSize(n) && n * GIB >= required ==> n >= size.value
  {
    var sizeInGiB := RoundUpSize(required, GIB);
    forall n ensures n * GIB >= required <==> n >= sizeInGiB { RoundUpIsLeast(required, GIB, n); }
    assert MAX_SIZE * GIB >= required <==> MAX_SIZE >= sizeInGiB;
    if sizeInGiB > MAX_SIZE { return None; }
    if sizeInGiB < MIN_SIZE { sizeInGiB := MIN_SIZE; }
    size := Some(sizeInGiB);
  }

  /** The size that a share too small is to have. */
  method NextSize(current: int, asked: int) returns (size: Option<int>)
    requires current < asked <= MAX_SIZE
    ensures var target := if asked >= current + 100 then asked else current + 100;
            size == if target > 32768 then None else Some(target)
    ensures size.None? <==> NoLegalSize(current, asked)
    ensures size.Some? ==> LegalTarget(current, asked, size.value)
    ensures size.Some? ==> forall n :: LegalTarget(current, asked, n) ==> n >= size.value
  {
    var sizeInGiB := asked;
    if sizeInGiB - current < STEP {
      sizeInGiB := current + STEP;
      if sizeInGiB > MAX_SIZE { return None; }
    }
    assert LegalTarget(current, asked, sizeInGiB);
    size := Some(sizeInGiB);
  }

  // ---------- Expanding a share ----------

  class Share {
    var size: int

    constructor (size: int)
      ensures this.size == size
    {
      this.size := size;
    }

    /** Submits, waits, and compares what the share has become with what was asked for: success means that it is
        that, even if the wait saw an old success; and whatever is reported, the cloud may have grown the share. */
    method ExpandShareCompleted(newSize: int, fate: Fate) returns (ok: bool)
      modifies this
      ensures ok ==> size == newSize
      ensures ok <==> fate.Accepted? && SeesSuccess(fate.views) && fate.reread && (fate.grows || old(size) == newSize)
      ensures size == if fate.Accepted? && fate.grows then newSize else old(size)
    {
      if !fate.Accepted? { return false; }
      if fate.grows { size := newSize; }
      var verdict, slept;
      ghost var made;
      verdict, slept, made := Polling.WaitUntil(Polling.ShareExpanded, fate.views);
      if verdict != Polling.Success { return false; }
      if !fate.reread { return false; }
      ok := size == newSize;
    }

    /** A share too small grows to the least legal size, and the call is rejected exactly when there is none. The
        reply names the size in bytes exactly if the share did not grow; otherwise it names it in GiB. */
    method ControllerExpandVolume(volumeID: string, required: Option<int>, fate: Fate) returns (r: Reply)
      modifies this
      ensures r.InvalidArgument? <==> volumeID == "" || required.None?
      ensures r.InvalidArgument? || r.OutOfRange? ==> size == old(size)
      ensures volumeID != "" && required.Some? ==>
                var asked := RoundUpSize(required.value, GIB);
                var target := if asked >= old(size) + 100 then asked else old(size) + 100;
                && (r.OutOfRange? <==>
                      asked > 32768 || (!fate.ReadFails? && old(size) < asked && target > 32768))
                && (r.Failed? <==>
                      && !r.OutOfRange?
                      && (fate.ReadFails? || (old(size) < asked && !Fine(fate))))
                && size == (if !r.OutOfRange? && old(size) < asked && fate.Accepted? && fate.grows then target
                            else old(size))
                && (Fine(fate) ==> r.OutOfRange? == NoLegalSize(old(size), asked))
                && (size != old(size) ==>
                      && old(size) < asked
                      && LegalTarget(old(size), asked, size)
                      && forall n :: LegalTarget(old(size), asked, n) ==> n >= size)
                && (r.Replied? ==>
                      && size * GIB >= required.value
                      && (size == old(size) ==> asked <= size)
                      && r.capacityBytes == (if size == old(size) then Wrap64(size * GIB) else size)
                      && (LegalSize(old(size)) ==> (r.capacityBytes == size * GIB <==> size == old(size))))
                && (Fine(fate) ==> r.Replied? || r.OutOfRange?)
    {
      if volumeID == "" || required.None? { return InvalidArgument; }
      var sizeInGiB := RoundUpSize(required.value, GIB);
      if sizeInGiB > MAX_SIZE { return OutOfRange; }
      if fate.ReadFails? { return Failed; }
      var currentSizeInGiB := size;
      if currentSizeInGiB >= sizeInGiB {
        RoundUpIsLeast(required.value, GIB, currentSizeInGiB);
        BytesSurviveIff(currentSizeInGiB);
        return Replied(Wrap64(currentSizeInGiB * GIB));
      }
      var target := NextSize(currentSizeInGiB, sizeInGiB);
      if target.None? { return OutOfRange; }
      sizeInGiB := target.value;
      RoundUpIsLeast(required.value, GIB, sizeInGiB);
      var ok := ExpandShareCompleted(sizeInGiB, fate);
      if !ok { return Failed; }
      r := Replied(sizeInGiB);
    }

    /** Any run of expansions of a share the driver made: its size stays legal and never shrinks, and it grows at
        most 322 times. */
    method Expansions(volumeID: string, calls: seq<(int, Fate)>) returns (replies: seq<Reply>, grown: nat)
      requires LegalSize(size)
      modifies this
      ensures 500 <= size <= 32768 && size >= old(size) + 100 * grown && grown <= 322
      ensures |replies| == |calls|
      ensures forall i | 0 <= i < |calls| && replies[i].Replied? :: size * GIB >= calls[i].0
    {
      replies, grown := [], 0;
      for k := 0 to |calls|
        invariant LegalSize(size) && size >= old(size) + STEP * grown && |replies| == k
        invariant forall i | 0 <= i < k && replies[i].Replied? :: size * GIB >= calls[i].0
      {
        var before := size;
        var r := ControllerExpandVolume(volumeID, Some(calls[k].0), calls[k].1);
        replies := replies + [r];
        if size != before { grown := grown + 1; }
        MultiplesOrdered(before, size, GIB);
      }
    }

    /** And 322 times is possible: ask again and again for one GiB more. */
    method GrowByOneGiB(volumeID: string) returns (grown: nat)
      requires size == MIN_SIZE && volumeID != ""
      modifies this
      ensures grown == 322 && size == 32700
    {
      var views := (i: nat) => Polling.Seen("221");
      var fate := Accepted(true, views, true);
      assert views(0) == Polling.Seen("221") && Polling.CheckFor(Polling.ShareExpanded, views(0)) == Polling.Done;
      assert Polling.ChecksFor(Polling.ShareExpanded, views)(0) == Polling.Done;
      grown := 0;
      while grown < 322
        invariant grown <= 322 && Fine(fate) && size == MIN_SIZE + STEP * grown
      {
        var before := size;
        RoundUpIsLeast((before + 1) * GIB, GIB, before + 1);
        RoundUpIsLeast((before + 1) * GIB, GIB, before);
        assert LegalTarget(before, before + 1, before + STEP);
        var r := ControllerExpandVolume(volumeID, Some((before + 1) * GIB), fate);
        grown := grown + 1;
      }
    }
  }
}
