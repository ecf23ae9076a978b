/** Expanding an EVS volume: what the request asks for in bytes, and the size in GiB the cloud ends up with. */
module EvsExpand {
  import opened Capacity
  import opened GoInts
  import opened Wrappers

  datatype Range = Range(required: int, limit: int)

  /** How the requests of one call fare: the read fails, the resize is refused, its job fails, or the driver gives
      up waiting and the resize takes effect all the same. */
  datatype Fate = Fine | ReadFails | Refused | JobFails | TimesOut

  datatype Reply = Expanded(capacityBytes: int) | InvalidArgument | OutOfRange | Failed

  function SizeAsked(range: Range): int {
    RoundUpSize(range.required, GIB)
  }

  lemma SizeIsLeast(range: Range)
    ensures forall n :: n * GIB >= range.required <==> n >= SizeAsked(range)
  {
    forall n ensures n * GIB >= range.required <==> n >= SizeAsked(range) {
      RoundUpIsLeast(range.required, GIB, n);
    }
  }

  /** By how much a size may go over a limit that its bytes kept, and when it does. */
  lemma LimitPassed(range: Range)
    requires range.limit > 0 && range.limit >= range.required
    ensures SizeAsked(range) * GIB < range.limit + GIB
    ensures SizeAsked(range) * GIB > range.limit <==> range.limit / GIB < SizeAsked(range)
  {
    RoundUpBrackets(range.required, GIB);
  }

  class EvsVolume {
    var size: int

    constructor (size: nat)
      ensures this.size == size
    {
      this.size := size;
    }

    /** services.ExpandVolume: whether it reports success. */
    method ExpandVolume(newSize: int, fate: Fate) returns (ok: bool)
      modifies this
      ensures ok <==> fate == Fine
      ensures size == if fate == Fine || fate == TimesOut then newSize else old(size)
    {
      ok := false;
      match fate {
        case Fine => size := newSize; ok := true;
        case TimesOut => size := newSize;
        case _ =>
      }
    }

    /** The size never shrinks. If the call succeeds the volume holds the required bytes and is no larger than that
        takes, unless it was before. A resize that passed the limit check ends below the limit plus one GiB, and
        goes over the limit exactly if the limit is not a whole number of GiB large enough. */
    method ControllerExpandVolume(volumeID: string, range: Option<Range>, fate: Fate) returns (r: Reply)
      requires range.Some? ==> Int64(range.value.required) && Int64(range.value.limit)
      modifies this
      ensures size >= old(size)
      ensures r.InvalidArgument? <==> volumeID == "" || range.None?
      ensures r.OutOfRange? <==>
                volumeID != "" && range.Some? && range.value.limit > 0 && range.value.limit < range.value.required
      ensures r.InvalidArgument? || r.OutOfRange? ==> size == old(size)
      ensures r.Failed? <==> !r.InvalidArgument? && !r.OutOfRange?
                             && (fate == ReadFails || (old(size) * GIB < range.value.required && fate != Fine))
      ensures range.Some? ==> size == old(size) || size == SizeAsked(range.value)
      ensures r.Expanded? ==>
                && size * GIB >= range.value.required
                && (forall n :: n >= old(size) && n * GIB >= range.value.required ==> n >= size)
                && r.capacityBytes == if size == old(size) then Wrap64(size * GIB) else range.value.required
      ensures range.Some? && range.value.limit > 0 && size != old(size) ==>
                && size * GIB < range.value.limit + GIB
                && (size * GIB > range.value.limit <==> range.value.limit / GIB < SizeAsked(range.value))
    {
      if volumeID == "" { return InvalidArgument; }
      if range.None? { return InvalidArgument; }
      var sizeBytes := range.value.required;
      var sizeGB := RoundUpSize(sizeBytes, GIB);
      var maxSizeBytes := range.value.limit;
      if maxSizeBytes > 0 && maxSizeBytes < sizeBytes { return OutOfRange; }
      if maxSizeBytes > 0 { LimitPassed(range.value); }
      SizeIsLeast(range.value);
      if fate == ReadFails { return Failed; }
      if size >= sizeGB {
        return Expanded(Wrap64(size * GIB));
      }
      var ok := ExpandVolume(sizeGB, fate);
      if !ok { return Failed; }
      r := Expanded(sizeBytes);
    }

    /** Any run of expansions, whatever fails on the way: the volume never shrinks, and in the end it holds what
        every successful call had asked for. */
    method Expansions(volumeID: string, calls: seq<(Range, Fate)>) returns (replies: seq<Reply>)
      requires forall i | 0 <= i < |calls| :: Int64(calls[i].0.required) && Int64(calls[i].0.limit)
      modifies this
      ensures size >= old(size) && |replies| == |calls|
      ensures forall i | 0 <= i < |calls| && replies[i].Expanded? :: size * GIB >= calls[i].0.required
    {
      replies := [];
      for k := 0 to |calls|
        invariant size >= old(size) && |replies| == k
        invariant forall i | 0 <= i < k && replies[i].Expanded? :: size * GIB >= calls[i].0.required
      {
        var r := ControllerExpandVolume(volumeID, Some(calls[k].0), calls[k].1);
        replies := replies + [r];
      }
    }
  }

  /** The limit is compared before rounding: one byte asked for under a limit of one byte makes one GiB. */
  method LimitMayBeExceeded() returns (r: Reply, size: int)
    ensures r.Expanded? && size == 1 && size * GIB > 1
  {
    var volume := new EvsVolume(0);
    r := volume.ControllerExpandVolume("volume", Some(Range(1, 1)), Fine);
    size := volume.size;
  }
}
