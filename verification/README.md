# A verified model of the Huawei Cloud CSI drivers

The repository holds the CSI drivers that attach EVS disks, mount OBS buckets and serve SFS Turbo shares to
Kubernetes. Most of it carries requests to the cloud; what is modelled here is what those requests amount to when
calls overlap, fail, time out and are retried. The cloud is an explicit state, and every request is a step that may
fail before it has an effect or lose its answer after it.

| file | about |
|---|---|
| `EvsProtocol`, `EvsSafety`, `EvsHistory`, `EvsSolo` | the EVS attach/detach protocol as a state machine, and its runs |
| `EvsPaths` | what a call decides at each read and check, in the statuses it sees; courses that succeed |
| `EvsMoves`, `EvsHandlers` | the publish and unpublish handlers, request by request: their executions are the runs of that machine, and its runs are their executions |
| `ObsListing`, `ObsPaging` | the marker scan, the concurrent workers, and what a caller who follows the tokens gets |
| `ObsDelete` | aborting uploads, emptying a bucket, deleting it |
| `Base64`, `AesCbc`, `Canonical`, `MountToken` | the token that makes the host's connector accept a mount command |
| `Capacity`, `EvsExpand`, `SfsTurbo` | rounding sizes, the EVS limit, the SFS Turbo size rules |
| `CreateByName`, `CreateHandlers` | creating volumes, snapshots and shares by name |
| `OffsetPaging`, `Polling`, `NodeMounts` | paging by offset, bounded waiting, the node's mount table |
| `GoStrings`, `GoInts`, `Division`, `Sequences`, `Wrappers` | byte strings and their order; 64-bit integers; division by repeated subtraction; sequences; optional values |

## What is assumed of the cloud

- An attach request is accepted only while the volume is `available`; acceptance makes it `attaching` and records the
  attachment at once. The job's success makes it `in-use` and names a device that is not empty; its failure makes
  the volume available again without attachment. `EvsProtocol` writes these rules out in `SubmitAttach` and `EndJob`.
- A detach request for a server that is not attached is refused with Ecs.0111; otherwise it aims at that server's
  attachment. A detach job whose attachment is gone by the time it works ends either way; the text of a failed job
  carries the job's error code, since the driver prints the whole job.
- A volume starts out available and shows one of the four statuses `available`, `attaching`, `in-use`, `detaching`.
- OBS lists buckets sorted by name, without repetition; a listing of objects or uploads shows at most 1000. It counts
  an object that is gone already as deleted, and refuses to abort an upload that is gone.
- EVS filters a listing by exact name, and what a create request has been accepted for is listed from then on. Sizes
  only grow. What a share reports as its size is its size; whether an expansion was carried out is independent of what
  the wait for it saw.
- AES is any map of 16-byte blocks that decryption inverts, one for each key of 16, 24 or 32 bytes; SHA-256 is any
  function. Sleeps are exact real numbers (Go cuts them to nanoseconds, which only shortens them).
- Mount paths are not nested in one another, and no volume is on the root file system's device.

## What came out

- **The volume is never on two servers, and an unpublish that returns OK always took effect during the call**, with
  any number of overlapping calls (`RunsAreSafe`, `NoHandOver`, `UnpublishTakesEffect`).
- A publish may return OK with an empty device path when calls for one volume overlap: waiting for `in-use` does not
  look at the server. `PublishReturnsLastRead` says exactly when, `OverlapReturnsEmptyPath` is such a run, and
  `SoloPublishHolds` shows that one call at a time, as section "Concurrency" of "RPC Interface" in the CSI
  specification v1.5.0 has the caller see to, rules it out.
- Once it has a listing, `ListBuckets` panics exactly if the marker's bucket is gone or the limit is negative. A limit
  of 0 lists nothing.
- `DeleteVolume` of OBS lists uploads once: with more than 1000 of them it fails, and it takes one call for every
  thousand.
- The canonical text of two parameters `{a: "1", b: "2"}` is also that of `{a: "1&b=2"}`, so a token is accepted with
  parameters it was not made for, even if it was made for clean ones (`TokenAcceptedWithOthers`). Among the maps that
  hold all the names of a clean one, only that one has its text (`TextBindsKeys`), and since the connector asks for
  all five names, a node's command without `&` in its values is bound to its parameters (`TokenBindsParameters`); with one it need not
  be (`RegionMayHideParameter`).
- The EVS limit is compared with the bytes asked for, before they are rounded up: an expansion ends above its limit
  exactly if the limit, in whole GiB, is smaller than the rounded size.
- A successful growth of an SFS Turbo share is answered in GiB where bytes are meant.
- Publishing from a path that is not itself a mount stacks one bind mount for every call.
- Overlapping creates of one name may make two volumes of it, which EVS then refuses until one of them is deleted;
  overlapping creates of other names do no harm (`OnePerName`).
- A create request that had found its volume or share is refused once that has been expanded.

## Model

| member | source | states |
|---|---|---|
| EvsSafety.RunsAreSafe | pkg/evs/controllerserver.go:260-400 | In every run of any number of interleaved publish and unpublish calls, job successes and failures, lost answers and faults: available if and only if nothing is attached, never more than one attachment, a device exactly once the attach job has succeeded, every job traceable to a call for its own server |
| EvsSafety.StepKeepsInv | pkg/evs/controllerserver.go:274-303 | Every single request of any call and every move of the cloud keeps that invariant |
| EvsSafety.SubmitKeepsInv | pkg/evs/services/computes.go:35-109 | Submitting an attach or detach job keeps the invariant, whether accepted, refused, or accepted with the answer lost |
| EvsSafety.JobEndKeepsInv | pkg/evs/services/computes.go:127-151 | So does every way in which a job may end |
| EvsHistory.AttachFollowsOwnRead | pkg/evs/controllerserver.go:274-281 | Whatever others do, the last request of a call before its attach is its own read, and that read saw the volume available |
| EvsHistory.PublishReturnsLastRead | pkg/evs/controllerserver.go:289-320 | The call's last request before an OK is its own read; the path is not empty if and only if that read showed the volume attached to this server and in-use or detaching, and is then that attachment's device |
| EvsHistory.OnlyOwnJobsTakeAway | pkg/evs/services/computes.go:86-109 | A server loses the volume only by the failure of its own attach job or the success of a detach job that an unpublish for that same server asked for; the volume is then free |
| EvsHistory.NoHandOver | pkg/evs/controllerserver.go:274-303 | Two publish calls that returned paths for different servers read the volume at two instants between which it was free |
| EvsHistory.UnpublishTakesEffect | pkg/evs/controllerserver.go:376-399 | Every OK of an unpublish (nothing attached, job done, or Ecs.0111) has an instant, while the call was in flight, at which the volume was not attached to its server |
| EvsHistory.StillHeld | pkg/evs/services/computes.go:96-109 | While the volume stays attached, the attachment a pending detach job aims at is still the one |
| EvsSolo.SoloPublishHolds | pkg/evs/controllerserver.go:299-303 | With one call in flight at a time, an OK of publish leaves the volume in-use on its server, and returns the device there, never an empty path |
| EvsSolo.SoloUnpublishFrees | pkg/evs/controllerserver.go:376-399 | With one call in flight at a time, an OK of unpublish leaves the volume not attached to its server when it returns |
| EvsSolo.SoloRuns | pkg/evs/services/computes.go:69-84 | What such a call may rely on at each of its steps, though jobs of calls that gave up still run |
| EvsSolo.AttachedOnce | pkg/evs/controllerserver.go:276-287 | In every run without overlap, from any instant at which the volume is available and no call in flight, whatever happened to it before and whatever jobs still run: as long as only publish calls for one server begin and no job fails, however many of them time out, one attach request is sent and one job made in all, exactly when the volume leaves available |
| EvsSolo.RetryReturnsOk | pkg/evs/controllerserver.go:289-291 | After such retries a new call returns OK with the device at its first read of the volume once the job is done |
| EvsSolo.RetriesReturnDevice | pkg/evs/controllerserver.go:276-303 | Every one of those retries that returned OK returned that one device, and the volume is in use with it on their server |
| EvsSolo.OverlapReturnsEmptyPath | pkg/evs/services/computes.go:75-77 | A run with overlapping calls in which a publish for one server returns OK with an empty path while the volume is in-use on another |
| EvsPaths.FirstReadDecides | pkg/evs/controllerserver.go:274-297 | The first read of a publish: it attaches if and only if the volume is available, waits if and only if it is attaching to this server, succeeds if and only if it is in-use by this server, and fails if and only if neither |
| EvsPaths.LaterReadDecides | pkg/evs/services/computes.go:69-84 | A read while waiting: in-use for whichever server ends the wait, attaching goes on with it up to thirty reads, all else is an error; and the re-read is answered with the device found |
| EvsPaths.FirstDevice | pkg/evs/controllerserver.go:306-314 | The path is the device of the first attachment to the server |
| EvsPaths.CheckDecides | pkg/evs/services/computes.go:127-151 | A check of a job: running goes on with the wait up to thirty checks; success ends it well, and so does, for a detach job, that the server is not attached; any other end is an error |
| EvsPaths.UnpublishReadDecides | pkg/evs/controllerserver.go:381-385 | A volume that is available or has no attachment needs no detach request |
| EvsPaths.OtherStepsDecide | pkg/evs/controllerserver.go:376-387 | Only after the server is found does an unpublish succeed without a request or send one; a request that fails ends the call with an error |
| EvsPaths.LostAnswer | pkg/evs/services/computes.go:47-51 | A submission whose answer is lost has its effect, and the call fails |
| EvsHandlers.EvsCloud.ControllerPublishVolume | pkg/evs/controllerserver.go:260-304 | Any execution of the handler, with any moves of others between its requests and any of its requests failing or losing its answer, is a run of the protocol; and for any sequence of moves that is possible and in which the call returns, the handler returns just that reply. A path is the device of an attachment to this server shown during this very call; undisturbed, the reply, the volume and the jobs afterwards are determined for every state of the volume |
| EvsHandlers.EvsCloud.ControllerUnpublishVolume | pkg/evs/controllerserver.go:368-400 | The same for unpublish; OK means an instant of this very call at which the volume was not attached to this server; undisturbed, OK if and only if it was not attached before |
| EvsHandlers.EvsCloud.PublishRetried | pkg/evs/controllerserver.go:276-303 | The handler called any number of times one after the other for one server on a volume at rest, each call with any faults, lost answers and ending jobs but failures: at most one attach request and one job, exactly if the volume is available no more, and every OK names the device the volume then is in use with |
| EvsHandlers.EvsCloud.PublishUntilDone | pkg/evs/controllerserver.go:276-303 | Called n times while its job is running and once after its success: one attach job in all, and OK with the device |
| EvsHandlers.EvsCloud.PublishSucceeds | pkg/evs/controllerserver.go:276-303 | An available volume whose attach job succeeds between two checks: OK with the device |
| EvsHandlers.EvsCloud.PublishWaits | pkg/evs/controllerserver.go:282-303 | A volume attaching to this server whose job succeeds between two reads: the call waits and returns OK with the device |
| EvsHandlers.EvsCloud.UnpublishSucceeds | pkg/evs/controllerserver.go:387-399 | A volume on this server whose detach job succeeds between two checks: OK |
| EvsMoves.SameReply | pkg/evs/controllerserver.go:260-400 | Two courses of events from one state, of which one begins like the other, do not differ in what a call returns in them |
| EvsHandlers.EvsCloud.WaitForJob | pkg/evs/services/computes.go:111-151 | Between one and thirty checks, all but the last finding the job running; done or not attached exactly by what the last one saw at its instant of the run; thirty if the last one, too, finds it running |
| EvsHandlers.EvsCloud.WaitForVolumeAttaching | pkg/evs/services/computes.go:61-84 | Between one and thirty reads, all but the last finding the volume attaching; success if and only if the last finds it in-use, for whichever server; thirty if that, too, finds it attaching |
| EvsHandlers.EvsCloud.AttachVolumeCompleted | pkg/evs/services/computes.go:35-59 | Submission and polling end in a re-read or an error, as the protocol has it; undisturbed, the job is left running and the call times out |
| EvsHandlers.EvsCloud.DetachVolumeCompleted | pkg/evs/services/computes.go:86-109 | Success, or an error that names Ecs.0111, makes unpublish return OK; undisturbed, the latter if and only if the volume is not attached to the server |
| ObsListing.ListBuckets | pkg/obs/services/buckets.go:211-248 | An error if the listing request fails; otherwise, for every schedule of the workers: a panic if and only if the marker is gone or the limit negative; else the page after the marker in listing order, each bucket with the quota answered for it, and an error if and only if some bucket of the page is not answered to be a parallel file system with a quota |
| ObsListing.ScanMarker | pkg/obs/services/buckets.go:225-230 | The position of the marker, -1 without one, the end of the listing if it is gone |
| ObsListing.Group.Wait | pkg/obs/services/buckets.go:233-246 | For every interleaving: each slot is written exactly once, by the bucket of its own position, and the group fails if and only if some worker does |
| ObsListing.Group.Step | pkg/obs/services/buckets.go:236-242 | One move of one worker touches no other worker and keeps every slot in bounds |
| ObsListing.ListVolumes | pkg/obs/controllerserver.go:144-182 | Each error under its condition; an entry for each bucket of the page with its quota as capacity; and the token: the last name of a page that is full and not empty |
| ObsPaging.FollowingTokensListsAll | pkg/obs/controllerserver.go:176-178 | Over an unchanged listing, following tokens with limit L gives exactly the listing, in order, in floor(n/L) + 1 calls |
| ObsPaging.TokensCut | pkg/obs/services/buckets.go:225-235 | Following tokens from anywhere in the listing gives consecutive slices of it |
| ObsPaging.PagingSurvivesChange | pkg/obs/services/buckets.go:225-247 | Buckets may be added and removed between pages: as long as each marker is still there, no bucket is returned twice and each that was there throughout is returned |
| ObsPaging.MarkerRun | pkg/obs/services/buckets.go:225-247 | From any marker on, what is returned is strictly increasing, above the marker, and misses no name present throughout |
| ObsDelete.ObsBucket.DeleteObjects | pkg/obs/services/objects.go:48-80 | Whatever others write and delete and whichever request fails or loses its answer, the loop ends; it returns nil only after an empty listing and if no request failed; alone it takes ceil(n/1000) rounds |
| ObsDelete.ObsBucket.AbortUpload | pkg/obs/services/objects.go:90-95 | One upload aborted, an error if that fails or the upload is gone |
| ObsDelete.ObsBucket.AbortMultipartUpload | pkg/obs/services/objects.go:82-98 | Nil only if no request failed, and then no upload is left if there were at most 1000 and none was started; undisturbed, the uploads of one listing are aborted and the rest stays |
| ObsDelete.ObsBucket.CleanBucket | pkg/obs/services/buckets.go:109-117 | Nil only for an existing bucket without objects and if no request failed; then without uploads, too, if there were at most 1000 and none was started |
| ObsDelete.ObsBucket.DeleteBucket | pkg/obs/services/buckets.go:119-137 | Nil or not-found only if the bucket is gone; with uploads left it is refused and stays |
| ObsDelete.ObsBucket.GetParallelFSBucket | pkg/obs/services/buckets.go:39-59 | Not-found only for a bucket that is gone; success only for a parallel file system, unavailable only for another one |
| ObsDelete.ObsBucket.DeleteVolume | pkg/obs/controllerserver.go:73-107 | OK only if the bucket is gone and no request of the call failed, and, once it began to empty the bucket, only by its own request to delete it; undisturbed, OK if and only if it was gone before or is a parallel file system with at most 1000 uploads, and exactly what is left otherwise |
| ObsDelete.ObsBucket.DeleteVolumeRetried | pkg/obs/controllerserver.go:83-106 | After any number of calls that failed at any step, while others wrote and deleted objects, aborted uploads or deleted the bucket, one undisturbed call removes it |
| ObsDelete.ObsBucket.DeleteVolumeUntilDone | pkg/obs/services/objects.go:87-96 | With u uploads exactly max(1, ceil(u/1000)) calls remove the bucket |
| AesCbc.DecryptUndoesEncrypt | pkg/utils/aes.go:15-59 | Decryption gives back every byte string, for every valid key and every initialisation vector |
| AesCbc.CiphertextLength | pkg/utils/aes.go:22-35 | The text decodes to 16 * (floor(n/16) + 2) bytes, the vector and then the enciphered padded text, and has four characters for every three of them begun |
| AesCbc.CbcInverts | pkg/utils/aes.go:32-53 | Decryption in CBC mode inverts encryption for every block cipher that is a bijection |
| AesCbc.ChainsBlocks | pkg/utils/aes.go:32-33 | The mode is that of section 6.2 of NIST SP 800-38A: each cipher block enciphers the plain block combined with the cipher block before |
| AesCbc.XorByteBit | pkg/utils/aes.go:32-33 | A bit of the combination of two bytes is set if and only if it is set in one of them alone |
| AesCbc.CryptBlocksEncrypt | pkg/utils/aes.go:25-33 | The loop over the buffer leaves the vector and the cipher text behind it |
| AesCbc.CryptBlocksDecrypt | pkg/utils/aes.go:49-53 | The loop that overwrites its own input leaves the plain text |
| AesCbc.UnpadInvertsPad | pkg/utils/aes.go:22-23 | Removing the padding of section 6.3 of RFC 5652 gives back every byte string |
| AesCbc.EncryptAESCBC | pkg/utils/aes.go:15-36 | The function on buffers computes the specified text, never panics, and errors if and only if the key has another length than 16, 24 or 32 or randomness is missing |
| AesCbc.DecryptAESCBC | pkg/utils/aes.go:38-59 | The function on buffers computes the specified result for every input: an error if and only if the text is not base64 or the key has another length; a panic for raw text of at most 16 bytes or not whole blocks, and for a last byte greater than the plain text is long; otherwise the plain text less as many bytes as its last byte says |
| Base64.DecodeInvertsEncode | pkg/utils/aes.go:35-39 | Decoding gives back every byte string (section 4 of RFC 4648) |
| Base64.DecodesExactly | pkg/utils/aes.go:39-42 | Decoding succeeds if and only if the text, line breaks aside, is whole quanta of the alphabet with at most two '=' at the end; the length of the result |
| Base64.LineBreaksDoNotMatter | pkg/utils/aes.go:39-42 | Line breaks anywhere do not change what is decoded |
| Base64.Alphabet | pkg/utils/aes.go:35-35 | The letters of the encoding in their order |
| Base64.StandardVectors | pkg/utils/aes.go:35-35 | The encoding agrees with the seven vectors for base64 in section 10 of RFC 4648 |
| Canonical.Sha256 | pkg/utils/sha256.go:11-28 | For every order in which the map hands out its keys, the digest is that of one text determined by the map |
| Canonical.SortedIsUnique | pkg/utils/sha256.go:16-16 | A set of keys has one sorted order |
| GoStrings.LessExactly | pkg/utils/sha256.go:16-16 | One string is before another if and only if it begins it or has the smaller byte where they first differ |
| Canonical.TextFromLeast | pkg/utils/sha256.go:17-22 | The text is the pair of the least key as key=value, and then, after an '&', the text of the other pairs |
| Canonical.CanonicalTextInjective | pkg/utils/sha256.go:17-22 | Maps whose keys hold no '=' or '&' and whose values hold no '&' have the same text only if they are equal |
| Canonical.TextBindsKeys | pkg/utils/sha256.go:17-22 | Of the maps with the text of a clean map, exactly the one that holds all its keys is that map |
| Canonical.CleanAsWell | pkg/utils/sha256.go:17-22 | A map with the text and all the keys of a clean one is clean itself: every separator is needed between elements |
| Canonical.AmpersandIsAmbiguous | pkg/utils/sha256.go:17-22 | In every map, clean or not, the value of a key may swallow the pair that is next in order without changing the text |
| Canonical.HexInjective | pkg/utils/sha256.go:26-26 | Different digests print differently |
| Canonical.HexDigits | pkg/utils/sha256.go:26-26 | Every byte prints as two lower-case digits, the high one first |
| MountToken.CheckRequestToken | cluster/images/obs-csi-plugin/csi-connector-server.go:72-83 | Accepted if and only if the token decrypts to the digest of the parameters it came with; a crash if and only if decryption panics |
| MountToken.CheckMountParameters | cluster/images/obs-csi-plugin/csi-connector-server.go:85-100 | Refuses a command if and only if one of the five parameters is missing or empty, its credential file is not under /var/lib/csi, or that file does not exist |
| MountToken.BuildMountCommand | pkg/obs/nodeserver.go:103-119 | The command carries the parameters and the token made for them |
| MountToken.NodeCommandIsAccepted | cluster/images/obs-csi-plugin/csi-connector-server.go:52-55 | The connector accepts every command the node builds, whatever the parameters hold |
| MountToken.TokenAcceptedIff | cluster/images/obs-csi-plugin/csi-connector-server.go:72-83 | A token made for some parameters is accepted with others if and only if their digests agree |
| MountToken.TokenBindsParameters | cluster/images/obs-csi-plugin/csi-connector-server.go:52-61 | Whatever is sent: a request passes both checks of the connector with the token of a node's command whose values hold no '&' if and only if it carries that command's own parameters and that command passes, unless the hash collides on the two texts |
| MountToken.TokenBindsCommand | cluster/images/obs-csi-plugin/csi-connector-server.go:52-61 | The same for any clean command with no other than the five names |
| MountToken.TokenBindsNames | cluster/images/obs-csi-plugin/csi-connector-server.go:72-83 | The token of clean parameters is accepted with parameters that hold all their names if and only if they are the same, unless the hash collides on the two texts |
| MountToken.TokenAcceptedWithOthers | cluster/images/obs-csi-plugin/csi-connector-server.go:72-83 | Without that condition the token binds nothing: made for any two or more parameters it is accepted with others in which one value has swallowed the next pair, for every cipher, key, vector and hash |
| MountToken.RegionMayHideParameter | cluster/images/obs-csi-plugin/csi-connector-server.go:52-61 | The token of a command whose region is `R&s=w` is accepted with region `R` and a further parameter `s`, which pass both checks as the command itself does: the values must hold no '&' |
| MountToken.ParametersArrive | cluster/images/obs-csi-plugin/csi-connector-server.go:85-100 | Every value arrives under its name, and the node's command passes the further checks if and only if its credential file exists |
| MountToken.NodeParametersAreClean | pkg/obs/nodeserver.go:103-109 | The node's parameters are clean and hold just the five names if no value holds '&' |
| Capacity.RoundUpIsLeast | pkg/utils/utils.go:26-32 | For every size, negative ones included, and positive unit: n units hold the size if and only if n is at least the result |
| GoInts.TruncatesTowardZero | pkg/utils/utils.go:27-28 | Quotient and remainder make up the dividend, and the remainder has its sign |
| Capacity.RoundUpFits | pkg/utils/utils.go:26-32 | The result of rounding a 64-bit size is a 64-bit number |
| Capacity.BytesSurviveIff | pkg/evs/controllerserver.go:695-695 | Back in bytes a size fits 64 bits if and only if it is below 2^33 GiB in magnitude (at -2^33 it just fits) |
| GoInts.WrapsAround | pkg/evs/controllerserver.go:695-695 | The one 64-bit number that differs from the exact result by a multiple of 2^64 |
| EvsExpand.EvsVolume.ControllerExpandVolume | pkg/evs/controllerserver.go:666-712 | The size never shrinks; success gives the least sufficient size not below the old one; out of range if and only if the limit is positive and below the bytes asked for; failed if and only if the read fails or a resize is needed and fails; a resize ends below limit plus 1 GiB, and above the limit if and only if the limit in whole GiB is too small |
| EvsExpand.EvsVolume.Expansions | pkg/evs/controllerserver.go:666-712 | Over any run of expansions, failing or not, the size does not shrink and holds what every successful call asked for |
| EvsExpand.LimitMayBeExceeded | pkg/evs/controllerserver.go:683-686 | A request that passes the limit check and whose rounded size exceeds the limit |
| SfsTurbo.SizeForCreate | pkg/sfsturbo/controllerserver.go:65-73 | The least legal size that holds the request, refused if and only if the request exceeds 32768 GiB |
| SfsTurbo.NextSize | pkg/sfsturbo/controllerserver.go:394-402 | The larger of what is asked for and the current size plus 100, unless it exceeds 32768; it is the least size that is sufficient, a step away and legal |
| SfsTurbo.Share.ControllerExpandVolume | pkg/sfsturbo/controllerserver.go:360-412 | A share too small becomes what is asked for or 100 GiB more, whichever is larger, which is the least legal size; rejected if and only if that exceeds 32768; failed if and only if a request that is needed fails; the reply is the size in bytes if and only if the share did not grow |
| SfsTurbo.Share.ExpandShareCompleted | pkg/sfsturbo/services/volumes.go:157-217 | Success if and only if the expansion is accepted, the polled views of the share reach success, the last read works and the share has the new size then, so an old success does not count; the share may have grown whatever is reported |
| SfsTurbo.Share.Expansions | pkg/sfsturbo/controllerserver.go:386-406 | Over any run from a share the driver made, the size stays in 500..32768, never shrinks, and grows at most 322 times |
| SfsTurbo.Share.GrowByOneGiB | pkg/sfsturbo/controllerserver.go:394-402 | 322 is reached |
| Polling.ExponentialBackoff | vendor/k8s.io/apimachinery/pkg/util/wait/wait.go:421-432 | For every stream of checks: the verdict of the first terminal one among at most Steps, otherwise a timeout; how many checks were made and how long it slept in all |
| Polling.SleptInAll | pkg/common/common.go:26-33 | The sleeps sum to Duration * (Factor^n - 1) / (Factor - 1) |
| Polling.WaitsAreBounded | pkg/sfsturbo/services/volumes.go:65-70 | Under 78 seconds with the common delays, under 600 for creating a share |
| Polling.WaitForJobFinished | pkg/evs/services/volumes.go:172-200 | A volume ID if and only if one of thirty views of the job is a success and all before it are neither success nor failure, and that view's; a timeout if and only if all thirty are neither |
| Polling.WaitUntil | pkg/sfsturbo/services/volumes.go:49-217 | The other waits, in the statuses they see: a new share 100 then 200, an expansion 121 then 221, a snapshot creating then available, a new volume until available or in-use but not error, a deletion until not found; success if and only if one of thirty views is reached and all before are on the way, a timeout if and only if all thirty are; the delays, and the bound on the sleep |
| OffsetPaging.AtoiInvertsPrint | pkg/evs/controllerserver.go:581-599 | Parsing a printed 64-bit number gives it back, negative ones included |
| OffsetPaging.DecimalText | pkg/evs/controllerserver.go:597-599 | Offsets print in decimal, the highest digit first and without leading zeros |
| OffsetPaging.AtoiRefuses | pkg/evs/controllerserver.go:581-584 | Text of a number that does not fit 64 bits does not parse |
| OffsetPaging.ListPage | pkg/evs/controllerserver.go:578-600 | For any offset and limit, negative ones too, and any answer of the service: its entries, and a next token if and only if by its count entries are left, which parses to the offset after the last one; offset 0 for a token that is no number; a refusal if and only if the limit is 0 where that is refused |
| OffsetPaging.PageOf | pkg/sfsturbo/controllerserver.go:249-284 | From a service with a list: the entries from the token's offset on, as many as asked for and there, and a token if and only if entries are left, for the offset after them |
| OffsetPaging.FollowTokens | pkg/sfsturbo/controllerserver.go:252-284 | Following tokens gives every entry once, in order, in max(1, ceil(n/L)) calls |
| CreateByName.OnePerName | pkg/evs/services/volumes.go:101-124 | In every run in which creates for this name do not overlap, with any creates for other names, faults, timeouts after acceptance, and deletions and expansions at any time, at most one volume, snapshot or share of the name exists |
| CreateByName.RepeatReturnsSame | pkg/evs/controllerserver.go:61-65 | In such a run, while an entry of the name exists, a request for it creates nothing; it returns its ID if and only if the entry is what it asks for, even if the call that created it failed, and is refused otherwise |
| CreateByName.OneOfTheName | pkg/evs/services/volumes.go:111-118 | One entry of the name: a volume is found if and only if the sizes agree, a snapshot if and only if the sources agree, a share if and only if all attributes agree, and otherwise it is a conflict |
| CreateByName.SeveralOfTheName | pkg/evs/services/volumes.go:119-123 | No entry of the name is absent; several are a conflict for volumes and snapshots, and for shares the first decides |
| CreateByName.ExpandedIsRefused | pkg/evs/services/volumes.go:111-118 | Expanding makes the request that had found the entry a conflict if and only if its size changes and sizes are compared |
| CreateByName.SameIdForSameName | pkg/sfsturbo/controllerserver.go:108-126 | In such a run two calls that returned IDs for the name, both still existing, returned the same |
| CreateByName.RunsAreHonest | pkg/evs/controllerserver.go:61-108 | In every run, overlapping or not: every ID a call holds belongs to an entry like its own request or grown since, or to one deleted since, and IDs are handed out once |
| CreateByName.ReturnedIdsAgree | pkg/evs/controllerserver.go:61-108 | The entry of an ID that a call returned has its name and agrees with its request in what the driver compares, or has grown since |
| CreateByName.SoloRunsAreSingle | pkg/evs/controllerserver.go:61-108 | If creates for a name do not overlap, a call about to create it finds none of it |
| CreateByName.OverlapDuplicates | pkg/evs/services/volumes.go:119-121 | A run of two overlapping creates of one name that makes two of it, which EVS then refuses; after deleting one it finds the other |
| CreateByName.CheckVolumeExists | pkg/evs/services/volumes.go:101-124 | The listing filtered by name decides as the protocol's lookup does; one volume is found if and only if the sizes agree |
| CreateByName.CheckDuplicateSnapshotName | pkg/evs/controllerserver.go:525-546 | The same for snapshots; one is found if and only if its source volume agrees |
| CreateByName.CheckShareExists | pkg/sfsturbo/controllerserver.go:141-173 | The scan over all shares finds what the first of that name decides; it is found if and only if all attributes agree |
| CreateHandlers.Service.CreateVolume | pkg/evs/controllerserver.go:60-108 | Any execution, whatever others do and whichever request fails or loses its answer, is a run of the protocol; undisturbed, or giving up after the cloud accepted the creation, the reply and the entries afterwards are determined by the lookup |
| CreateHandlers.Service.CreateRepeatedly | pkg/evs/controllerserver.go:60-108 | Any number of create calls for one name one after the other, each with any faults, timeouts, deletions, expansions and calls for other names, overlapping or not: at most one entry of the name, and one ID for all that returned one that still exists |
| CreateHandlers.Service.CreateRetried | pkg/evs/services/volumes.go:24-37 | A call that gives up after the cloud accepted its creation, and a retry: one entry, and the retry returns its ID |
| CreateHandlers.Service.CreateCompleted | pkg/sfsturbo/services/volumes.go:34-46 | An ID only after submission and waiting both succeeded; the entry exists as soon as the cloud accepted it, also if waiting fails or the answer is lost |
| NodeMounts.Node.NodeStageVolume | pkg/evs/nodeserver.go:66-88 | Success means that no request and no system call failed; it mounts the volume's device if nothing shows as mounted and adds nothing otherwise; no other path changes |
| NodeMounts.Node.NodePublishVolume | pkg/evs/nodeserver.go:226-246 | The target gets the source's device if and only if it does not show as mounted; no other path changes |
| NodeMounts.Node.UnmountPath | vendor/k8s.io/mount-utils/mount_helper_common.go:91-119 | Success leaves nothing mounted and no directory, with either way of the library to unmount; undisturbed it succeeds |
| NodeMounts.Node.IsLikelyNotMountPointAttach | pkg/utils/mounts/mount.go:211-226 | The check creates a missing directory and mounts nothing |
| NodeMounts.Node.NodeUnpublishVolume | pkg/evs/nodeserver.go:310-321 | One call leaves the path unmounted; no other path changes |
| NodeMounts.Node.NodeUnstageVolume | pkg/evs/nodeserver.go:171-178 | One call leaves the path unmounted; no other path changes |
| NodeMounts.Node.Calls | pkg/evs/nodeserver.go:66-321 | Over any run of calls, failing anywhere, that publishes only what was staged, no path is ever mounted twice |
| NodeMounts.Node.PublishRepeatedly | pkg/evs/nodeserver.go:233-246 | n calls mount the target once if the source is a mount, and n times if it is not |

## Left out

- EvsHistory.PublishReturnsLastRead: an OK with an empty path is possible when calls overlap; the exact condition is stated instead of the promise that a path is returned.
- CreateHandlers.Service.CreateVolume: checks of capacity, zone and type, the choice between the two EVS create interfaces and the content of the reply are not modelled; a share's or volume's attributes are given.
- NodeMounts.Node.NodeStageVolume: formatting, finding the device and growing the file system of a volume made from a snapshot only appear as requests that fail.
- What the services answer to a negative offset, a negative limit or a limit of 0: it is a parameter.
- Volumes with other statuses than the four (error, extending and the like), volumes shared between servers, and several volumes at once: each volume is a protocol of its own.
- Reading a volume or server that does not exist is one of the faults of a request; its error code is not told from others.
- Cloud SDK, HTTP, gRPC, logging, credentials and configuration: input and output.
- The block cipher, SHA-256 and the randomness of the vector: library code, kept abstract.
- Creating and expanding OBS buckets: a quota of 0 means none, so sizes are not ordered.
- The delete handlers of EVS and SFS Turbo: an entry that vanishes is an event of the create protocol.
- Ephemeral volumes: validation asks for an inline volume that exists already, so creating and deleting do not pair up.
- Publishing block volumes: it does not look whether the target is mounted.
- The SFS driver, mount checks by shell commands, listing of published nodes, topology, endpoints, device discovery.
- The JSON transport of the mount command and what the connector does once it has accepted one.
