/** The mount table of a node under stage, publish, unpublish and unstage calls for file system volumes. Whether a
    path is mounted is guessed from its device, the way the mount library does it: a path whose device is its
    parent's counts as not mounted. */
module NodeMounts {

  type Path = string
  type Device = string

  // The device of the file system that holds the directories themselves; no volume is on it.
  const ROOT: Device := "root"

  datatype Call =
    | Stage(path: Path, device: Device)
    | Publish(source: Path, path: Path)
    | Unpublish(path: Path)
    | Unstage(path: Path)

  class Node {
    var stacks: map<Path, seq<Device>>
    var dirs: set<Path>
    var faults: seq<bool>
    // How many requests and system calls failed.
    ghost var failed: nat
    // Whether umount says clearly that a path was not mounted.
    const safeUmount: bool

    function Stack(path: Path): seq<Device>
      reads this
    {
      if path in stacks then stacks[path] else []
    }

    /** The device a path is on. */
    function DeviceAt(path: Path): Device
      reads this
    {
      if Stack(path) == [] then ROOT else Stack(path)[|Stack(path)| - 1]
    }

    /** Mounted paths are directories; nothing is mounted twice, and every mount shows as one. */
    ghost predicate Valid()
      reads this
    {
      forall path | Stack(path) != [] :: path in dirs && |Stack(path)| == 1 && Stack(path)[0] != ROOT
    }

    ghost predicate Exists()
      reads this
    {
      forall path | Stack(path) != [] :: path in dirs
    }

    twostate predicate OthersUnchanged(path: Path)
      reads this
    {
      forall p | p != path :: Stack(p) == old(Stack(p)) && (p in dirs <==> p in old(dirs))
    }

    constructor (safeUmount: bool, faults: seq<bool>)
      ensures Valid() && forall p :: Stack(p) == []
      ensures this.safeUmount == safeUmount && this.faults == faults
    {
      this.safeUmount := safeUmount;
      this.faults := faults;
      stacks, dirs := map[], {};
    }

    method Fails() returns (fails: bool)
      modifies this`faults, this`failed
      ensures failed == old(failed) + if fails then 1 else 0
      ensures old(faults) == [] ==> !fails && faults == []
    {
      fails := false;
      if faults != [] {
        fails := faults[0];
        faults := faults[1..];
        failed := failed + if fails then 1 else 0;
      }
    }

    method IsLikelyNotMountPointAttach(path: Path) returns (ok: bool, notMnt: bool)
      requires Exists()
      modifies this`faults, this`failed, this`dirs
      ensures Exists() && OthersUnchanged(path) && Stack(path) == old(Stack(path))
      ensures ok ==> path in dirs && (notMnt <==> DeviceAt(path) == ROOT) && failed == old(failed)
      ensures old(faults) == [] ==> ok && faults == []
    {
      var fails := Fails();
      if fails { return false, true; }
      if path !in dirs {
        fails := Fails();
        if fails { return false, true; }
        dirs := dirs + {path};
        return true, true;
      }
      return true, DeviceAt(path) == ROOT;
    }

    method Mount(path: Path, device: Device) returns (ok: bool)
      requires Exists() && path in dirs
      modifies this`faults, this`failed, this`stacks
      ensures Exists() && OthersUnchanged(path)
      ensures Stack(path) == if ok then old(Stack(path)) + [device] else old(Stack(path))
      ensures ok ==> failed == old(failed)
      ensures old(faults) == [] ==> ok && faults == []
    {
      var fails := Fails();
      if fails { return false; }
      stacks := stacks[path := Stack(path) + [device]];
      ok := true;
    }

    /** Mounts the volume's device on the staging path unless a device shows as mounted there, however often it is
        called. */
    method NodeStageVolume(path: Path, device: Device) returns (ok: bool)
      requires Exists() && device != ROOT
      modifies this
      ensures Exists() && OthersUnchanged(path) && (old(Valid()) ==> Valid())
      ensures Stack(path) == old(Stack(path))
              || (old(DeviceAt(path)) == ROOT && Stack(path) == old(Stack(path)) + [device])
      ensures ok ==> path != "" && DeviceAt(path) != ROOT && failed == old(failed)
      ensures ok && old(DeviceAt(path)) == ROOT ==> Stack(path) == old(Stack(path)) + [device]
      ensures ok && old(DeviceAt(path)) != ROOT ==> Stack(path) == old(Stack(path))
      ensures old(faults) == [] && path != "" ==> ok && faults == []
    {
      if path == "" { return false; }
      var missing := Fails();
      if missing { return false; }
      var checked, notMnt := IsLikelyNotMountPointAttach(path);
      if !checked { return false; }
      if notMnt {
        ok := Mount(path, device);
        return;
      }
      ok := true;
    }

    /** Mounts what the source is on; there must be such a directory. */
    method BindMount(source: Path, path: Path) returns (ok: bool)
      requires Exists() && path in dirs && source != path
      modifies this`faults, this`failed, this`stacks
      ensures Exists() && OthersUnchanged(path)
      ensures Stack(path) == if ok then old(Stack(path)) + [old(DeviceAt(source))] else old(Stack(path))
      ensures ok ==> failed == old(failed)
      ensures old(faults) == [] && source in dirs ==> ok && faults == []
    {
      if source !in dirs { return false; }
      ok := Mount(path, DeviceAt(source));
    }

    /** A bind mount of the staging path on the target, unless the target shows as mounted. */
    method NodePublishVolume(source: Path, path: Path) returns (ok: bool)
      requires Exists() && source != path
      modifies this
      ensures Exists() && OthersUnchanged(path)
      ensures old(Valid()) && old(DeviceAt(source)) != ROOT ==> Valid()
      ensures Stack(path) == old(Stack(path))
              || (old(DeviceAt(path)) == ROOT && Stack(path) == old(Stack(path)) + [old(DeviceAt(source))])
      ensures ok && old(DeviceAt(path)) == ROOT ==> Stack(path) == old(Stack(path)) + [old(DeviceAt(source))]
      ensures ok ==> path != "" && source != "" && failed == old(failed)
      ensures old(faults) == [] && path != "" && source != "" && source in old(dirs) ==> ok && faults == []
    {
      if path == "" || source == "" { return false; }
      var missing := Fails();
      if missing { return false; }
      var checked, notMnt := IsLikelyNotMountPointAttach(path);
      if !checked { return false; }
      assert DeviceAt(source) == old(DeviceAt(source)) && DeviceAt(path) == old(DeviceAt(path));
      if notMnt {
        ok := BindMount(source, path);
        return;
      }
      ok := true;
    }

    /** umount: takes the topmost mount away. */
    method Umount(path: Path) returns (ok: bool)
      requires Exists()
      modifies this`faults, this`failed, this`stacks
      ensures Exists() && OthersUnchanged(path)
      ensures Stack(path) == old(Stack(path))
              || (Stack(path) == [] && old(Stack(path)) == [])
              || (old(Stack(path)) != [] && Stack(path) == old(Stack(path))[..|old(Stack(path))| - 1])
      ensures ok ==> Stack(path) == if old(Stack(path)) == [] then [] else old(Stack(path))[..|old(Stack(path))| - 1]
      ensures ok ==> failed == old(failed)
      ensures old(faults) == [] && (safeUmount || old(Stack(path)) != []) ==> ok && faults == []
    {
      var fails := Fails();
      if fails { return false; }
      if Stack(path) == [] { return safeUmount; }
      stacks := stacks[path := Stack(path)[..|Stack(path)| - 1]];
      ok := true;
    }

    /** Removes the directory; a mounted one is busy. */
    method Remove(path: Path) returns (ok: bool)
      requires Exists()
      modifies this`faults, this`failed, this`dirs
      ensures Exists() && OthersUnchanged(path)
      ensures Stack(path) == old(Stack(path))
      ensures ok ==> Stack(path) == [] && path !in dirs && failed == old(failed)
      ensures old(faults) == [] && Stack(path) == [] ==> ok && faults == []
    {
      var fails := Fails();
      if fails || Stack(path) != [] { return false; }
      dirs := dirs - {path};
      ok := true;
    }

    /** CleanupMountPoint: success means that nothing is mounted there any more and the directory is gone. */
    method UnmountPath(path: Path) returns (ok: bool)
      requires Exists()
      modifies this
      ensures Exists() && OthersUnchanged(path) && (old(Valid()) ==> Valid())
      ensures ok ==> Stack(path) == [] && path !in dirs && failed == old(failed)
      ensures Stack(path) <= old(Stack(path))
      ensures old(faults) == [] && old(Valid()) ==> ok && faults == []
    {
      var fails := Fails();
      if fails { return false; }
      if path !in dirs { return true; }
      if safeUmount {
        ok := Umount(path);
        if !ok { return; }
        ok := Remove(path);
        return;
      }
      if DeviceAt(path) == ROOT {
        ok := Remove(path);
        return;
      }
      ok := Umount(path);
      if !ok { return; }
      if DeviceAt(path) == ROOT {
        ok := Remove(path);
        return;
      }
      ok := false;
    }

    method NodeUnpublishVolume(path: Path) returns (ok: bool)
      requires Exists()
      modifies this
      ensures Exists() && OthersUnchanged(path) && (old(Valid()) ==> Valid())
      ensures ok ==> path != "" && Stack(path) == [] && path !in dirs && failed == old(failed)
      ensures old(faults) == [] && old(Valid()) && path != "" ==> ok && faults == []
    {
      if path == "" { return false; }
      var missing := Fails();
      if missing { return false; }
      ok := UnmountPath(path);
    }

    method NodeUnstageVolume(path: Path) returns (ok: bool)
      requires Exists()
      modifies this
      ensures Exists() && OthersUnchanged(path) && (old(Valid()) ==> Valid())
      ensures ok ==> path != "" && Stack(path) == [] && path !in dirs && failed == old(failed)
      ensures old(faults) == [] && old(Valid()) && path != "" ==> ok && faults == []
    {
      if path == "" { return false; }
      var missing := Fails();
      if missing { return false; }
      ok := UnmountPath(path);
    }

    /** Any run of calls by a caller that publishes only what it has staged, whatever fails: no path is ever mounted
        twice. Section "NodePublishVolume" of the CSI specification v1.5.0 asks the caller for that order. */
    method Calls(calls: seq<Call>)
      requires Valid()
      requires forall call <- calls | call.Stage? :: call.device != ROOT
      requires forall call <- calls | call.Publish? :: call.source != call.path
      modifies this
      ensures Valid()
    {
      var staged: set<Path> := {};
      for k := 0 to |calls|
        invariant Valid()
        invariant forall path <- staged :: DeviceAt(path) != ROOT
      {
        var ok;
        match calls[k] {
          case Stage(path, device) =>
            assert calls[k] in calls;
            ok := NodeStageVolume(path, device);
            if ok { staged := staged + {path}; }
          case Publish(source, path) =>
            assert calls[k] in calls;
            if source in staged {
              ok := NodePublishVolume(source, path);
            }
          case Unpublish(path) =>
            staged := staged - {path};
            ok := NodeUnpublishVolume(path);
          case Unstage(path) =>
            staged := staged - {path};
            ok := NodeUnstageVolume(path);
        }
      }
    }

    /** Publishing n times from the same source mounts the target once if the source is a mount of its own, and n
        times if it is not. */
    method PublishRepeatedly(source: Path, path: Path, n: nat)
      requires Exists() && source != path && source != "" && path != "" && source in dirs
      requires faults == [] && Stack(path) == []
      modifies this
      ensures |Stack(path)| == if old(DeviceAt(source)) != ROOT && n > 0 then 1 else n
    {
      for k := 0 to n
        invariant Exists() && faults == [] && source in dirs && Stack(source) == old(Stack(source))
        invariant |Stack(path)| == if old(DeviceAt(source)) != ROOT && k > 0 then 1 else k
        invariant forall i | 0 <= i < |Stack(path)| :: Stack(path)[i] == old(DeviceAt(source))
      {
        var ok := NodePublishVolume(source, path);
      }
    }
  }
}
