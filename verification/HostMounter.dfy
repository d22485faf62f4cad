// The mounter of the sanity tests as a mutable object, behind a script of host
// failures.
module HostMounter {
  import opened Text
  import opened MountTable
  import opened NodeSteps

  class SanityMounter {
    const clean: string -> string
    var mounts: Table
    // The outcomes of the next host operations; those beyond the list succeed.
    var os: seq<Outcome>

    constructor (clean: string -> string, os: seq<Outcome>)
      ensures this.clean == clean && this.os == os && mounts == map[]
    {
      this.clean, this.os, mounts := clean, os, map[];
    }

    method NextOutcome() returns (o: Outcome)
      modifies this`os
      ensures o == Next(old(os)) && os == Later(old(os))
    {
      if os == [] {
        return Succeeds;
      }
      o := os[0];
      os := os[1..];
    }

    method Mount(source: string, target: string, fstype: string, options: seq<string>) returns (ok: bool)
      modifies this
      ensures os == Later(old(os))
      ensures var call := MountCall(target, MountTable.Mount(source, fstype, options));
              (mounts, ok) == PerformMount(clean, old(mounts), call, Next(old(os)))
      ensures clean(target) in old(mounts) || !ok ==> mounts == old(mounts)
      ensures clean(target) in old(mounts) && ok ==>
                old(mounts)[clean(target)] == MountTable.Mount(source, fstype, options)
      ensures clean(target) !in old(mounts) && ok ==>
                mounts == old(mounts)[clean(target) := MountTable.Mount(source, fstype, options)]
      ensures target != "" && Next(old(os)).Succeeds? && !ok ==>
                clean(target) in old(mounts)
                && old(mounts)[clean(target)] != MountTable.Mount(source, fstype, options)
    {
      var o := NextOutcome();
      if target == "" {
        return false;
      }
      var path := clean(target);
      if !o.Succeeds? {
        return false;
      }
      var requested := MountTable.Mount(source, fstype, options);
      if path in mounts {
        var existing := mounts[path];
        return existing.source == requested.source && existing.fstype == requested.fstype
               && existing.options == requested.options;
      }
      mounts := mounts[path := requested];
      return true;
    }

    method Unmount(target: string) returns (ok: bool)
      modifies this`mounts
      ensures ok <==> target != ""
      ensures mounts == if ok then old(mounts) - {clean(target)} else old(mounts)
    {
      if target == "" {
        return false;
      }
      mounts := mounts - {clean(target)};
      return true;
    }

    method IsLikelyNotMountPoint(path: string) returns (check: PathCheck)
      modifies this`os
      ensures os == Later(old(os)) && check == PerformCheck(clean, mounts, path, Next(old(os)))
    {
      var o := NextOutcome();
      if path == "" {
        return NoSuchPath;
      }
      if o.Fails? || o.Leftover? {
        return CheckFailed;
      }
      if clean(path) in mounts {
        return Mounted;
      }
      return if o.Missing? then NoSuchPath else NotMounted;
    }

    method MkdirAll(path: string) returns (ok: bool)
      modifies this`os
      ensures os == Later(old(os)) && (ok <==> Next(old(os)).Succeeds?)
    {
      var o := NextOutcome();
      return o.Succeeds?;
    }

    // The mount library's CleanupMountPoint, in one step
    method CleanupMountPoint(path: string) returns (ok: bool)
      modifies this
      ensures os == Later(old(os)) && (mounts, ok) == PerformCleanup(clean, old(mounts), path, Next(old(os)))
    {
      var o := NextOutcome();
      if o.Fails? {
        return false;
      }
      ok := Unmount(path);
      return ok && !o.Leftover?;
    }

    // Ends on every table, cyclic ones included: each round visits another mounted path.
    method MountRoot(start: string) returns (path: string)
      ensures path == RootOf(mounts, start)
    {
      path := start;
      var visited: set<string> := {};
      while true
        invariant Walk(mounts, path, visited) == RootOf(mounts, start)
        decreases mounts.Keys - visited
      {
        if path in visited {
          return path;
        }
        if path !in mounts {
          return path;
        }
        visited := visited + {path};
        path := mounts[path].source;
      }
    }

    // The references of a path, sorted; that determines the list.
    method GetMountRefs(path: string) returns (refs: seq<string>)
      ensures Sorted(refs) && forall target :: target in refs <==> target in MountRefs(mounts, clean(path))
    {
      var cleanPath := clean(path);
      var root := MountRoot(cleanPath);
      refs := [];
      var todo := mounts.Keys;
      while todo != {}
        invariant todo <= mounts.Keys && Sorted(refs)
        invariant forall target :: target in refs <==> target in MountRefs(mounts, cleanPath) && target !in todo
        decreases todo
      {
        SomeKey(todo);
        var target :| target in todo;
        todo := todo - {target};
        var targetRoot := MountRoot(target);
        if target != cleanPath && targetRoot == root {
          refs := InsertText(refs, target);
        }
      }
      assert forall target :: target !in todo;
      assert forall target :: target in refs <==> target in MountRefs(mounts, cleanPath);
    }
  }

  lemma SomeKey(keys: set<string>)
    ensures keys == {} || exists key :: key in keys
  {
    if forall key :: key !in keys {
      assert keys == {};
    }
  }
}
