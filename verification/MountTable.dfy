// A mount table: each mounted path has a source, which may be a mounted path
// itself. The root of a path is where the chain of sources leads.
module MountTable {
  datatype Mount = Mount(source: string, fstype: string, options: seq<string>)

  type Table = map<string, Mount>

  // Mounting on a mounted path succeeds only if the mount is the same one.
  function Put(t: Table, path: string, mount: Mount): (Table, bool) {
    if path in t then (t, t[path] == mount) else (t[path := mount], true)
  }

  // mountRoot: the walk stops at an unmounted path or at one seen before.
  function Walk(t: Table, path: string, visited: set<string>): string
    decreases t.Keys - visited
  {
    if path in visited || path !in t then path
    else Walk(t, t[path].source, visited + {path})
  }

  function RootOf(t: Table, path: string): string {
    Walk(t, path, {})
  }

  // The path n sources further on; the chain stays at an unmounted path.
  function Follow(t: Table, path: string, n: nat): string
    decreases n
  {
    if n == 0 || path !in t then path else Follow(t, t[path].source, n - 1)
  }

  ghost predicate Ends(t: Table, path: string) {
    exists n: nat :: Follow(t, path, n) !in t
  }

  ghost predicate Acyclic(t: Table) {
    forall path :: Ends(t, path)
  }

  lemma {:induction false} FollowPlus(t: Table, path: string, a: nat, b: nat)
    ensures Follow(t, path, a + b) == Follow(t, Follow(t, path, a), b)
    decreases a
  {
    if a > 0 && path in t {
      FollowPlus(t, t[path].source, a - 1, b);
    }
  }

  // One or more sources further on
  ghost predicate Reaches(t: Table, path: string, other: string) {
    exists k: nat :: k > 0 && Follow(t, path, k) == other
  }

  // A chain that ends does not come back to a mounted path.
  lemma {:induction false} NoWayBack(t: Table, path: string, n: nat, k: nat)
    requires path in t && Follow(t, path, n) !in t && k > 0
    ensures Follow(t, path, k) != path
    decreases n
  {
    if Follow(t, path, k) == path {
      if n >= k {
        FollowPlus(t, path, k, n - k);
        NoWayBack(t, path, n - k, k);
      } else {
        FollowPlus(t, path, n, k - n);
      }
    }
  }

  lemma {:induction false} WalkReachesEnd(t: Table, path: string, visited: set<string>, n: nat)
    requires Follow(t, path, n) !in t
    requires forall k: nat :: Follow(t, path, k) !in visited
    ensures Walk(t, path, visited) == Follow(t, path, n)
    decreases n
  {
    assert Follow(t, path, 0) == path;
    if path in t {
      var next := t[path].source;
      forall k: nat ensures Follow(t, next, k) !in visited + {path} {
        assert Follow(t, path, k + 1) == Follow(t, next, k);
        NoWayBack(t, path, n, k + 1);
      }
      WalkReachesEnd(t, next, visited + {path}, n - 1);
    }
  }

  // If the chain of a path ends, then the root is its one unmounted end.
  lemma RootIsEnd(t: Table, path: string, n: nat)
    requires Follow(t, path, n) !in t
    ensures RootOf(t, path) == Follow(t, path, n)
    ensures RootOf(t, path) !in t
  {
    WalkReachesEnd(t, path, {}, n);
  }

  lemma {:induction false} WalkReachesCycle(t: Table, path: string, visited: set<string>)
    requires !Ends(t, path)
    requires forall v | v in visited :: Reaches(t, v, path)
    ensures var root := Walk(t, path, visited);
            && root in t
            && (root == path || Reaches(t, path, root)) && Reaches(t, root, root)
    decreases t.Keys - visited
  {
    assert Follow(t, path, 0) == path && path in t;
    if path !in visited {
      var next := t[path].source;
      assert Follow(t, path, 1) == Follow(t, next, 0) == next;
      forall v | v in visited + {path} ensures Reaches(t, v, next) {
        if v in visited {
          var k: nat :| k > 0 && Follow(t, v, k) == path;
          FollowPlus(t, v, k, 1);
          assert Follow(t, v, k + 1) == next;
        }
      }
      forall n: nat ensures Follow(t, next, n) in t {
        assert Follow(t, path, n + 1) == Follow(t, next, n);
      }
      WalkReachesCycle(t, next, visited + {path});
      var root := Walk(t, next, visited + {path});
      if root != next {
        var n: nat :| n > 0 && Follow(t, next, n) == root;
        assert Follow(t, path, n + 1) == root;
      }
    }
  }

  // Otherwise the root is a path on the cycle that the chain runs into.
  lemma RootIsOnCycle(t: Table, path: string)
    requires !Ends(t, path)
    ensures RootOf(t, path) in t
    ensures RootOf(t, path) == path || Reaches(t, path, RootOf(t, path))
    ensures Reaches(t, RootOf(t, path), RootOf(t, path))
  {
    WalkReachesCycle(t, path, {});
  }

  lemma RootOfUnmounted(t: Table, path: string)
    requires path !in t
    ensures RootOf(t, path) == path
  {
  }

  // Mounting

  // Up to the new mount point the chains stay as they were.
  lemma {:induction false} FollowBefore(t: Table, target: string, mount: Mount, path: string, n: nat)
    requires target !in t && Follow(t, path, n) != target
    ensures Follow(t[target := mount], path, n) == Follow(t, path, n)
    decreases n
  {
    if n > 0 && path in t {
      FollowBefore(t, target, mount, t[path].source, n - 1);
    }
  }

  lemma {:induction false} FollowToTarget(t: Table, target: string, mount: Mount, path: string, n: nat)
    returns (m: nat)
    requires target !in t && Follow(t, path, n) == target
    ensures Follow(t[target := mount], path, m) == target
    decreases n
  {
    if path == target {
      m := 0;
    } else {
      var rest := FollowToTarget(t, target, mount, t[path].source, n - 1);
      m := rest + 1;
    }
  }

  lemma RootAfterMount(t: Table, target: string, mount: Mount, path: string)
    requires Acyclic(t) && target !in t && RootOf(t, mount.source) != target
    ensures Ends(t[target := mount], path)
    ensures RootOf(t[target := mount], path) ==
            if RootOf(t, path) == target then RootOf(t, mount.source) else RootOf(t, path)
  {
    var t' := t[target := mount];
    assert Ends(t, path) && Ends(t, mount.source);
    var n: nat :| Follow(t, path, n) !in t;
    var k: nat :| Follow(t, mount.source, k) !in t;
    RootIsEnd(t, path, n);
    RootIsEnd(t, mount.source, k);
    FollowBefore(t, target, mount, mount.source, k);
    if RootOf(t, path) == target {
      var m := FollowToTarget(t, target, mount, path, n);
      FollowPlus(t', path, m, k + 1);
      assert Follow(t', target, k + 1) == Follow(t', mount.source, k);
      RootIsEnd(t', path, m + (k + 1));
    } else {
      FollowBefore(t, target, mount, path, n);
      RootIsEnd(t', path, n);
    }
  }

  // Mounting on a fresh target keeps the table acyclic exactly when the target
  // is not the root of the source. The target then has the source's root, and
  // all paths but those rooted at the target keep theirs.
  lemma MountOnFreshTarget(t: Table, target: string, mount: Mount)
    requires Acyclic(t) && target !in t
    ensures Acyclic(t[target := mount]) <==> RootOf(t, mount.source) != target
    ensures RootOf(t, mount.source) != target ==>
              && RootOf(t[target := mount], target) == RootOf(t, mount.source)
              && forall path ::
                   RootOf(t[target := mount], path) ==
                   if RootOf(t, path) == target then RootOf(t, mount.source) else RootOf(t, path)
  {
    var t' := t[target := mount];
    if RootOf(t, mount.source) != target {
      forall path
        ensures Ends(t', path)
        ensures RootOf(t', path) == if RootOf(t, path) == target then RootOf(t, mount.source) else RootOf(t, path)
      {
        RootAfterMount(t, target, mount, path);
      }
      RootOfUnmounted(t, target);
    } else {
      assert Ends(t, mount.source);
      var n: nat :| Follow(t, mount.source, n) !in t;
      RootIsEnd(t, mount.source, n);
      var m := FollowToTarget(t, target, mount, mount.source, n);
      assert Follow(t', target, m + 1) == target;
      forall k: nat ensures Follow(t', target, k) in t' {
        if Follow(t', target, k) !in t' {
          NoWayBack(t', target, k, m + 1);
        }
      }
      assert !Ends(t', target);
    }
  }

  // Unmounting

  lemma {:induction false} EndsAfterUnmount(t: Table, gone: string, path: string, n: nat)
    requires Follow(t, path, n) !in t
    ensures Ends(t - {gone}, path)
    decreases n
  {
    var t' := t - {gone};
    if path !in t' {
      assert Follow(t', path, 0) !in t';
    } else {
      EndsAfterUnmount(t, gone, t[path].source, n - 1);
      var m: nat :| Follow(t', t[path].source, m) !in t';
      assert Follow(t', path, m + 1) !in t';
    }
  }

  lemma UnmountKeepsAcyclic(t: Table, gone: string)
    requires Acyclic(t)
    ensures Acyclic(t - {gone})
  {
    forall path ensures Ends(t - {gone}, path) {
      assert Ends(t, path);
      var n: nat :| Follow(t, path, n) !in t;
      EndsAfterUnmount(t, gone, path, n);
    }
  }

  // GetMountRefs: the other mounts of the same root
  function MountRefs(t: Table, path: string): set<string> {
    set target | target in t && target != path && RootOf(t, target) == RootOf(t, path)
  }

  // A bind mount of a path onto a fresh target, at which nothing is rooted, adds
  // exactly that target to the references of the path.
  lemma BindAddsOneRef(t: Table, target: string, mount: Mount)
    requires Acyclic(t) && target !in t && RootOf(t, mount.source) != target
    requires forall path | path in t :: RootOf(t, path) != target
    ensures MountRefs(t[target := mount], mount.source) == MountRefs(t, mount.source) + {target}
  {
    MountOnFreshTarget(t, target, mount);
    RootOfUnmounted(t, target);
    var t' := t[target := mount];
    var refs, expected := MountRefs(t', mount.source), MountRefs(t, mount.source) + {target};
    assert forall p :: p in refs <==> p in expected;
    assert refs == expected;
  }
}
