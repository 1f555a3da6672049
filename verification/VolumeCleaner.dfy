/**
 Best-effort cleaning of a volume. A path is an absolute string; the volume is the set of paths that
 exist. Deleting a subtree may fail half way and leave any part of it, and a directory may be unreadable.
 */
module VolumeCleaner {

  // ---- Paths ----

  predicate HasPrefix(s: string, prefix: string) {
    prefix <= s
  }

  /** The component of `p` that starts at `j` is "." or "..". */
  predicate DotsAt(p: string, j: nat) {
    && j < |p|
    && p[j] == '.'
    && (|| EndsAt(p, j + 1)
        || (p[j + 1] == '.' && EndsAt(p, j + 2)))
  }

  predicate EndsAt(p: string, j: nat) {
    j >= |p| || p[j] == '/'
  }

  /** A path that `filepath.Clean` leaves alone, absolute and not the root. */
  predicate IsClean(p: string) {
    && |p| > 0
    && p[0] == '/'
    && forall i :: 0 <= i < |p| && p[i] == '/' ==> !EndsAt(p, i + 1) && !DotsAt(p, i + 1)
  }

  function LastSlash(p: string): (i: int)
    ensures -1 <= i < |p| && (i >= 0 ==> p[i] == '/') && forall j :: i < j < |p| ==> p[j] != '/'
  {
    if p == "" then -1 else if p[|p| - 1] == '/' then |p| - 1 else LastSlash(p[..|p| - 1])
  }

  /** `filepath.Dir` of a clean path. */
  function DirOf(p: string): string
    requires IsClean(p) || p == "/"
  {
    if LastSlash(p) == 0 then "/" else p[..LastSlash(p)]
  }

  /** `p` is `a`, or lies below it. */
  predicate Within(p: string, a: string) {
    a <= p && EndsAt(p, |a|)
  }

  lemma DirIsClean(p: string)
    requires IsClean(p)
    ensures DirOf(p) == "/" || IsClean(DirOf(p))
    ensures |DirOf(p)| < |p|
  {
    var d, k := DirOf(p), LastSlash(p);
    assert k > 0 ==> forall i :: 0 <= i < |d| ==> d[i] == p[i];
    if k > 0 {
      forall i | 0 <= i < |d| && d[i] == '/' ensures !EndsAt(d, i + 1) && !DotsAt(d, i + 1) {
        assert p[i] == '/' && p[k] == '/';
        assert !EndsAt(p, i + 1) && !DotsAt(p, i + 1);
      }
    }
  }

  /** Going up one directory is the same as going to the nearest path above. */
  lemma WithinDir(p: string, a: string)
    requires IsClean(p) && IsClean(a)
    ensures Within(p, a) <==> p == a || (DirOf(p) != "/" && Within(DirOf(p), a))
    ensures Within(p, a) && p != a ==> |a| <= |DirOf(p)|
  {
    var k := LastSlash(p);
    if Within(p, a) && p != a {
      assert p[|a|] == '/';
      assert |a| <= k;
    }
  }

  lemma WithinTrans(p: string, q: string, r: string)
    requires Within(p, q) && Within(q, r)
    ensures Within(p, r)
  {
    assert p[..|r|] == q[..|r|];
  }

  // ---- The protected paths ----

  /** What the upward loop goes on for. */
  predicate Climbs(p: string, cleanPath: string) {
    p != "." && HasPrefix(p, cleanPath)
  }

  function Climb(p: string, n: nat): (r: string)
    requires IsClean(p) || p == "/"
    ensures IsClean(r) || r == "/"
  {
    if n == 0 then p
    else
      var q := Climb(p, n - 1);
      if q == "/" then "/" else (DirIsClean(q); DirOf(q))
  }

  lemma {:induction false} ClimbEnds(p: string, n: nat)
    requires IsClean(p) || p == "/"
    ensures Climb(p, n) == "/" || |Climb(p, n)| + n <= |p|
  {
    if n == 0 {
    } else {
      ClimbEnds(p, n - 1);
      if Climb(p, n - 1) != "/" {
        DirIsClean(Climb(p, n - 1));
      }
    }
  }

  /** The upward loop comes to an end exactly when the volume is not the root. */
  lemma ClimbEndsIff(cleanPath: string, p: string)
    requires (IsClean(cleanPath) || cleanPath == "/") && (IsClean(p) || p == "/")
    ensures (exists n: nat :: !Climbs(Climb(p, n), cleanPath)) <==> cleanPath != "/"
  {
    if cleanPath == "/" {
      forall n: nat ensures Climbs(Climb(p, n), cleanPath) {
        var r := Climb(p, n);
        assert r[0] == '/';
      }
    } else {
      ClimbEnds(p, |p|);
      assert IsClean(cleanPath);
      assert !EndsAt(cleanPath, 1);
      assert !Climbs(Climb(p, |p|), cleanPath);
    }
  }

  /** The volume, and every path from a skip path up that still starts with the volume's path. */
  ghost predicate Skipped(p: string, cleanPath: string, skipPaths: seq<string>) {
    p == cleanPath || exists s :: s in skipPaths && Above(p, s, cleanPath)
  }

  predicate Above(p: string, s: string, cleanPath: string) {
    HasPrefix(p, cleanPath) && Within(s, p)
  }

  /** A path of the volume with a skipped path below it is skipped. */
  lemma SkippedIsClosed(p: string, q: string, cleanPath: string, skipPaths: seq<string>)
    requires Skipped(p, cleanPath, skipPaths) && Within(p, q) && Within(q, cleanPath)
    ensures Skipped(q, cleanPath, skipPaths)
  {
    if p != cleanPath {
      var s :| s in skipPaths && Above(p, s, cleanPath);
      WithinTrans(s, p, q);
      assert Above(q, s, cleanPath);
    }
  }

  lemma ClimbStep(s: string, p: string, q: string)
    requires IsClean(s) && IsClean(p) && Within(s, p) && Within(s, q)
    ensures q != "/" ==> (|q| > |DirOf(p)| <==> q == p || |q| > |p|)
    ensures DirOf(p) != "/" ==> Within(s, DirOf(p))
  {
    var k := LastSlash(p);
    assert s[..|p|] == p;
    DirIsClean(p);
    if |q| < |p| {
      assert p[|q|] == s[|q|] == '/';
      assert |q| <= k;
    } else if |q| == |p| {
      assert q == s[..|q|];
    }
  }

  method SkipPathsMap(cleanPath: string, skipPaths: seq<string>) returns (skip: set<string>)
    requires IsClean(cleanPath) && forall s :: s in skipPaths && HasPrefix(s, cleanPath) ==> IsClean(s)
    ensures forall p :: p in skip <==> Skipped(p, cleanPath, skipPaths)
  {
    skip := {cleanPath};
    for i := 0 to |skipPaths|
      invariant forall p :: p in skip <==> Skipped(p, cleanPath, skipPaths[..i])
    {
      var s, skipPath := skipPaths[i], skipPaths[i];
      ghost var before := skip;
      assert s in skipPaths;
      while skipPath != "." && HasPrefix(skipPath, cleanPath)
        invariant HasPrefix(s, cleanPath) ==> (IsClean(skipPath) && Within(s, skipPath)) || skipPath == "/"
        invariant !HasPrefix(s, cleanPath) ==> skipPath == s
        invariant forall p :: p in skip <==> p in before || (|p| > |skipPath| && Above(p, s, cleanPath))
        decreases |skipPath|
      {
        assert cleanPath[0] == '/' && !EndsAt(cleanPath, 1);
        DirIsClean(skipPath);
        forall p | Above(p, s, cleanPath) ensures |p| > |DirOf(skipPath)| <==> p == skipPath || |p| > |skipPath| {
          ClimbStep(s, skipPath, p);
        }
        ClimbStep(s, skipPath, skipPath);
        skip := skip + {skipPath};
        skipPath := DirOf(skipPath);
      }
      forall p ensures p in skip <==> Skipped(p, cleanPath, skipPaths[..i + 1]) {
        if Above(p, s, cleanPath) {
          assert |p| <= |skipPath| ==> HasPrefix(skipPath, cleanPath);
        }
        assert skipPaths[..i + 1] == skipPaths[..i] + [s];
      }
    }
    assert skipPaths[..|skipPaths|] == skipPaths;
  }

  // ---- The volume ----

  /** Every path is clean, and below a directory that exists. */
  predicate IsTree(paths: set<string>, dirs: set<string>) {
    forall p :: p in paths ==> IsClean(p) && (DirOf(p) == "/" || (DirOf(p) in paths && DirOf(p) in dirs))
  }

  ghost function Subtree(paths: set<string>, top: string): set<string> {
    set p | p in paths && Within(p, top)
  }

  /** Below one of some paths. */
  ghost predicate Excused(p: string, places: set<string>) {
    exists w :: w in places && Within(p, w)
  }

  /** A path below `top` is in the subtree of one of its entries. */
  lemma {:induction false} EntryTowards(paths: set<string>, dirs: set<string>, p: string, top: string)
    returns (entry: string)
    requires IsTree(paths, dirs) && p in paths && IsClean(top) && Within(p, top) && p != top
    ensures entry in paths && DirOf(entry) == top && Within(p, entry)
    decreases |p|
  {
    WithinDir(p, top);
    DirIsClean(p);
    if DirOf(p) == top {
      entry := p;
    } else {
      entry := EntryTowards(paths, dirs, DirOf(p), top);
      WithinDir(p, entry);
    }
  }

  /** The entries of a directory. */
  function Entries(paths: set<string>, path: string): set<string>
    requires forall p :: p in paths ==> IsClean(p)
  {
    set p | p in paths && DirOf(p) == path
  }

  /** A listed directory has an entry above everything below it. */
  lemma TreeAbove(paths: set<string>, dirs: set<string>, path: string, entries: set<string>)
    requires IsTree(paths, dirs) && IsClean(path) && entries == Entries(paths, path)
    ensures forall p :: p in paths && Within(p, path) && p != path ==> Excused(p, entries)
  {
    forall p | p in paths && Within(p, path) && p != path ensures Excused(p, entries) {
      var entry := EntryTowards(paths, dirs, p, path);
      assert entry in entries;
    }
  }

  /** A path that is not a directory, or does not exist, has nothing below it. */
  lemma NothingBelow(paths: set<string>, dirs: set<string>, path: string)
    requires IsTree(paths, dirs) && IsClean(path) && !(path in paths && path in dirs)
    ensures forall p :: p in paths && Within(p, path) ==> p == path
  {
    forall p | p in paths && Within(p, path) ensures p == path {
      if p != path {
        var entry := EntryTowards(paths, dirs, p, path);
        assert false;
      }
    }
  }

  lemma EntryShrinks(was: set<string>, now: set<string>, dirs: set<string>, path: string, entry: string)
    requires IsTree(was, dirs) && now <= was && IsClean(path) && entry in Entries(was, path)
    ensures IsClean(entry) && Within(entry, path) && !Within(path, entry)
    ensures forall p :: Within(p, entry) ==> Within(p, path)
    ensures Subtree(now, entry) < Subtree(was, path)
  {
    DirIsClean(entry);
    WithinDir(entry, path);
    forall p | Within(p, entry) ensures Within(p, path) {
      WithinTrans(p, entry, path);
    }
    assert path in Subtree(was, path) && path !in Subtree(now, entry);
  }

  predicate NoneWithin(paths: set<string>, path: string) {
    forall p :: p in paths ==> !Within(p, path)
  }

  predicate Keeps(paths: set<string>, left: set<string>, path: string) {
    forall p :: p in paths && !Within(p, path) ==> p in left
  }

  lemma RestIsTree(paths: set<string>, dirs: set<string>, path: string)
    requires IsTree(paths, dirs) && IsClean(path)
    ensures IsTree((set p | p in paths && !Within(p, path)), dirs)
  {
    forall p | p in paths && !Within(p, path) ensures DirOf(p) == "/" || !Within(DirOf(p), path) {
      if DirOf(p) != "/" {
        DirIsClean(p);
        WithinDir(p, path);
      }
    }
  }

  /** Whatever has a skipped path below it, inside the volume, is skipped. */
  ghost predicate IsClosed(skip: set<string>, cleanPath: string) {
    forall p, q :: p in skip && Within(p, q) && Within(q, cleanPath) ==> q in skip
  }

  lemma ClosedAt(skip: set<string>, cleanPath: string, path: string)
    requires IsClosed(skip, cleanPath) && Within(path, cleanPath)
    ensures path in skip || forall p :: p in skip ==> !Within(p, path)
  {
  }

  // ---- What is protected ----

  /** Outside the volume, the volume itself, or a skip path or something above one. */
  ghost predicate Protected(p: string, cleanPath: string, skipPaths: seq<string>) {
    !Within(p, cleanPath) || p == cleanPath || exists s :: s in skipPaths && Within(s, p)
  }

  lemma ProtectedIff(p: string, cleanPath: string, skipPaths: seq<string>)
    ensures Protected(p, cleanPath, skipPaths) <==> Skipped(p, cleanPath, skipPaths) || !Within(p, cleanPath)
  {
    if Within(p, cleanPath) && p != cleanPath {
      assert forall s :: s in skipPaths && Within(s, p) ==> Above(p, s, cleanPath);
    }
  }

  lemma SkipIsClosed(skip: set<string>, cleanPath: string, skipPaths: seq<string>)
    requires forall p :: p in skip <==> Skipped(p, cleanPath, skipPaths)
    ensures IsClosed(skip, cleanPath)
  {
    forall p, q | p in skip && Within(p, q) && Within(q, cleanPath) ensures q in skip {
      SkippedIsClosed(p, q, cleanPath, skipPaths);
    }
  }

  lemma SameSet<T>(a: set<T>, b: set<T>)
    requires forall x :: x in a <==> x in b
    ensures a == b
  {
  }

  // ---- The walk ----

  /**
   The volume, and what the operating system does with it: a deletion of a path in `refused` fails, whatever
   the reason, and a directory in `unreadable` cannot be listed.
   */
  class Volume {
    var existing: set<string>
    const dirs: set<string>
    const refused: set<string>
    const unreadable: set<string>
    var warnings: set<string>  // the paths whose deletion was reported as failed

    ghost predicate Valid()
      reads this
    {
      IsTree(existing, dirs)
    }

    constructor (existing: set<string>, dirs: set<string>, refused: set<string>, unreadable: set<string>)
      requires IsTree(existing, dirs)
      ensures Valid() && this.existing == existing && this.dirs == dirs && warnings == {}
      ensures this.refused == refused && this.unreadable == unreadable
    {
      this.existing, this.dirs, this.refused, this.unreadable := existing, dirs, refused, unreadable;
      this.warnings := {};
    }

    /** `os.RemoveAll`: on failure any part of the subtree may be left that is still a tree. */
    method RemoveAll(path: string) returns (ok: bool)
      requires Valid() && IsClean(path)
      modifies this`existing
      ensures Valid() && existing <= old(existing)
      ensures forall p :: p in old(existing) && !Within(p, path) ==> p in existing
      ensures ok <==> path !in refused
      ensures ok ==> forall p :: p in existing ==> !Within(p, path)
    {
      ghost var rest := set p | p in existing && !Within(p, path);
      RestIsTree(existing, dirs, path);
      ok := path !in refused;
      var left: set<string> :| left <= existing && IsTree(left, dirs) && Keeps(existing, left, path)
                               && (ok ==> NoneWithin(left, path));
      assert Keeps(existing, left, path) && (ok ==> NoneWithin(left, path));
      existing := left;
    }

    /** `os.ReadDir`: on failure only some of the entries are returned. */
    method ReadDir(path: string) returns (ok: bool, entries: set<string>)
      requires Valid()
      ensures ok <==> path !in unreadable
      ensures entries <= Entries(existing, path) && (ok ==> entries == Entries(existing, path))
    {
      ok := path !in unreadable;
      entries :| entries <= Entries(existing, path) && (ok ==> entries == Entries(existing, path));
    }

    /** The callback of the walk; true stands for `filepath.SkipDir`. */
    method Visit(path: string, skip: set<string>) returns (skipDir: bool)
      requires Valid() && IsClean(path)
      requires path in skip || forall p :: p in skip ==> !Within(p, path)
      modifies this`existing, this`warnings
      ensures Valid() && existing <= old(existing)
      ensures forall p :: p in old(existing) && (p in skip || !Within(p, path)) ==> p in existing
      ensures path !in skip && path !in refused ==> forall p :: p in existing ==> !Within(p, path)
      ensures skipDir <==> path !in skip && path !in refused && path in dirs
      ensures warnings == old(warnings) + if path !in skip && path in refused then {path} else {}
    {
      if path in skip {
        return false;
      }
      var ok := RemoveAll(path);
      if !ok {
        warnings := warnings + {path};
        return false;
      }
      return path in dirs;
    }

    /** Below a directory that cannot be listed. */
    ghost predicate Hidden(p: string) {
      exists d :: d in unreadable && Within(p, d) && p != d
    }

    /** What is left below `path` is skipped, refused and reported, or hidden. */
    ghost predicate Cleaned(path: string, skip: set<string>)
      reads this
    {
      forall p :: p in existing && Within(p, path) ==> p in skip || (p in refused && p in warnings) || Hidden(p)
    }

    /** Besides what was there before, only refused deletions outside `skip` are reported. */
    ghost predicate WarningsAreTrue(skip: set<string>, before: set<string>)
      reads this
    {
      forall w :: w in warnings - before ==> w in refused && w !in skip
    }

    /** `filepath.WalkDir` below the root of the walk. */
    method WalkDir(path: string, skip: set<string>, ghost cleanPath: string, ghost before: set<string>)
      requires Valid() && IsClean(path) && Within(path, cleanPath) && IsClosed(skip, cleanPath)
      requires WarningsAreTrue(skip, before)
      modifies this`existing, this`warnings
      ensures Valid() && existing <= old(existing) && old(warnings) <= warnings && WarningsAreTrue(skip, before)
      ensures forall p :: p in old(existing) && (p in skip || !Within(p, path)) ==> p in existing
      ensures Cleaned(path, skip)
      decreases Subtree(existing, path)
    {
      ClosedAt(skip, cleanPath, path);
      var skipDir := Visit(path, skip);
      if skipDir || path !in dirs {
        if path !in dirs {
          NothingBelow(existing, dirs, path);
        }
        return;
      }
      var listed, entries := ReadDir(path);
      if !listed {
        skipDir := Visit(path, skip);
        if skipDir {
          return;
        }
      } else {
        TreeAbove(existing, dirs, path, entries);
      }
      while entries != {}
        invariant Valid() && existing <= old(existing) && old(warnings) <= warnings && WarningsAreTrue(skip, before)
        invariant forall p :: p in old(existing) && (p in skip || !Within(p, path)) ==> p in existing
        invariant entries <= Entries(old(existing), path)
        invariant path in existing ==> path in skip || (path in refused && path in warnings)
        invariant forall p :: p in existing && Within(p, path) && p != path
                    ==> p in skip || (p in refused && p in warnings) || Hidden(p) || Excused(p, entries)
        decreases entries
      {
        var entry :| entry in entries;
        EntryShrinks(old(existing), existing, dirs, path, entry);
        WithinTrans(entry, path, cleanPath);
        WalkDir(entry, skip, cleanPath, before);
        entries := entries - {entry};
      }
    }

    /**
     Nothing outside the volume, no skip path and no directory above one is ever removed. Anything else
     survives only if its own deletion was refused, and then it was reported, or if it lies below a directory
     that could not be listed.
     */
    method CleanVolumeBestEffort(cleanPath: string, skipPaths: seq<string>)
      requires Valid() && IsClean(cleanPath)
      requires forall s :: s in skipPaths && HasPrefix(s, cleanPath) ==> IsClean(s)
      modifies this`existing, this`warnings
      ensures Valid() && existing <= old(existing)
      ensures forall p :: p in old(existing) && Protected(p, cleanPath, skipPaths) ==> p in existing
      ensures forall p :: p in existing && !Protected(p, cleanPath, skipPaths) ==>
                (p in refused && p in warnings) || Hidden(p)
      ensures old(warnings) <= warnings && forall w :: w in warnings - old(warnings) ==> w in refused
      ensures refused == {} && unreadable == {} ==>
                && existing == (set p | p in old(existing) && Protected(p, cleanPath, skipPaths))
                && warnings == old(warnings)
    {
      var skip := SkipPathsMap(cleanPath, skipPaths);
      SkipIsClosed(skip, cleanPath, skipPaths);
      forall p | p in existing ensures Protected(p, cleanPath, skipPaths) <==> p in skip || !Within(p, cleanPath) {
        ProtectedIff(p, cleanPath, skipPaths);
      }
      if cleanPath in existing {
        WalkDir(cleanPath, skip, cleanPath, warnings);
      } else {
        NothingBelow(existing, dirs, cleanPath);
      }
      if refused == {} && unreadable == {} {
        ghost var kept := set p | p in old(existing) && Protected(p, cleanPath, skipPaths);
        forall p ensures p in existing <==> p in kept {
          assert !Hidden(p);
        }
        SameSet(existing, kept);
        forall w ensures w in warnings <==> w in old(warnings) {
          assert w in warnings - old(warnings) ==> w in refused;
        }
        SameSet(warnings, old(warnings));
      }
    }
  }
}
