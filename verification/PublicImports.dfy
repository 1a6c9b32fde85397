/** The files made visible by an import: the closure of an import under public imports. */
module PublicImports {
  import opened Descriptors

  type Files = map<string, FileProto>

  /** The names a file imports publicly; indexes that are out of range are dropped. */
  function PublicTargets(file: FileProto): seq<string> {
    PublicTargetsUpTo(file, |file.publicDependencies|)
  }

  function PublicTargetsUpTo(file: FileProto, n: nat): (ts: seq<string>)
    requires n <= |file.publicDependencies|
    ensures forall t | t in ts :: t in file.dependencies
  {
    if n == 0 then []
    else
      var k := file.publicDependencies[n - 1];
      PublicTargetsUpTo(file, n - 1) + (if 0 <= k < |file.dependencies| then [file.dependencies[k]] else [])
  }

  /** These are the imports at the positions listed. */
  lemma {:induction false} PublicTargetsMeans(file: FileProto, t: string)
    ensures t in PublicTargets(file) <==> IsPublicImport(file, t)
  {
    PublicTargetsUpToMeans(file, |file.publicDependencies|, t);
  }

  ghost predicate IsPublicImport(file: FileProto, t: string) {
    exists i | 0 <= i < |file.publicDependencies| ::
      0 <= file.publicDependencies[i] < |file.dependencies| && t == file.dependencies[file.publicDependencies[i]]
  }

  lemma {:induction false} PublicTargetsUpToMeans(file: FileProto, n: nat, t: string)
    requires n <= |file.publicDependencies|
    ensures t in PublicTargetsUpTo(file, n) <==>
            exists i | 0 <= i < n ::
              && 0 <= file.publicDependencies[i] < |file.dependencies|
              && t == file.dependencies[file.publicDependencies[i]]
  {
    if n > 0 {
      PublicTargetsUpToMeans(file, n - 1, t);
    }
  }

  /** `path` starts at `from`, follows public imports, and visits only files that exist. */
  ghost predicate PublicPath(files: Files, from: string, path: seq<string>) {
    && path != [] && path[0] == from
    && (forall i | 0 <= i < |path| :: path[i] in files)
    && (forall i | 0 <= i < |path| - 1 :: path[i + 1] in PublicTargets(files[path[i]]))
  }

  /** `to` is reached from `from` by zero or more public imports. */
  ghost predicate Reaches(files: Files, from: string, to: string) {
    exists path :: PublicPath(files, from, path) && path[|path| - 1] == to
  }

  /** The files visible through a list of direct imports. */
  ghost function Visible(files: Files, imports: seq<string>): set<string> {
    set f | f in files && exists i | 0 <= i < |imports| :: Reaches(files, imports[i], f)
  }

  lemma ReachesItself(files: Files, f: string)
    requires f in files
    ensures Reaches(files, f, f)
  {
    assert PublicPath(files, f, [f]);
  }

  lemma ReachesThrough(files: Files, f: string, t: string, to: string)
    requires f in files && t in PublicTargets(files[f]) && Reaches(files, t, to)
    ensures Reaches(files, f, to)
  {
    var path :| PublicPath(files, t, path) && path[|path| - 1] == to;
    var longer := [f] + path;
    forall i | 0 <= i < |longer| - 1
      ensures longer[i + 1] in PublicTargets(files[longer[i]])
    {
      if i > 0 {
        assert longer[i] == path[i - 1] && longer[i + 1] == path[i];
      }
    }
    assert PublicPath(files, f, longer);
  }

  /** Every existing public target of `f` is in `within`. */
  ghost predicate TargetsIn(files: Files, f: string, within: set<string>)
    requires f in files
  {
    forall t | t in PublicTargets(files[f]) && t in files :: t in within
  }

  /**
   What one call of the depth-first search owes: it adds `root` and only files reachable from it,
   and whatever it adds has its public targets visited as well. Files that were already visited
   may still be in progress, so nothing is said of theirs.
   */
  ghost predicate Recorded(files: Files, before: set<string>, after: set<string>, root: string) {
    && before <= after
    && (root in files ==> root in after)
    && (forall f | f in after && f !in before :: f in files && Reaches(files, root, f) && TargetsIn(files, f, after))
  }

  /** The search below `root` after the targets in `done`; only `root` itself is still in progress. */
  ghost predicate RecordedSoFar(files: Files, before: set<string>, now: set<string>, root: string, done: seq<string>) {
    && before + {root} <= now
    && root in files
    && (forall f | f in now && f !in before ::
          f in files && Reaches(files, root, f) && (f == root || TargetsIn(files, f, now)))
    && (forall t | t in done && t in files :: t in now)
  }

  lemma RecordedStep(files: Files, before: set<string>, now: set<string>, after: set<string>, root: string,
                     ts: seq<string>, i: nat)
    requires i < |ts| && root in files && ts == PublicTargets(files[root])
    requires RecordedSoFar(files, before, now, root, ts[..i]) && Recorded(files, now, after, ts[i])
    ensures RecordedSoFar(files, before, after, root, ts[..i + 1])
  {
    forall f | f in after && f !in before
      ensures f in files && Reaches(files, root, f) && (f == root || TargetsIn(files, f, after))
    {
      if f !in now {
        ReachesThrough(files, root, ts[i], f);
      }
    }
  }

  lemma RecordedFinish(files: Files, before: set<string>, now: set<string>, root: string)
    requires root in files && RecordedSoFar(files, before, now, root, PublicTargets(files[root]))
    ensures Recorded(files, before, now, root)
  {
  }

  /** A visited set closed under public targets contains everything reachable from its members. */
  lemma {:induction false} ClosedReaches(files: Files, within: set<string>, path: seq<string>, from: string)
    requires from in within && PublicPath(files, from, path)
    requires forall f | f in within && f in files :: TargetsIn(files, f, within)
    ensures path[|path| - 1] in within
    decreases |path|
  {
    if |path| > 1 {
      assert path[1] in PublicTargets(files[path[0]]);
      assert TargetsIn(files, path[0], within);
      var rest := path[1..];
      forall i | 0 <= i < |rest| - 1
        ensures rest[i + 1] in PublicTargets(files[rest[i]])
      {
        assert path[i + 1 + 1] in PublicTargets(files[path[i + 1]]);
      }
      assert PublicPath(files, path[1], rest);
      ClosedReaches(files, within, rest, path[1]);
    }
  }

  /** What the visited set is after the first `n` direct imports, when the search started from the empty set. */
  ghost predicate RecordedAll(files: Files, imports: seq<string>, n: nat, visited: set<string>)
    requires n <= |imports|
  {
    && visited <= files.Keys
    && (forall i | 0 <= i < n && imports[i] in files :: imports[i] in visited)
    && (forall f | f in visited :: TargetsIn(files, f, visited))
    && (forall f | f in visited :: exists i | 0 <= i < n :: Reaches(files, imports[i], f))
  }

  lemma RecordOneMore(files: Files, imports: seq<string>, n: nat, before: set<string>, after: set<string>)
    requires n < |imports| && RecordedAll(files, imports, n, before)
    requires Recorded(files, before, after, imports[n])
    ensures RecordedAll(files, imports, n + 1, after)
  {
  }

  /** The accumulated visited set is exactly the set of visible files, cycles or not. */
  lemma {:induction false} RecordedAllIsVisible(files: Files, imports: seq<string>, visited: set<string>)
    requires RecordedAll(files, imports, |imports|, visited)
    ensures visited == Visible(files, imports)
  {
    forall f | f in Visible(files, imports)
      ensures f in visited
    {
      var i :| 0 <= i < |imports| && Reaches(files, imports[i], f);
      var path :| PublicPath(files, imports[i], path) && path[|path| - 1] == f;
      assert path[0] in files;
      ClosedReaches(files, visited, path, imports[i]);
    }
  }

  /** A file is visible exactly when it is a direct import or a public import of a visible file. */
  lemma VisibleUnfolds(files: Files, imports: seq<string>, f: string)
    ensures f in Visible(files, imports) <==>
            f in files && (f in imports || exists g | g in Visible(files, imports) :: IsPublicImport(files[g], f))
  {
    hide Reaches, PublicTargets, IsPublicImport;
    VisibleByTargets(files, imports, f);
    forall g | g in Visible(files, imports)
      ensures IsPublicImport(files[g], f) <==> f in PublicTargets(files[g])
    {
      PublicTargetsMeans(files[g], f);
    }
  }

  lemma VisibleByTargets(files: Files, imports: seq<string>, f: string)
    ensures f in Visible(files, imports) <==>
            f in files && (f in imports || exists g | g in Visible(files, imports) :: f in PublicTargets(files[g]))
  {
    hide PublicTargets;
    var v := Visible(files, imports);
    if f in files && f in imports {
      ReachesItself(files, f);
      var i :| 0 <= i < |imports| && imports[i] == f;
      assert Reaches(files, imports[i], f);
    }
    if g :| f in files && g in v && f in PublicTargets(files[g]) {
      var i :| 0 <= i < |imports| && Reaches(files, imports[i], g);
      ReachesOneMore(files, imports[i], g, f);
    }
    if f in v {
      var i :| 0 <= i < |imports| && Reaches(files, imports[i], f);
      var path :| PublicPath(files, imports[i], path) && path[|path| - 1] == f;
      if |path| > 1 {
        var g := path[|path| - 2];
        assert PublicPath(files, imports[i], path[..|path| - 1]);
        assert Reaches(files, imports[i], g);
        assert path[|path| - 2 + 1] in PublicTargets(files[path[|path| - 2]]);
        assert g in v;
      }
    }
  }

  lemma ReachesOneMore(files: Files, from: string, g: string, t: string)
    requires Reaches(files, from, g) && g in files && t in PublicTargets(files[g]) && t in files
    ensures Reaches(files, from, t)
  {
    var path :| PublicPath(files, from, path) && path[|path| - 1] == g;
    assert PublicPath(files, from, path + [t]);
  }
}
