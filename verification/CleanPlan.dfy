/** The clean planner: which build outputs may be removed, and what is never touched. */
module CleanPlan {
  import opened Wrappers

  type Name = string

  /** A path below the repository root; the root is the empty path. */
  type Path = seq<Name>

  /** What is on disk. A link may lead nowhere. */
  datatype Entry = File | Link(resolves: bool) | Other | Dir(children: map<Name, Entry>)

  datatype Options = Options(skipNode: bool, skipCrates: bool, skipContracts: bool)

  const STATE_DIRECTORIES: set<Name> := {".git", ".interfold", "database", "broadcast", "ignition", "deployments"}
  const HARDHAT_CONFIGS: set<Name> := {
    "hardhat.config.js", "hardhat.config.ts", "hardhat.config.cjs", "hardhat.config.cts", "hardhat.config.mjs", "hardhat.config.mts"
  }

  function Lookup(e: Entry, path: Path): Option<Entry> {
    if path == [] then Some(e)
    else if e.Dir? && path[0] in e.children then Lookup(e.children[path[0]], path[1..])
    else None
  }

  lemma {:induction false} LookupConcat(e: Entry, a: Path, b: Path)
    ensures Lookup(e, a + b) == if Lookup(e, a).Some? then Lookup(Lookup(e, a).value, b) else None
  {
    if a == [] {
      assert a + b == b;
    } else {
      assert (a + b)[0] == a[0] && (a + b)[1..] == a[1..] + b;
      if e.Dir? && a[0] in e.children { LookupConcat(e.children[a[0]], a[1..], b); }
    }
  }

  /** A directory that is a repository of its own. */
  predicate IsRepository(e: Entry) {
    e.Dir? && ".git" in e.children && !(e.children[".git"].Link? && !e.children[".git"].resolves)
  }

  function Base(path: Path): Name
    requires path != []
  {
    path[|path| - 1]
  }

  function Parent(path: Path): Path
    requires path != []
  {
    path[..|path| - 1]
  }

  /** What must stay: a tracked file, operator state, a nested repository, anything unusual. */
  predicate Kept(e: Entry, path: Path, tracked: set<Path>) {
    path != [] && (path in tracked || Base(path) in STATE_DIRECTORIES || e.Other? || IsRepository(e))
  }

  // ----- the sets that the planner starts from -----

  /** A tracked file or a directory above one. */
  ghost predicate IsProtected(tracked: seq<Path>, p: Path) {
    p != [] && exists i :: 0 <= i < |tracked| && p <= tracked[i]
  }

  lemma ProtectedNext(tracked: seq<Path>, i: nat, p: Path)
    requires i < |tracked|
    ensures IsProtected(tracked[..i + 1], p) <==> IsProtected(tracked[..i], p) || (p != [] && p <= tracked[i])
  {
    if IsProtected(tracked[..i], p) {
      var k :| 0 <= k < i && p <= tracked[..i][k];
      assert tracked[..i + 1][k] == tracked[..i][k];
    }
    if p != [] && p <= tracked[i] { assert tracked[..i + 1][i] == tracked[i]; }
  }

  method ProtectedPaths(tracked: seq<Path>) returns (protected: set<Path>)
    requires forall i :: 0 <= i < |tracked| ==> tracked[i] != []
    ensures forall p :: p in protected <==> IsProtected(tracked, p)
  {
    protected := set t | t in tracked;
    for i := 0 to |tracked|
      invariant forall p :: p in protected <==> p in tracked || IsProtected(tracked[..i], p)
    {
      var file := tracked[i];
      ghost var before := protected;
      var parent := Parent(file);
      while parent != []
        invariant parent < file
        invariant forall p :: p in protected <==> p in before || (|parent| < |p| < |file| && p <= file)
        decreases |parent|
      {
        forall p ensures p == parent <==> |p| == |parent| && p <= file {
          assert p <= file ==> p == file[..|p|];
        }
        protected := protected + {parent};
        parent := Parent(parent);
      }
      forall p ensures p in protected <==> p in tracked || IsProtected(tracked[..i + 1], p) {
        ProtectedNext(tracked, i, p);
        assert p in before <==> p in tracked || IsProtected(tracked[..i], p);
        assert p <= file && |p| == |file| ==> p == file;
      }
    }
    forall p ensures p in tracked ==> IsProtected(tracked, p) {}
    assert tracked[..|tracked|] == tracked;
  }

  /** The output names beside a tracked manifest. */
  function Outputs(manifest: Name, options: Options): set<Name> {
    (if !options.skipNode && manifest == "package.json" then {"node_modules", "dist", ".pnpm-store"} else {}) +
    (if !options.skipCrates && manifest == "Cargo.toml" then {"target"} else {}) +
    (if !options.skipContracts && manifest in HARDHAT_CONFIGS then {"artifacts", "cache", "out", "types"} else {})
  }

  /** A Hardhat configuration file: a script or a module, of JavaScript or TypeScript. */
  ghost predicate IsHardhatConfig(name: Name) {
    exists kind, language :: kind in ["", "c", "m"] && language in ["j", "t"] && name == "hardhat.config." + kind + language + "s"
  }

  /** What a build makes beside a manifest, unless its kind is skipped. */
  ghost predicate IsBuilt(manifest: Name, name: Name, options: Options) {
    || (name in ["node_modules", "dist", ".pnpm-store"] && manifest == "package.json" && !options.skipNode)
    || (name == "target" && manifest == "Cargo.toml" && !options.skipCrates)
    || (name in ["artifacts", "cache", "out", "types"] && IsHardhatConfig(manifest) && !options.skipContracts)
  }

  lemma HardhatConfigs(name: Name)
    ensures name in HARDHAT_CONFIGS <==> IsHardhatConfig(name)
  {
    var stem := "hardhat.config.";
    assert stem + "" + "j" + "s" == "hardhat.config.js" && stem + "" + "t" + "s" == "hardhat.config.ts";
    assert stem + "c" + "j" + "s" == "hardhat.config.cjs" && stem + "c" + "t" + "s" == "hardhat.config.cts";
    assert stem + "m" + "j" + "s" == "hardhat.config.mjs" && stem + "m" + "t" + "s" == "hardhat.config.mts";
    if name in HARDHAT_CONFIGS {
      var kind := if name in {"hardhat.config.js", "hardhat.config.ts"} then ""
                  else if name in {"hardhat.config.cjs", "hardhat.config.cts"} then "c" else "m";
      var language := if name in {"hardhat.config.js", "hardhat.config.cjs", "hardhat.config.mjs"} then "j" else "t";
      assert kind in ["", "c", "m"] && language in ["j", "t"] && name == stem + kind + language + "s";
    }
    if IsHardhatConfig(name) {
      var kind, language :| kind in ["", "c", "m"] && language in ["j", "t"] && name == stem + kind + language + "s";
    }
  }

  lemma OutputsAreBuilt(manifest: Name, name: Name, options: Options)
    ensures name in Outputs(manifest, options) <==> IsBuilt(manifest, name, options)
  {
    HardhatConfigs(manifest);
    hide IsHardhatConfig;
  }

  ghost predicate IsCandidate(tracked: seq<Path>, options: Options, path: Path) {
    path != [] && exists i :: 0 <= i < |tracked| && tracked[i] != []
                              && Parent(tracked[i]) == Parent(path) && IsBuilt(Base(tracked[i]), Base(path), options)
  }

  method Candidates(tracked: seq<Path>, options: Options) returns (candidates: set<Path>)
    requires forall i :: 0 <= i < |tracked| ==> tracked[i] != []
    ensures forall p :: p in candidates <==> IsCandidate(tracked, options, p)
  {
    hide IsBuilt, Outputs;
    candidates := {};
    for i := 0 to |tracked|
      invariant forall p :: p in candidates <==> IsCandidate(tracked[..i], options, p)
    {
      var file := tracked[i];
      var names := Outputs(Base(file), options);
      ghost var before := candidates;
      candidates := candidates + set n | n in names :: Parent(file) + [n];
      forall p ensures p in candidates <==> IsCandidate(tracked[..i + 1], options, p) {
        CandidateNext(tracked, options, i, p);
        if p != [] { OutputsAreBuilt(Base(file), Base(p), options); }
        assert p in before <==> IsCandidate(tracked[..i], options, p);
        if p != [] && Parent(file) == Parent(p) && Base(p) in names { assert p == Parent(file) + [Base(p)]; }
      }
    }
    assert tracked[..|tracked|] == tracked;
  }

  lemma CandidateNext(tracked: seq<Path>, options: Options, i: nat, p: Path)
    requires i < |tracked| && tracked[i] != []
    ensures IsCandidate(tracked[..i + 1], options, p) <==>
            IsCandidate(tracked[..i], options, p)
            || (p != [] && Parent(tracked[i]) == Parent(p) && IsBuilt(Base(tracked[i]), Base(p), options))
  {
    hide IsBuilt;
    if IsCandidate(tracked[..i], options, p) {
      var k :| 0 <= k < i && tracked[..i][k] != [] && Parent(tracked[..i][k]) == Parent(p)
               && IsBuilt(Base(tracked[..i][k]), Base(p), options);
      assert tracked[..i + 1][k] == tracked[..i][k];
    }
    if p != [] && Parent(tracked[i]) == Parent(p) && IsBuilt(Base(tracked[i]), Base(p), options) {
      assert tracked[..i + 1][i] == tracked[i];
    }
  }

  /** No directory above the path is state, missing, a link or a nested repository. */
  predicate SafeAncestors(root: Entry, path: Path) {
    forall i :: 0 < i < |path| ==> SafeAncestor(root, path[..i])
  }

  predicate SafeAncestor(root: Entry, parent: Path) {
    && parent != [] && Base(parent) !in STATE_DIRECTORIES
    && Lookup(root, parent).Some? && !Lookup(root, parent).value.Link? && !IsRepository(Lookup(root, parent).value)
  }

  // ----- selecting -----

  datatype Selection = Selection(removable: bool, paths: set<Path>)

  /** What may be removed at and below an entry: the entry itself, or parts of it. */
  function Select(e: Entry, path: Path, nested: bool, tracked: set<Path>, protected: set<Path>): Selection
    requires path != []
    decreases e
  {
    if Base(path) in STATE_DIRECTORIES || path in tracked then Selection(false, {})
    else
      match e
      case Link(_) => var removable := nested && path !in protected; Selection(removable, if removable then {path} else {})
      case File => Selection(true, {path})
      case Other => Selection(false, {})
      case Dir(children) =>
        if IsRepository(e) then Selection(false, {})
        else if path !in protected && (forall n :: n in children ==> Select(children[n], path + [n], true, tracked, protected).removable)
        then Selection(true, {path})
        else Selection(false, set n, p | n in children && p in Select(children[n], path + [n], true, tracked, protected).paths :: p)
  }

  /** Nothing at or below the entry must stay. */
  ghost predicate AllClear(e: Entry, path: Path, tracked: set<Path>)
    decreases e
  {
    !Kept(e, path, tracked) && (e.Dir? ==> forall n :: n in e.children ==> AllClear(e.children[n], path + [n], tracked))
  }

  lemma {:induction false} RemovableIsClear(e: Entry, path: Path, nested: bool, tracked: set<Path>, protected: set<Path>)
    requires path != [] && Select(e, path, nested, tracked, protected).removable
    ensures AllClear(e, path, tracked)
    decreases e
  {
    if e.Dir? {
      forall n | n in e.children ensures AllClear(e.children[n], path + [n], tracked) {
        RemovableIsClear(e.children[n], path + [n], true, tracked, protected);
      }
    }
  }

  lemma {:induction false} ClearBelow(e: Entry, path: Path, tracked: set<Path>, rel: Path)
    requires AllClear(e, path, tracked) && Lookup(e, rel).Some?
    ensures !Kept(Lookup(e, rel).value, path + rel, tracked)
    decreases rel
  {
    if rel == [] {
      assert path + rel == path;
    } else {
      ClearBelow(e.children[rel[0]], path + [rel[0]], tracked, rel[1..]);
      assert path + rel == path + [rel[0]] + rel[1..];
    }
  }

  /** On the way from `path` down to `rel` below it, nothing must stay. */
  ghost predicate ClearRoute(e: Entry, path: Path, tracked: set<Path>, rel: Path)
    decreases rel
  {
    && !Kept(e, path, tracked)
    && (rel != [] ==> e.Dir? && rel[0] in e.children && ClearRoute(e.children[rel[0]], path + [rel[0]], tracked, rel[1..]))
  }

  /** What is selected exists below the entry, was reached over nothing that must stay, and nothing
      below it must stay. */
  lemma {:induction false} SelectIsSafe(e: Entry, path: Path, nested: bool, tracked: set<Path>, protected: set<Path>, p: Path)
    requires path != [] && p in Select(e, path, nested, tracked, protected).paths
    ensures path <= p && ClearRoute(e, path, tracked, p[|path|..])
    ensures Lookup(e, p[|path|..]).Some? && AllClear(Lookup(e, p[|path|..]).value, p, tracked)
    decreases e
  {
    var s := Select(e, path, nested, tracked, protected);
    if s.removable {
      assert p == path && p[|path|..] == [];
      RemovableIsClear(e, path, nested, tracked, protected);
    } else {
      var n :| n in e.children && p in Select(e.children[n], path + [n], true, tracked, protected).paths;
      SelectIsSafe(e.children[n], path + [n], true, tracked, protected, p);
      var rel := p[|path|..];
      assert rel[0] == n && rel[1..] == p[|path| + 1..];
    }
  }

  /** Every file that is reached over nothing that must stay is covered by a selected path. */
  lemma {:induction false} SelectIsComplete(e: Entry, path: Path, nested: bool, tracked: set<Path>, protected: set<Path>, rel: Path)
    requires path != [] && Lookup(e, rel) == Some(File) && ClearRoute(e, path, tracked, rel)
    ensures exists p :: p in Select(e, path, nested, tracked, protected).paths && p <= path + rel
    decreases rel
  {
    var s := Select(e, path, nested, tracked, protected);
    if rel == [] || s.removable {
      assert path in s.paths && path <= path + rel;
    } else {
      var n := rel[0];
      SelectIsComplete(e.children[n], path + [n], true, tracked, protected, rel[1..]);
      var p :| p in Select(e.children[n], path + [n], true, tracked, protected).paths && p <= path + [n] + rel[1..];
      assert path + rel == path + [n] + rel[1..];
      assert p in s.paths;
    }
  }

  // ----- what may be removed, from the root -----

  ghost predicate IsState(name: Name) {
    name in [".git", ".interfold", "database", "broadcast", "ignition", "deployments"]
  }

  /** The directory has a `.git` that exists, through a link or not. */
  ghost predicate HoldsRepository(e: Entry) {
    e.Dir? && Lookup(e, [".git"]).Some? && Lookup(e, [".git"]) != Some(Link(false))
  }

  /** A tracked file, operator state, a nested repository or something that is no file, directory or link. */
  ghost predicate MustStay(root: Entry, tracked: seq<Path>, q: Path) {
    q != [] && (q in tracked || IsState(Base(q)) || Lookup(root, q) == Some(Other)
                || (Lookup(root, q).Some? && HoldsRepository(Lookup(root, q).value)))
  }

  /** The entry need not stay, is no directory or link that is a tracked path or above one, and is no
      candidate that is a link. */
  ghost predicate LooseAt(root: Entry, tracked: seq<Path>, c: Path, q: Path) {
    && Lookup(root, q).Some? && !MustStay(root, tracked, q)
    && (Lookup(root, q).value.Link? || Lookup(root, q).value.Dir? ==> !IsProtected(tracked, q))
    && (Lookup(root, q).value.Link? ==> q != c)
  }

  /** Everything at and below the path is loose. */
  ghost predicate GoesWhole(root: Entry, tracked: seq<Path>, c: Path, p: Path) {
    Lookup(root, p).Some? && forall q :: p <= q && Lookup(root, q).Some? ==> LooseAt(root, tracked, c, q)
  }

  /** The path goes whole, and lies at or below a candidate on a way of directories that need not stay;
      above the candidate there is no state, link or repository. */
  ghost predicate GoesFrom(root: Entry, tracked: seq<Path>, c: Path, p: Path) {
    && c != [] && c <= p && GoesWhole(root, tracked, c, p)
    && SafeAbove(root, c) && PassableFrom(root, tracked, c, p)
  }

  /** Above the path there is no state, link or repository, and nothing is missing. */
  ghost predicate SafeAbove(root: Entry, c: Path) {
    forall i :: 0 < i < |c| ==> IsSafe(root, c[..i])
  }

  ghost predicate IsSafe(root: Entry, q: Path) {
    && q != [] && !IsState(Base(q)) && Lookup(root, q).Some? && !Lookup(root, q).value.Link?
    && !HoldsRepository(Lookup(root, q).value)
  }

  ghost predicate PassableFrom(root: Entry, tracked: seq<Path>, c: Path, p: Path) {
    forall i :: |c| <= i < |p| ==> Passable(root, tracked, p[..i])
  }

  ghost predicate Passable(root: Entry, tracked: seq<Path>, q: Path) {
    Lookup(root, q).Some? && Lookup(root, q).value.Dir? && !MustStay(root, tracked, q)
  }

  ghost predicate Goes(root: Entry, tracked: seq<Path>, options: Options, p: Path) {
    exists c :: IsCandidate(tracked, options, c) && GoesFrom(root, tracked, c, p)
  }

  lemma RepositoryIff(e: Entry)
    ensures IsRepository(e) <==> HoldsRepository(e)
  {
    assert [".git"][1..] == [];
    if e.Dir? && ".git" in e.children { assert Lookup(e, [".git"]) == Lookup(e.children[".git"], []); }
  }

  lemma KeptIff(root: Entry, tracked: seq<Path>, q: Path)
    requires q != [] && Lookup(root, q).Some?
    ensures Kept(Lookup(root, q).value, q, Set(tracked)) <==> MustStay(root, tracked, q)
  {
    RepositoryIff(Lookup(root, q).value);
    hide IsRepository, HoldsRepository;
  }

  lemma SafeIff(root: Entry, c: Path)
    ensures SafeAncestors(root, c) <==> SafeAbove(root, c)
  {
    forall q: Path ensures SafeAncestor(root, q) <==> IsSafe(root, q) {
      if Lookup(root, q).Some? { RepositoryIff(Lookup(root, q).value); }
      hide HoldsRepository, IsRepository, Lookup;
    }
    hide SafeAncestor, IsSafe;
  }

  // ----- exactly what is selected -----

  /** One entry does not stand in the way of removing what it is in. */
  predicate Loose(e: Entry, path: Path, nested: bool, tracked: set<Path>, protected: set<Path>) {
    !Kept(e, path, tracked) && (e.Link? || e.Dir? ==> path !in protected) && (e.Link? ==> nested)
  }

  ghost predicate AllLoose(e: Entry, path: Path, nested: bool, tracked: set<Path>, protected: set<Path>) {
    forall rel :: Lookup(e, rel).Some? ==> Loose(Lookup(e, rel).value, path + rel, nested || rel != [], tracked, protected)
  }

  /** Everything is loose if and only if the entry is and everything in it is. */
  lemma AllLooseIff(e: Entry, path: Path, nested: bool, tracked: set<Path>, protected: set<Path>)
    ensures AllLoose(e, path, nested, tracked, protected) <==>
            && Loose(e, path, nested, tracked, protected)
            && (e.Dir? ==> forall n :: n in e.children ==> AllLoose(e.children[n], path + [n], true, tracked, protected))
  {
    hide Loose;
    assert path + [] == path && Lookup(e, []) == Some(e);
    if AllLoose(e, path, nested, tracked, protected) && e.Dir? {
      forall n, rel | n in e.children && Lookup(e.children[n], rel).Some?
        ensures Loose(Lookup(e.children[n], rel).value, path + [n] + rel, true || rel != [], tracked, protected)
      {
        assert ([n] + rel)[1..] == rel && path + ([n] + rel) == path + [n] + rel;
        assert Lookup(e, [n] + rel) == Lookup(e.children[n], rel);
      }
    }
    if Loose(e, path, nested, tracked, protected)
       && (e.Dir? ==> forall n :: n in e.children ==> AllLoose(e.children[n], path + [n], true, tracked, protected))
    {
      forall rel | Lookup(e, rel).Some? ensures Loose(Lookup(e, rel).value, path + rel, nested || rel != [], tracked, protected) {
        if rel != [] {
          assert path + [rel[0]] + rel[1..] == path + rel;
          assert AllLoose(e.children[rel[0]], path + [rel[0]], true, tracked, protected);
        }
      }
    }
  }

  /** An entry is removable if and only if everything at and below it is loose. */
  lemma {:induction false} RemovableIff(e: Entry, path: Path, nested: bool, tracked: set<Path>, protected: set<Path>)
    requires path != []
    ensures Select(e, path, nested, tracked, protected).removable <==> AllLoose(e, path, nested, tracked, protected)
    decreases e
  {
    AllLooseIff(e, path, nested, tracked, protected);
    hide AllLoose;
    if e.Dir? {
      forall n | n in e.children
        ensures Select(e.children[n], path + [n], true, tracked, protected).removable <==>
                AllLoose(e.children[n], path + [n], true, tracked, protected)
      {
        RemovableIff(e.children[n], path + [n], true, tracked, protected);
      }
    }
  }

  /** What is removable at a place below an entry. */
  predicate Removable(e: Entry, path: Path, nested: bool, tracked: set<Path>, protected: set<Path>, rel: Path)
    requires path != []
  {
    Lookup(e, rel).Some? && Select(Lookup(e, rel).value, path + rel, nested || rel != [], tracked, protected).removable
  }

  /** A path is selected if and only if it is reached over nothing that must stay and is removable while
      nothing above it is. */
  lemma {:induction false} SelectExact(e: Entry, path: Path, nested: bool, tracked: set<Path>, protected: set<Path>, rel: Path)
    requires path != []
    ensures path + rel in Select(e, path, nested, tracked, protected).paths <==>
            && ClearRoute(e, path, tracked, rel) && Removable(e, path, nested, tracked, protected, rel)
            && forall i :: 0 <= i < |rel| ==> !Removable(e, path, nested, tracked, protected, rel[..i])
    decreases e
  {
    var s := Select(e, path, nested, tracked, protected);
    assert path + [] == path && Lookup(e, []) == Some(e);
    assert s.removable <==> Removable(e, path, nested, tracked, protected, []);
    if s.removable {
      RemovableIsClear(e, path, nested, tracked, protected);
      if rel != [] { assert rel[..0] == []; }
    } else if rel == [] {
      if path in s.paths { NotBelowItself(e, path, nested, tracked, protected); }
    } else if !Kept(e, path, tracked) && e.Dir? && rel[0] in e.children {
      var n, deep := rel[0], rel[1..];
      SelectExact(e.children[n], path + [n], true, tracked, protected, deep);
      assert path + [n] + deep == path + rel;
      forall i | 0 <= i < |deep|
        ensures Removable(e.children[n], path + [n], true, tracked, protected, deep[..i]) <==>
                Removable(e, path, nested, tracked, protected, rel[..i + 1])
      {
        assert rel[..i + 1][0] == n && rel[..i + 1][1..] == deep[..i] && path + rel[..i + 1] == path + [n] + deep[..i];
      }
      assert Removable(e.children[n], path + [n], true, tracked, protected, deep) <==> Removable(e, path, nested, tracked, protected, rel);
      FromOneChild(e, path, nested, tracked, protected, rel);
      if forall i :: 0 <= i < |deep| ==> !Removable(e.children[n], path + [n], true, tracked, protected, deep[..i]) {
        forall i | 0 <= i < |rel| ensures !Removable(e, path, nested, tracked, protected, rel[..i]) {
          if i > 0 { assert !Removable(e.children[n], path + [n], true, tracked, protected, deep[..i - 1]); } else { assert rel[..0] == []; }
        }
      }
    } else {
      if path + rel in s.paths { FromOneChild(e, path, nested, tracked, protected, rel); }
    }
  }

  lemma NotBelowItself(e: Entry, path: Path, nested: bool, tracked: set<Path>, protected: set<Path>)
    requires path != [] && path in Select(e, path, nested, tracked, protected).paths
    ensures Select(e, path, nested, tracked, protected).removable
  {
    if !Select(e, path, nested, tracked, protected).removable {
      var n :| n in e.children && path in Select(e.children[n], path + [n], true, tracked, protected).paths;
      SelectIsSafe(e.children[n], path + [n], true, tracked, protected, path);
    }
  }

  /** What a directory that stays selects below one child, that child selects. */
  lemma FromOneChild(e: Entry, path: Path, nested: bool, tracked: set<Path>, protected: set<Path>, rel: Path)
    requires path != [] && rel != [] && !Select(e, path, nested, tracked, protected).removable
    ensures path + rel in Select(e, path, nested, tracked, protected).paths <==>
            && !Kept(e, path, tracked) && e.Dir? && rel[0] in e.children
            && path + rel in Select(e.children[rel[0]], path + [rel[0]], true, tracked, protected).paths
  {
    var s := Select(e, path, nested, tracked, protected);
    if path + rel in s.paths {
      var n :| n in e.children && path + rel in Select(e.children[n], path + [n], true, tracked, protected).paths;
      SelectIsSafe(e.children[n], path + [n], true, tracked, protected, path + rel);
      assert (path + rel)[|path|] == rel[0];
    }
  }

  /** A route from a candidate is clear if and only if its directories need not stay. */
  lemma {:induction false} RouteIff(root: Entry, tracked: seq<Path>, at: Path, p: Path)
    requires at != [] && at <= p && Lookup(root, at).Some? && Lookup(root, p).Some? && !MustStay(root, tracked, p)
    ensures ClearRoute(Lookup(root, at).value, at, Set(tracked), p[|at|..]) <==>
            PassableFrom(root, tracked, at, p)
    decreases |p| - |at|
  {
    var e, rel := Lookup(root, at).value, p[|at|..];
    KeptIff(root, tracked, at);
    assert p == at + rel && p[..|at|] == at;
    if rel == [] {
      assert p == at;
    } else {
      var n := rel[0];
      LookupConcat(root, at, rel);
      LookupConcat(root, at, [n]);
      assert e.Dir? && n in e.children && [n][1..] == [];
      assert p[..|at| + 1] == at + [n] && p[|at| + 1..] == rel[1..];
      RouteIff(root, tracked, at + [n], p);
      assert Lookup(root, at + [n]).value == e.children[n];
    }
  }

  lemma WholeIff(root: Entry, tracked: seq<Path>, protected: set<Path>, c: Path, p: Path)
    requires c != [] && c <= p && Lookup(root, c).Some? && forall q :: q in protected <==> IsProtected(tracked, q)
    ensures Removable(Lookup(root, c).value, c, false, Set(tracked), protected, p[|c|..]) <==> GoesWhole(root, tracked, c, p)
  {
    var e, rel := Lookup(root, c).value, p[|c|..];
    assert p == c + rel;
    LookupConcat(root, c, rel);
    if Lookup(root, p).Some? {
      var x := Lookup(root, p).value;
      RemovableIff(x, p, rel != [], Set(tracked), protected);
      hide Select, IsProtected, Kept, MustStay, Loose, LooseAt;
      forall r | Lookup(x, r).Some?
        ensures Loose(Lookup(x, r).value, p + r, rel != [] || r != [], Set(tracked), protected) <==> LooseAt(root, tracked, c, p + r)
      {
        LooseIff(root, tracked, protected, c, p, r);
      }
      WholeIsLoose(root, tracked, c, p);
    }
  }

  lemma LooseIff(root: Entry, tracked: seq<Path>, protected: set<Path>, c: Path, p: Path, r: Path)
    requires c != [] && c <= p && Lookup(root, p).Some? && Lookup(Lookup(root, p).value, r).Some?
    requires forall q :: q in protected <==> IsProtected(tracked, q)
    ensures Lookup(root, p + r) == Lookup(Lookup(root, p).value, r)
    ensures Loose(Lookup(root, p + r).value, p + r, p[|c|..] != [] || r != [], Set(tracked), protected) <==> LooseAt(root, tracked, c, p + r)
  {
    LookupConcat(root, p, r);
    KeptIff(root, tracked, p + r);
    hide Kept, MustStay, IsProtected;
    assert p + r == c <==> p[|c|..] == [] && r == [];
  }

  lemma WholeIsLoose(root: Entry, tracked: seq<Path>, c: Path, p: Path)
    requires Lookup(root, p).Some?
    ensures GoesWhole(root, tracked, c, p) <==> forall r :: Lookup(Lookup(root, p).value, r).Some? ==> LooseAt(root, tracked, c, p + r)
  {
    hide LooseAt;
    forall r ensures Lookup(root, p + r) == Lookup(Lookup(root, p).value, r) { LookupConcat(root, p, r); }
    if forall r :: Lookup(Lookup(root, p).value, r).Some? ==> LooseAt(root, tracked, c, p + r) {
      forall q | p <= q && Lookup(root, q).Some? ensures LooseAt(root, tracked, c, q) {
        assert q == p + q[|p|..];
        assert Lookup(Lookup(root, p).value, q[|p|..]).Some?;
      }
    }
  }

  /** Below a candidate with safe ancestors, a path goes if and only if its route is clear and it is removable. */
  lemma GoesIff(root: Entry, tracked: seq<Path>, protected: set<Path>, c: Path, p: Path)
    requires c != [] && c <= p && SafeAncestors(root, c) && Lookup(root, c).Some?
    requires forall q :: q in protected <==> IsProtected(tracked, q)
    ensures var e, rel := Lookup(root, c).value, p[|c|..];
            GoesFrom(root, tracked, c, p) <==>
            ClearRoute(e, c, Set(tracked), rel) && Removable(e, c, false, Set(tracked), protected, rel)
  {
    SafeIff(root, c);
    WholeIff(root, tracked, protected, c, p);
    assert p == c + p[|c|..];
    assert GoesWhole(root, tracked, c, p) ==> Lookup(root, p).Some? && !MustStay(root, tracked, p) by { assert p <= p; }
    hide SafeAncestors, SafeAbove, PassableFrom, IsProtected, MustStay, GoesWhole, Removable, ClearRoute;
    if GoesWhole(root, tracked, c, p) { RouteIff(root, tracked, c, p); }
  }

  /** What a candidate selects is what goes from it while nothing above does. */
  lemma SelectedIff(root: Entry, tracked: seq<Path>, protected: set<Path>, c: Path, p: Path)
    requires c != [] && c <= p && SafeAncestors(root, c) && Lookup(root, c).Some?
    requires forall q :: q in protected <==> IsProtected(tracked, q)
    ensures SelectedBy(root, c, Set(tracked), protected, p) <==>
            GoesFrom(root, tracked, c, p) && forall i :: |c| <= i < |p| ==> !GoesFrom(root, tracked, c, p[..i])
  {
    var e, rel := Lookup(root, c).value, p[|c|..];
    assert p == c + rel;
    GoesIff(root, tracked, protected, c, p);
    SelectExact(e, c, false, Set(tracked), protected, rel);
    hide Select, SafeAncestors, IsProtected, GoesFrom, Removable, ClearRoute;
    forall i | |c| <= i < |p| && ClearRoute(e, c, Set(tracked), rel)
      ensures GoesFrom(root, tracked, c, p[..i]) <==> Removable(e, c, false, Set(tracked), protected, rel[..i - |c|])
    {
      assert p[..i][|c|..] == rel[..i - |c|] && c <= p[..i];
      GoesIff(root, tracked, protected, c, p[..i]);
      RouteShorter(e, c, Set(tracked), rel, i - |c|);
    }
    if SelectedBy(root, c, Set(tracked), protected, p) {
      forall i | |c| <= i < |p| ensures !GoesFrom(root, tracked, c, p[..i]) {
        assert !Removable(e, c, false, Set(tracked), protected, rel[..i - |c|]);
      }
    }
    if GoesFrom(root, tracked, c, p) && forall i :: |c| <= i < |p| ==> !GoesFrom(root, tracked, c, p[..i]) {
      forall i | 0 <= i < |rel| ensures !Removable(e, c, false, Set(tracked), protected, rel[..i]) {
        assert !GoesFrom(root, tracked, c, p[..i + |c|]);
      }
    }
  }

  lemma {:induction false} RouteShorter(e: Entry, path: Path, tracked: set<Path>, rel: Path, n: nat)
    requires ClearRoute(e, path, tracked, rel) && n <= |rel|
    ensures ClearRoute(e, path, tracked, rel[..n])
    decreases n
  {
    if n > 0 {
      RouteShorter(e.children[rel[0]], path + [rel[0]], tracked, rel[1..], n - 1);
      assert rel[..n][1..] == rel[1..][..n - 1];
    }
  }

  /** Whatever selects a path has it below a candidate with safe ancestors. */
  lemma GoesBelowCandidate(root: Entry, tracked: seq<Path>, c: Path, p: Path)
    requires GoesFrom(root, tracked, c, p)
    ensures c != [] && c <= p && SafeAncestors(root, c) && Lookup(root, c).Some?
  {
    SafeIff(root, c);
    if |c| < |p| { assert p[..|c|] == c && Passable(root, tracked, p[..|c|]); } else { assert p == c; }
  }

  /** The shortest path that goes from a candidate is selected. */
  lemma {:induction false} ShortestIsSelected(root: Entry, tracked: seq<Path>, protected: set<Path>, c: Path, p: Path)
    requires GoesFrom(root, tracked, c, p) && forall q :: q in protected <==> IsProtected(tracked, q)
    ensures exists q :: SelectedBy(root, c, Set(tracked), protected, q) && q <= p
    decreases |p|
  {
    hide GoesFrom, SelectedBy, IsProtected;
    GoesBelowCandidate(root, tracked, c, p);
    SelectedIff(root, tracked, protected, c, p);
    if i :| |c| <= i < |p| && GoesFrom(root, tracked, c, p[..i]) {
      ShortestIsSelected(root, tracked, protected, c, p[..i]);
      var q :| SelectedBy(root, c, Set(tracked), protected, q) && q <= p[..i];
      assert q <= p;
    } else {
      assert p <= p;
    }
  }

  // ----- the plan -----

  /** What the candidates select. */
  ghost predicate IsSelected(root: Entry, candidates: set<Path>, tracked: set<Path>, protected: set<Path>, p: Path) {
    exists c :: c in candidates && SelectedBy(root, c, tracked, protected, p)
  }

  ghost predicate SelectedBy(root: Entry, c: Path, tracked: set<Path>, protected: set<Path>, p: Path) {
    && c != [] && SafeAncestors(root, c) && Lookup(root, c).Some?
    && p in Select(Lookup(root, c).value, c, false, tracked, protected).paths
  }

  /** The files that the plan covers: those below a candidate with safe ancestors, reached from it
      over nothing that must stay. */
  ghost predicate IsOutput(root: Entry, tracked: seq<Path>, options: Options, f: Path) {
    exists c :: IsCandidate(tracked, options, c) && IsOutputOf(root, tracked, c, f)
  }

  ghost predicate IsOutputOf(root: Entry, tracked: seq<Path>, c: Path, f: Path) {
    && c != [] && c <= f && SafeAncestors(root, c) && Lookup(root, c).Some?
    && ClearRoute(Lookup(root, c).value, c, Set(tracked), f[|c|..])
  }

  function Set(tracked: seq<Path>): set<Path> {
    set t | t in tracked
  }

  ghost predicate Covered(plan: set<Path>, f: Path) {
    exists p :: p in plan && p <= f
  }

  /** A path with the paths above it removed from the same set is below one that stays. */
  lemma {:induction false} LeastCovers(paths: set<Path>, p: Path)
    requires p in paths
    ensures exists q :: q in paths && q <= p && forall r :: r in paths ==> !(r < q)
    decreases |p|
  {
    if r :| r in paths && r < p {
      LeastCovers(paths, r);
      var q :| q in paths && q <= r && forall r :: r in paths ==> !(r < q);
      assert q <= p;
    }
  }

  method PlanClean(root: Entry, tracked: seq<Path>, options: Options) returns (plan: set<Path>)
    requires forall i :: 0 <= i < |tracked| ==> tracked[i] != []
    // exactly what goes as a whole is selected, unless something above it is
    ensures forall p :: p in plan <==> Goes(root, tracked, options, p) && forall i :: 0 <= i < |p| ==> !Goes(root, tracked, options, p[..i])
    // nothing selected is, or contains, what must stay
    ensures forall p, rel :: p in plan && Lookup(root, p + rel).Some? ==> !MustStay(root, tracked, p + rel)
    // no selected path is below a state directory, a link or a nested repository
    ensures forall p :: p in plan ==> p != [] && SafeAncestors(root, p)
    // no selected path is below another
    ensures forall p, q :: p in plan && q in plan && p <= q ==> p == q
    // a tracked path or a directory above one is selected exactly when a regular file that is an output
    // stands in its place
    ensures forall p :: IsProtected(tracked, p) ==>
              (p in plan <==> Lookup(root, p) == Some(File) && IsOutput(root, tracked, options, p))
    // and a file is covered exactly when it is an output
    ensures forall f :: Lookup(root, f) == Some(File) ==> (Covered(plan, f) <==> IsOutput(root, tracked, options, f))
  {
    hide *;
    var trackedFiles := Set(tracked);
    var protected := ProtectedPaths(tracked);
    var candidates := Candidates(tracked, options);
    var paths: set<Path> := {};
    var rest := candidates;
    SelectedStart(root, trackedFiles, protected);
    while rest != {}
      invariant rest <= candidates
      invariant forall p :: p in paths <==> IsSelected(root, candidates - rest, trackedFiles, protected, p)
      decreases rest
    {
      var c: Path :| c in rest;
      CandidateNotEmpty(tracked, options, c);
      var found := if SafeAncestors(root, c) && Lookup(root, c).Some?
                   then Select(Lookup(root, c).value, c, false, trackedFiles, protected).paths else {};
      SelectedNext(root, candidates, rest, trackedFiles, protected, c, found);
      paths := paths + found;
      rest := rest - {c};
    }
    assert candidates - rest == candidates;
    plan := set p | p in paths && forall q :: q in paths ==> !(q < p);
    PlanIsRight(root, tracked, options, protected, candidates, paths, plan);
    forall p ensures p in plan <==> Goes(root, tracked, options, p) && forall i :: 0 <= i < |p| ==> !Goes(root, tracked, options, p[..i]) {
      PlanIsExact(root, tracked, options, protected, candidates, paths, plan, p);
    }
    forall p, rel | p in plan && Lookup(root, p + rel).Some? ensures !MustStay(root, tracked, p + rel) {
      KeptIff(root, tracked, p + rel);
    }
  }

  lemma CandidateNotEmpty(tracked: seq<Path>, options: Options, c: Path)
    requires IsCandidate(tracked, options, c)
    ensures c != []
  {}

  lemma SelectedStart(root: Entry, tracked: set<Path>, protected: set<Path>)
    ensures forall candidates: set<Path>, p :: candidates == {} ==> !IsSelected(root, candidates, tracked, protected, p)
  {}

  lemma SelectedNext(root: Entry, candidates: set<Path>, rest: set<Path>, tracked: set<Path>, protected: set<Path>, c: Path, found: set<Path>)
    requires c in rest && rest <= candidates && c != []
    requires found == if SafeAncestors(root, c) && Lookup(root, c).Some?
                      then Select(Lookup(root, c).value, c, false, tracked, protected).paths else {}
    ensures forall p :: IsSelected(root, candidates - (rest - {c}), tracked, protected, p) <==>
                        IsSelected(root, candidates - rest, tracked, protected, p) || p in found
  {
    hide Select, SafeAncestors, Lookup;
    var now := candidates - (rest - {c});
    assert now == candidates - rest + {c};
    forall p ensures IsSelected(root, now, tracked, protected, p) <==>
                     IsSelected(root, candidates - rest, tracked, protected, p) || p in found
    {
      assert p in found <==> SelectedBy(root, c, tracked, protected, p);
      if IsSelected(root, now, tracked, protected, p) {
        var d :| d in now && SelectedBy(root, d, tracked, protected, p);
        assert d == c || d in candidates - rest;
      }
      if IsSelected(root, candidates - rest, tracked, protected, p) {
        var d :| d in candidates - rest && SelectedBy(root, d, tracked, protected, p);
        assert d in now;
      }
    }
  }

  /** A selected path is safe to remove. */
  lemma SelectedIsSafe(root: Entry, c: Path, tracked: seq<Path>, protected: set<Path>, p: Path)
    requires SelectedBy(root, c, Set(tracked), protected, p)
    ensures c <= p && p != [] && SafeAncestors(root, p) && Lookup(root, p).Some? && AllClear(Lookup(root, p).value, p, Set(tracked))
    ensures IsOutputOf(root, tracked, c, p)
  {
    var e := Lookup(root, c).value;
    SelectIsSafe(e, c, false, Set(tracked), protected, p);
    var rel := p[|c|..];
    assert p == c + rel;
    LookupConcat(root, c, rel);
    forall i | 0 < i < |p| ensures SafeAncestor(root, p[..i]) {
      if i < |c| {
        assert p[..i] == c[..i];
      } else {
        RouteIsSafe(e, c, Set(tracked), rel, i - |c|);
        assert p[..i] == c + rel[..i - |c|];
        LookupConcat(root, c, rel[..i - |c|]);
      }
    }
  }

  /** What is passed on a clear route is a directory and neither state nor a repository. */
  lemma {:induction false} RouteIsSafe(e: Entry, path: Path, tracked: set<Path>, rel: Path, n: nat)
    requires path != [] && ClearRoute(e, path, tracked, rel) && n < |rel|
    ensures var at := Lookup(e, rel[..n]);
            && at.Some? && at.value.Dir? && !IsRepository(at.value)
            && Base(path + rel[..n]) !in STATE_DIRECTORIES
    decreases rel
  {
    if n == 0 {
      assert path + rel[..0] == path;
    } else {
      RouteIsSafe(e.children[rel[0]], path + [rel[0]], tracked, rel[1..], n - 1);
      assert rel[..n][1..] == rel[1..][..n - 1];
      assert path + rel[..n] == path + [rel[0]] + rel[1..][..n - 1];
    }
  }

  lemma {:induction false} RouteOn(e: Entry, path: Path, tracked: set<Path>, a: Path, b: Path)
    requires ClearRoute(e, path, tracked, a) && Lookup(e, a + b).Some? && Lookup(e, a).Some?
    requires AllClear(Lookup(e, a).value, path + a, tracked)
    ensures ClearRoute(e, path, tracked, a + b)
    decreases |a + b|
  {
    if a != [] {
      assert (a + b)[0] == a[0] && (a + b)[1..] == a[1..] + b;
      assert path + a == path + [a[0]] + a[1..];
      RouteOn(e.children[a[0]], path + [a[0]], tracked, a[1..], b);
    } else if b != [] {
      assert a + b == b && path + a == path;
      var n := b[0];
      assert [] + b[1..] == b[1..] && path + [n] + [] == path + [n];
      RouteOn(e.children[n], path + [n], tracked, [], b[1..]);
    } else {
      assert path + a == path && a + b == [];
    }
  }

  lemma CoveredIsOutput(root: Entry, tracked: seq<Path>, c: Path, protected: set<Path>, p: Path, f: Path)
    requires SelectedBy(root, c, Set(tracked), protected, p) && p <= f && Lookup(root, f).Some?
    ensures IsOutputOf(root, tracked, c, f)
  {
    SelectedIsSafe(root, c, tracked, protected, p);
    var e, a, b := Lookup(root, c).value, p[|c|..], f[|p|..];
    assert p == c + a && f == c + (a + b) && f[|c|..] == a + b;
    LookupConcat(root, c, a + b);
    LookupConcat(root, c, a);
    RouteOn(e, c, Set(tracked), a, b);
  }

  lemma OutputIsCovered(root: Entry, tracked: seq<Path>, c: Path, protected: set<Path>, f: Path)
    requires IsOutputOf(root, tracked, c, f) && Lookup(root, f) == Some(File)
    ensures exists p :: SelectedBy(root, c, Set(tracked), protected, p) && p <= f
  {
    var e, rel := Lookup(root, c).value, f[|c|..];
    assert f == c + rel;
    LookupConcat(root, c, rel);
    SelectIsComplete(e, c, false, Set(tracked), protected, rel);
    var p :| p in Select(e, c, false, Set(tracked), protected).paths && p <= c + rel;
    assert SelectedBy(root, c, Set(tracked), protected, p);
  }

  lemma PlanIsRight(root: Entry, tracked: seq<Path>, options: Options, protected: set<Path>, candidates: set<Path>,
                    paths: set<Path>, plan: set<Path>)
    requires forall p :: p in candidates <==> IsCandidate(tracked, options, p)
    requires forall p :: p in paths <==> IsSelected(root, candidates, Set(tracked), protected, p)
    requires forall p :: p in protected <==> IsProtected(tracked, p)
    requires plan == set p | p in paths && forall q :: q in paths ==> !(q < p)
    ensures forall p :: IsProtected(tracked, p) ==>
              (p in plan <==> Lookup(root, p) == Some(File) && IsOutput(root, tracked, options, p))
    ensures forall p, rel :: p in plan && Lookup(root, p + rel).Some? ==> !Kept(Lookup(root, p + rel).value, p + rel, Set(tracked))
    ensures forall p :: p in plan ==> p != [] && SafeAncestors(root, p)
    ensures forall p, q :: p in plan && q in plan && p <= q ==> p == q
    ensures forall f :: Lookup(root, f) == Some(File) ==> (Covered(plan, f) <==> IsOutput(root, tracked, options, f))
  {
    hide Lookup, Kept, SafeAncestors, IsCandidate, IsOutputOf, SelectedBy, AllClear, Set, IsProtected;
    forall p | p in plan ensures p != [] && SafeAncestors(root, p) && Lookup(root, p).Some? && AllClear(Lookup(root, p).value, p, Set(tracked)) {
      var c :| c in candidates && SelectedBy(root, c, Set(tracked), protected, p);
      SelectedIsSafe(root, c, tracked, protected, p);
    }
    forall p, rel | p in plan && Lookup(root, p + rel).Some? ensures !Kept(Lookup(root, p + rel).value, p + rel, Set(tracked)) {
      LookupConcat(root, p, rel);
      ClearBelow(Lookup(root, p).value, p, Set(tracked), rel);
    }
    forall f | Lookup(root, f) == Some(File) ensures Covered(plan, f) <==> IsOutput(root, tracked, options, f) {
      if Covered(plan, f) {
        var p :| p in plan && p <= f;
        var c :| c in candidates && SelectedBy(root, c, Set(tracked), protected, p);
        CoveredIsOutput(root, tracked, c, protected, p, f);
      }
      if IsOutput(root, tracked, options, f) {
        var c :| IsCandidate(tracked, options, c) && IsOutputOf(root, tracked, c, f);
        OutputIsCovered(root, tracked, c, protected, f);
        var p :| SelectedBy(root, c, Set(tracked), protected, p) && p <= f;
        assert IsSelected(root, candidates, Set(tracked), protected, p);
        LeastCovers(paths, p);
        var q :| q in paths && q <= p && forall r :: r in paths ==> !(r < q);
        assert q in plan && q <= f;
      }
    }
    forall p | IsProtected(tracked, p)
      ensures p in plan <==> Lookup(root, p) == Some(File) && IsOutput(root, tracked, options, p)
    {
      if p in plan {
        var c :| c in candidates && SelectedBy(root, c, Set(tracked), protected, p);
        ProtectedIsFile(root, c, tracked, protected, p);
        assert p <= p;
      }
      if Lookup(root, p) == Some(File) && IsOutput(root, tracked, options, p) {
        assert Covered(plan, p);
        var q :| q in plan && q <= p;
        var c :| c in candidates && SelectedBy(root, c, Set(tracked), protected, q);
        SelectedIsSafe(root, c, tracked, protected, q);
        ProtectedAbove(tracked, q, p);
        ProtectedIsFile(root, c, tracked, protected, q);
        NothingBelowFile(root, q, p);
      }
    }
  }

  /** The plan is what goes while nothing above it does. */
  lemma PlanIsExact(root: Entry, tracked: seq<Path>, options: Options, protected: set<Path>, candidates: set<Path>,
                    paths: set<Path>, plan: set<Path>, p: Path)
    requires forall p :: p in candidates <==> IsCandidate(tracked, options, p)
    requires forall p :: p in paths <==> IsSelected(root, candidates, Set(tracked), protected, p)
    requires forall p :: p in protected <==> IsProtected(tracked, p)
    requires plan == set p | p in paths && forall q :: q in paths ==> !(q < p)
    ensures p in plan <==> Goes(root, tracked, options, p) && forall i :: 0 <= i < |p| ==> !Goes(root, tracked, options, p[..i])
  {
    hide IsCandidate, IsProtected, SelectedBy, GoesFrom;
    if p in plan {
      SelectedGoes(root, tracked, options, protected, candidates, p);
      forall i | 0 <= i < |p| ensures !Goes(root, tracked, options, p[..i]) {
        GoesIsCovered(root, tracked, options, protected, candidates, paths, p[..i]);
      }
    }
    if Goes(root, tracked, options, p) && forall i :: 0 <= i < |p| ==> !Goes(root, tracked, options, p[..i]) {
      var c :| IsCandidate(tracked, options, c) && GoesFrom(root, tracked, c, p);
      GoesBelowCandidate(root, tracked, c, p);
      SelectedIff(root, tracked, protected, c, p);
      forall i | |c| <= i < |p| ensures !GoesFrom(root, tracked, c, p[..i]) { assert !Goes(root, tracked, options, p[..i]); }
      assert SelectedBy(root, c, Set(tracked), protected, p);
      forall q | q in paths ensures !(q < p) {
        assert q < p ==> p[..|q|] == q;
        SelectedGoes(root, tracked, options, protected, candidates, q);
        forall i | 0 <= i < |p| ensures p[..i] != q { assert !Goes(root, tracked, options, p[..i]); }
      }
    }
  }

  lemma GoesIsCovered(root: Entry, tracked: seq<Path>, options: Options, protected: set<Path>, candidates: set<Path>,
                      paths: set<Path>, p: Path)
    requires forall p :: p in candidates <==> IsCandidate(tracked, options, p)
    requires forall p :: p in paths <==> IsSelected(root, candidates, Set(tracked), protected, p)
    requires forall p :: p in protected <==> IsProtected(tracked, p)
    ensures Goes(root, tracked, options, p) ==> exists q :: q in paths && q <= p
  {
    hide IsCandidate, IsProtected, SelectedBy, GoesFrom;
    if Goes(root, tracked, options, p) {
      var d :| IsCandidate(tracked, options, d) && GoesFrom(root, tracked, d, p);
      ShortestIsSelected(root, tracked, protected, d, p);
      var q :| SelectedBy(root, d, Set(tracked), protected, q) && q <= p;
      assert q in paths;
    }
  }

  lemma SelectedGoes(root: Entry, tracked: seq<Path>, options: Options, protected: set<Path>, candidates: set<Path>, p: Path)
    requires forall p :: p in candidates <==> IsCandidate(tracked, options, p)
    requires forall p :: p in protected <==> IsProtected(tracked, p)
    requires IsSelected(root, candidates, Set(tracked), protected, p)
    ensures Goes(root, tracked, options, p)
  {
    var c :| c in candidates && SelectedBy(root, c, Set(tracked), protected, p);
    SelectIsSafe(Lookup(root, c).value, c, false, Set(tracked), protected, p);
    hide IsCandidate, IsProtected, GoesFrom, Select, SafeAncestors;
    SelectedIff(root, tracked, protected, c, p);
  }

  lemma ProtectedAbove(tracked: seq<Path>, q: Path, p: Path)
    requires IsProtected(tracked, p) && q <= p && q != []
    ensures IsProtected(tracked, q)
  {
    var i :| 0 <= i < |tracked| && p <= tracked[i];
    assert q <= tracked[i];
  }

  lemma NothingBelowFile(root: Entry, q: Path, p: Path)
    requires q <= p && Lookup(root, q) == Some(File) && Lookup(root, p).Some?
    ensures q == p
  {
    assert p == q + p[|q|..];
    LookupConcat(root, q, p[|q|..]);
  }

  /** Select never removes a protected directory or link. */
  lemma {:induction false} SelectSparesProtected(e: Entry, path: Path, nested: bool, tracked: set<Path>, protected: set<Path>, p: Path)
    requires path != [] && p in Select(e, path, nested, tracked, protected).paths && p in protected
    ensures path <= p && Lookup(e, p[|path|..]) == Some(File)
    decreases e
  {
    SelectIsSafe(e, path, nested, tracked, protected, p);
    var s := Select(e, path, nested, tracked, protected);
    if s.removable {
      assert p == path && p[|path|..] == [];
    } else {
      var n :| n in e.children && p in Select(e.children[n], path + [n], true, tracked, protected).paths;
      SelectSparesProtected(e.children[n], path + [n], true, tracked, protected, p);
      var rel := p[|path|..];
      assert rel[0] == n && rel[1..] == p[|path| + 1..];
    }
  }

  lemma ProtectedIsFile(root: Entry, c: Path, tracked: seq<Path>, protected: set<Path>, p: Path)
    requires SelectedBy(root, c, Set(tracked), protected, p) && p in protected
    ensures Lookup(root, p) == Some(File)
  {
    SelectSparesProtected(Lookup(root, c).value, c, false, Set(tracked), protected, p);
    assert p == c + p[|c|..];
    LookupConcat(root, c, p[|c|..]);
  }

  /** A regular file where a tracked path needs a directory is removed: `target/x` is tracked and
      missing, and `target` is a file beside a tracked manifest. */
  lemma FileAboveTrackedIsOutput()
    ensures var root := Dir(map["Cargo.toml" := File, "target" := File]);
            var tracked := [["Cargo.toml"], ["target", "x"]];
            && Lookup(root, ["target"]) == Some(File) && IsProtected(tracked, ["target"])
            && IsOutput(root, tracked, Options(false, false, false), ["target"])
  {
    var root := Dir(map["Cargo.toml" := File, "target" := File]);
    var tracked: seq<Path> := [["Cargo.toml"], ["target", "x"]];
    var options, c: Path := Options(false, false, false), ["target"];
    assert c[1..] == [] && c[|c|..] == [];
    assert Lookup(root, c) == Some(File);
    assert c <= tracked[1];
    assert Parent(tracked[0]) == Parent(c) == [] && Base(tracked[0]) == "Cargo.toml";
    assert IsBuilt(Base(tracked[0]), Base(c), options);
    assert IsCandidate(tracked, options, c);
    assert c !in Set(tracked);
    assert IsOutputOf(root, tracked, c, c);
  }
}
