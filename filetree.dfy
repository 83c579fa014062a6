/** An in-memory stand-in for the host filesystem that the gadget code drives
    through `os.makedirs`, `open(..., 'w'/'wb')`, `os.symlink`,
    `os.path.exists` and `os.chdir`.  A tree maps absolute paths (sequences of
    names; the root `[]` is implicit and always a directory) to nodes.  Each
    primitive returns the new tree together with the error it raises, if any,
    so that "what has been written when the error surfaced" is part of the
    value.  Symbolic links are followed one step at the final component of a
    path, which is all the gadget layout ever needs. */
module FileTree {
  import opened Outcomes

  type byte = b: int | 0 <= b < 0x100

  type Path = seq<string>

  /** What a file holds: text written in 'w' mode or raw bytes written in 'wb' mode. */
  datatype Content = TextContent(text: string) | RawContent(bytes: seq<byte>)

  datatype Node = Dir | File(content: Content) | Link(target: Path)

  type Tree = map<Path, Node>

  /** A tree after an operation, and whether the operation raised. */
  datatype Effect = Effect(tree: Tree, outcome: Outcome)

  function Parent(p: Path): Path
    requires |p| > 0
  {
    p[..|p| - 1]
  }

  /** A directory entry exists at `p` itself (lstat succeeds). */
  predicate Present(t: Tree, p: Path) {
    p == [] || p in t
  }

  /** `p` is a directory node itself (not a link to one). */
  predicate IsDirNode(t: Tree, p: Path) {
    p == [] || (p in t && t[p].Dir?)
  }

  /** The path a link at `p` stands for; any other path stands for itself. */
  function Resolve(t: Tree, p: Path): Path {
    if p != [] && p in t && t[p].Link? then t[p].target else p
  }

  /** `os.path.exists`: false for a dangling link. */
  predicate Exists(t: Tree, p: Path) {
    Present(t, Resolve(t, p))
  }

  /** `os.path.isdir`. */
  predicate IsDir(t: Tree, p: Path) {
    IsDirNode(t, Resolve(t, p))
  }

  /** Every node hangs under a directory node: the shape a real filesystem has. */
  ghost predicate Valid(t: Tree) {
    forall p :: p in t ==> |p| > 0 && IsDirNode(t, Parent(p))
  }

  /** The non-empty prefixes of `p`, `p` included: what `makedirs` may create. */
  function Prefixes(p: Path): set<Path> {
    set k | 1 <= k <= |p| :: p[..k]
  }

  /** Some ancestor of `p` exists but is not a directory node. */
  predicate BlockedAncestor(t: Tree, p: Path) {
    exists k :: 1 <= k < |p| && p[..k] in t && !t[p[..k]].Dir?
  }

  /** `os.makedirs(p, exist_ok=existOk)`. An existing entry raises
      FileExistsError unless `existOk` holds and it is a directory; an
      ancestor that is not a directory makes `mkdir` fail with another error;
      otherwise every missing directory on the way is created. */
  function MakeDirs(t: Tree, p: Path, existOk: bool): (e: Effect)
    ensures e.outcome.Pass? ==> IsDir(e.tree, p)
    ensures e.outcome.Fail? ==> e.tree == t
    ensures e.outcome == Fail(FileExists) <==> Present(t, p) && !(existOk && IsDir(t, p))
  {
    if Present(t, p) then
      if existOk && IsDir(t, p) then Effect(t, Pass) else Effect(t, Fail(FileExists))
    else if BlockedAncestor(t, p) then Effect(t, Fail(HostError))
    else
      assert p == p[..|p|];
      Effect(t + map q | q in Prefixes(p) :: Dir, Pass)
  }

  /** `os.symlink(target, at)`: the link is created only where nothing exists. */
  function Symlink(t: Tree, target: Path, at: Path): (e: Effect)
    ensures e.outcome.Pass? ==> e.tree == t[at := Link(target)] && !Present(t, at)
    ensures e.outcome.Fail? ==> e.tree == t
    ensures e.outcome == Fail(FileExists) <==> Present(t, at)
  {
    if Present(t, at) then Effect(t, Fail(FileExists))
    else if !IsDirNode(t, Parent(at)) then Effect(t, Fail(HostError))
    else Effect(t[at := Link(target)], Pass)
  }

  /** `open(p, 'w' or 'wb').write(c)`: follows a link at `p`, replaces an
      existing file, creates a new one in an existing directory. */
  function Write(t: Tree, p: Path, c: Content): (e: Effect)
    ensures e.outcome.Pass? ==> e.tree == t[Resolve(t, p) := File(c)]
    ensures e.outcome.Fail? ==> e.tree == t && e.outcome == Fail(HostError)
  {
    var q := Resolve(t, p);
    if q == [] || (q in t && !t[q].File?) then Effect(t, Fail(HostError))
    else if !IsDirNode(t, Parent(q)) then Effect(t, Fail(HostError))
    else Effect(t[q := File(c)], Pass)
  }

  /** `open(p, 'r').read()`: the text of the file at `p`; raw bytes read back
      as the characters with the same codes. */
  function ReadText(t: Tree, p: Path): Result<string> {
    var q := Resolve(t, p);
    if q in t && t[q].File? then
      match t[q].content
      case TextContent(s) => Ok(s)
      case RawContent(b) => Ok(seq(|b|, k requires 0 <= k < |b| => b[k] as char))
    else Err(HostError)
  }

  /** Growth without loss: entries are never removed, a directory stays a
      directory, a link keeps its target, a file stays a file (its content
      may be rewritten). */
  ghost predicate Extends(t: Tree, u: Tree) {
    && t.Keys <= u.Keys
    && (forall p :: p in t && t[p].Dir? ==> u[p].Dir?)
    && (forall p :: p in t && t[p].Link? ==> u[p] == t[p])
    && (forall p :: p in t && t[p].File? ==> u[p].File?)
  }

  lemma ExtendsTransitive(t: Tree, u: Tree, v: Tree)
    requires Extends(t, u) && Extends(u, v)
    ensures Extends(t, v)
  {
  }

  /** What `IsDir` and `Present` say of a path survives growth. */
  lemma ExtendsKeepsDirs(t: Tree, u: Tree, p: Path)
    requires Extends(t, u)
    ensures IsDir(t, p) ==> IsDir(u, p)
    ensures Present(t, p) ==> Present(u, p)
    ensures p in t && t[p].Link? ==> u[p] == t[p]
  {
    if p != [] && p in t && t[p].Link? {
      assert u[p] == t[p];
      var q := t[p].target;
      if q in t && t[q].Dir? {
        assert u[q].Dir?;
      }
    } else if p in t && t[p].Dir? {
      assert u[p].Dir?;
    }
  }

  /** The prefixes `makedirs` adds are directories, and nothing else changes. */
  lemma AddDirsFacts(t: Tree, p: Path)
    requires !Present(t, p) && !BlockedAncestor(t, p)
    ensures var u := t + map q | q in Prefixes(p) :: Dir;
      && (forall q :: q in Prefixes(p) ==> u[q] == Dir)
      && (forall q :: q in t ==> u[q] == t[q])
      && (forall q :: q in u ==> q in t || q in Prefixes(p))
  {
    var u := t + map q | q in Prefixes(p) :: Dir;
    assert p[..|p|] == p;
    forall q | q in t ensures u[q] == t[q] {
      if q in Prefixes(p) {
        var k :| 1 <= k <= |p| && q == p[..k];
      }
    }
  }

  /** `makedirs` keeps the tree well formed, and only adds directories: every
      entry it finds stays as it was, and every entry it adds is a directory
      on the way to `p`. */
  lemma MakeDirsValid(t: Tree, p: Path, existOk: bool)
    ensures var e := MakeDirs(t, p, existOk);
      Extends(t, e.tree) && (Valid(t) ==> Valid(e.tree))
    ensures var e := MakeDirs(t, p, existOk);
      && (forall q :: q in t ==> q in e.tree && e.tree[q] == t[q])
      && (forall q :: q in e.tree && q !in t ==> e.tree[q] == Dir && q in Prefixes(p))
  {
    var e := MakeDirs(t, p, existOk);
    if e.outcome.Pass? && !Present(t, p) {
      var u := e.tree;
      AddDirsFacts(t, p);
      if Valid(t) {
        forall q | q in u ensures |q| > 0 && IsDirNode(u, Parent(q)) {
          if q in Prefixes(p) {
            var k :| 1 <= k <= |p| && q == p[..k];
            if k > 1 {
              assert Parent(q) == p[..k - 1];
              assert Parent(q) in Prefixes(p);
            }
          }
        }
      }
    }
  }

  lemma SymlinkValid(t: Tree, target: Path, at: Path)
    ensures var e := Symlink(t, target, at);
      Extends(t, e.tree) && (Valid(t) ==> Valid(e.tree))
  {
  }

  lemma WriteValid(t: Tree, p: Path, c: Content)
    ensures var e := Write(t, p, c);
      Extends(t, e.tree) && (Valid(t) ==> Valid(e.tree))
  {
  }

  /** The host: the configuration filesystem and the controller registry,
      which is modelled as the flat listing of its entries in the order the
      host reports them. */
  class Host {
    var tree: Tree
    var controllers: seq<string>

    constructor(tree: Tree, controllers: seq<string>)
      ensures this.tree == tree && this.controllers == controllers
    {
      this.tree := tree;
      this.controllers := controllers;
    }

    method MakeDirsAt(p: Path, existOk: bool) returns (o: Outcome)
      modifies this`tree
      ensures Effect(tree, o) == MakeDirs(old(tree), p, existOk)
    {
      var e := MakeDirs(tree, p, existOk);
      tree, o := e.tree, e.outcome;
    }

    method CreateLink(target: Path, at: Path) returns (o: Outcome)
      modifies this`tree
      ensures Effect(tree, o) == Symlink(old(tree), target, at)
    {
      var e := Symlink(tree, target, at);
      tree, o := e.tree, e.outcome;
    }

    method WriteFile(p: Path, c: Content) returns (o: Outcome)
      modifies this`tree
      ensures Effect(tree, o) == Write(old(tree), p, c)
    {
      var e := Write(tree, p, c);
      tree, o := e.tree, e.outcome;
    }
  }
}
