/** The projection engine as a specification: the ordered list of host
    operations that `add_gadget` (and its helpers `add_config`,
    `add_function`, `bind_functions`, `bind_udc`) issues for a gadget, and a
    pure interpreter that runs such a list against a tree, stopping at the
    first operation that raises.  The imperative `GadgetSpace` methods are
    proved to produce exactly what `Exec` of the matching plan produces; the
    properties of the layout are proved here, once, about the plans. */
module Projection {
  import opened Outcomes
  import opened FileTree
  import opened Serialization
  import opened Entities

  const GADGET_DIR := "usb_gadget"
  const STRINGS_DIR := "strings"
  const CONFIGS_DIR := "configs"
  const FUNCTIONS_DIR := "functions"
  const UDC_FILE := "UDC"

  // ---------------------------------------------------------------------
  // Layout

  function GadgetDir(gp: Path, name: string): Path {
    gp + [name]
  }

  function ConfigDir(gp: Path, name: string, c: ConfigView): Path {
    gp + [name, CONFIGS_DIR, c.FullName()]
  }

  function FunctionDir(gp: Path, name: string, f: GadgetFunction): Path {
    gp + [name, FUNCTIONS_DIR, f.FullName()]
  }

  /** Where a string record of a directory goes: `strings/<lang>`. */
  function StringsDir(dir: Path, s: StringsRecord): Path {
    dir + [STRINGS_DIR, s.lang]
  }

  // ---------------------------------------------------------------------
  // Host operations and their interpreter

  /** One host operation of the projection engine. */
  datatype Cmd =
    | Mkdir(path: Path, existOk: bool)              // os.makedirs(path, exist_ok=existOk)
    | Store(dir: Path, record: Record)              // store_from_dataclass(dir, record)
    | StoreMap(dir: Path, entries: seq<Entry>)      // store_attrs(dir, entries)
    | Bind(target: Path, at: Path, force: bool)     // one iteration of bind_functions

  /** The writes of `store_attrs` once the working directory is `d`: one file
      per entry, in order, stopping at the first write that fails. */
  function WriteEntries(t: Tree, d: Path, entries: seq<Entry>): Effect
    decreases |entries|
  {
    if entries == [] then Effect(t, Pass)
    else
      var w := Write(t, d + [entries[0].0], Render(entries[0].1));
      if w.outcome.Fail? then w else WriteEntries(w.tree, d, entries[1..])
  }

  /** `store_attrs`: change into `dir` (which must be a directory), then write
      every entry there. */
  function StoreAttrs(t: Tree, dir: Path, entries: seq<Entry>): Effect {
    var d := Resolve(t, dir);
    if !IsDirNode(t, d) then Effect(t, Fail(HostError)) else WriteEntries(t, d, entries)
  }

  /** One operation.  A record is serialised before anything is touched, so a
      failing transform leaves the tree as it was.  A link is created unless
      `force` holds and something already exists at its path. */
  function Step(t: Tree, c: Cmd): Effect {
    match c
    case Mkdir(p, existOk) => MakeDirs(t, p, existOk)
    case Store(dir, r) =>
      (match Serialized(r)
       case Err(e) => Effect(t, Fail(e))
       case Ok(entries) => StoreAttrs(t, dir, entries))
    case StoreMap(dir, entries) => StoreAttrs(t, dir, entries)
    case Bind(target, at, force) =>
      if !force || !Exists(t, at) then Symlink(t, target, at) else Effect(t, Pass)
  }

  /** Operations in order; the first one that raises ends the run, and what
      the earlier ones did stays. */
  function Exec(t: Tree, cmds: seq<Cmd>): Effect
    decreases |cmds|
  {
    if cmds == [] then Effect(t, Pass)
    else
      var e := Step(t, cmds[0]);
      if e.outcome.Fail? then e else Exec(e.tree, cmds[1..])
  }

  // ---------------------------------------------------------------------
  // Plans

  /** `if attrs: store_from_dataclass(dir, attrs)`. */
  function RecordCmds(dir: Path, attrs: Option<Record>): seq<Cmd> {
    if attrs.Some? then [Store(dir, attrs.value)] else []
  }

  /** `if strs:` create `strings/<lang>` under `dir`, then store the strings there. */
  function StringsCmds(dir: Path, strs: Option<StringsRecord>, force: bool): seq<Cmd> {
    if strs.Some? then
      [Mkdir(StringsDir(dir, strs.value), force), Store(StringsDir(dir, strs.value), strs.value)]
    else []
  }

  /** A directory, its attributes, then its strings: the shape shared by the
      gadget directory, `add_config` and `add_function`. */
  function DirPlan(dir: Path, attrs: Option<Record>, strs: Option<StringsRecord>, force: bool): seq<Cmd> {
    [Mkdir(dir, force)] + RecordCmds(dir, attrs) + StringsCmds(dir, strs, force)
  }

  function HeadPlan(gp: Path, g: GadgetView, force: bool): seq<Cmd> {
    DirPlan(GadgetDir(gp, g.name), g.attrs, g.strs, force)
  }

  /** `add_config`. */
  function ConfigPlan(gp: Path, name: string, c: ConfigView, force: bool): seq<Cmd> {
    DirPlan(ConfigDir(gp, name, c), c.attrs, c.strs, force)
  }

  /** `add_function`. */
  function FunctionPlan(gp: Path, name: string, f: GadgetFunction, force: bool): seq<Cmd> {
    DirPlan(FunctionDir(gp, name, f), f.attrs, None, force)
  }

  function ConfigsPlan(gp: Path, name: string, cs: seq<ConfigView>, force: bool): seq<Cmd> {
    if cs == [] then [] else ConfigPlan(gp, name, cs[0], force) + ConfigsPlan(gp, name, cs[1..], force)
  }

  function FunctionsPlan(gp: Path, name: string, fs: seq<GadgetFunction>, force: bool): seq<Cmd> {
    if fs == [] then [] else FunctionPlan(gp, name, fs[0], force) + FunctionsPlan(gp, name, fs[1..], force)
  }

  /** The links `bind_functions` makes in the configuration directory `cdir`
      for the functions `fs`, in order. */
  function BindCmds(gp: Path, name: string, cdir: Path, fs: seq<GadgetFunction>, force: bool): seq<Cmd> {
    if fs == [] then []
    else
      var link := Bind(FunctionDir(gp, name, fs[0]), cdir + [fs[0].FullName()], force);
      [link] + BindCmds(gp, name, cdir, fs[1..], force)
  }

  /** `bind_functions` for one configuration. */
  function BindPlan(gp: Path, name: string, c: ConfigView, force: bool): seq<Cmd> {
    BindCmds(gp, name, ConfigDir(gp, name, c), c.functions, force)
  }

  function BindsPlan(gp: Path, name: string, cs: seq<ConfigView>, force: bool): seq<Cmd> {
    if cs == [] then [] else BindPlan(gp, name, cs[0], force) + BindsPlan(gp, name, cs[1..], force)
  }

  /** `if gadget.UDC: store_attrs(gadget_dir, {'UDC': gadget.UDC})`. */
  function UdcPlan(gp: Path, name: string, udc: Option<string>): seq<Cmd> {
    if Truthy(udc) then [StoreMap(GadgetDir(gp, name), [(UDC_FILE, StrValue(udc.value))])] else []
  }

  /** `add_gadget`. */
  function GadgetPlan(gp: Path, g: GadgetView, force: bool): seq<Cmd> {
    HeadPlan(gp, g, force)
      + ConfigsPlan(gp, g.name, g.configs, force)
      + FunctionsPlan(gp, g.name, g.functions, force)
      + BindsPlan(gp, g.name, g.configs, force)
      + UdcPlan(gp, g.name, g.udc)
  }

  // ---------------------------------------------------------------------
  // The interpreter

  /** Running two lists is running the first, then (if it passed) the second
      on what the first left: the run stops at the first failure. */
  lemma {:induction false} ExecAppend(t: Tree, a: seq<Cmd>, b: seq<Cmd>)
    ensures Exec(t, a + b) ==
      var e := Exec(t, a);
      if e.outcome.Fail? then e else Exec(e.tree, b)
    decreases |a|
  {
    if a != [] {
      assert (a + b)[0] == a[0];
      assert (a + b)[1..] == a[1..] + b;
      var e := Step(t, a[0]);
      if e.outcome.Pass? {
        ExecAppend(e.tree, a[1..], b);
      }
    } else {
      assert a + b == b;
    }
  }

  /** A plan of one step is that step. */
  lemma ExecSingle(t: Tree, c: Cmd)
    ensures Exec(t, [c]) == Step(t, c)
  {
    ExecCons(t, c, []);
    assert [c] + [] == [c];
  }

  /** `ExecAppend` read forward: once it is known what running `a` did, the
      run of `a + rest` either ends there or continues with `rest`. */
  lemma ExecThen(t: Tree, a: seq<Cmd>, rest: seq<Cmd>, e: Effect)
    requires e == Exec(t, a)
    ensures e.outcome.Fail? ==> Exec(t, a + rest) == e
    ensures e.outcome.Pass? ==> Exec(t, a + rest) == Exec(e.tree, rest)
  {
    ExecAppend(t, a, rest);
  }

  /** One step followed by the rest. */
  lemma ExecCons(t: Tree, c: Cmd, rest: seq<Cmd>)
    ensures Exec(t, [c] + rest) ==
      var e := Step(t, c);
      if e.outcome.Fail? then e else Exec(e.tree, rest)
  {
    assert ([c] + rest)[0] == c;
    assert ([c] + rest)[1..] == rest;
  }

  /** The gadget plan runs its head first, then the rest. */
  lemma GadgetPlanSplit(t: Tree, gp: Path, g: GadgetView, force: bool)
    ensures Exec(t, GadgetPlan(gp, g, force)) ==
      var e := Exec(t, HeadPlan(gp, g, force));
      if e.outcome.Fail? then e
      else Exec(e.tree, ConfigsPlan(gp, g.name, g.configs, force)
        + (FunctionsPlan(gp, g.name, g.functions, force)
        + (BindsPlan(gp, g.name, g.configs, force) + UdcPlan(gp, g.name, g.udc))))
  {
    var head := HeadPlan(gp, g, force);
    var configs := ConfigsPlan(gp, g.name, g.configs, force);
    var functions := FunctionsPlan(gp, g.name, g.functions, force);
    var binds := BindsPlan(gp, g.name, g.configs, force);
    var udc := UdcPlan(gp, g.name, g.udc);
    Regroup(head, configs, functions, binds, udc);
    ExecAppend(t, head, configs + (functions + (binds + udc)));
  }

  lemma Regroup(a: seq<Cmd>, b: seq<Cmd>, c: seq<Cmd>, d: seq<Cmd>, e: seq<Cmd>)
    ensures a + b + c + d + e == a + (b + (c + (d + e)))
  {
  }

  /** One configuration of the configurations from `i` on, then the rest. */
  lemma ConfigsPlanStep(t: Tree, gp: Path, name: string, cs: seq<ConfigView>, i: nat, force: bool)
    requires i < |cs|
    ensures Exec(t, ConfigsPlan(gp, name, cs[i..], force)) ==
      var e := Exec(t, ConfigPlan(gp, name, cs[i], force));
      if e.outcome.Fail? then e else Exec(e.tree, ConfigsPlan(gp, name, cs[i + 1..], force))
  {
    assert cs[i..][1..] == cs[i + 1..];
    ExecAppend(t, ConfigPlan(gp, name, cs[i], force), ConfigsPlan(gp, name, cs[i + 1..], force));
  }

  lemma FunctionsPlanStep(t: Tree, gp: Path, name: string, fs: seq<GadgetFunction>, i: nat, force: bool)
    requires i < |fs|
    ensures Exec(t, FunctionsPlan(gp, name, fs[i..], force)) ==
      var e := Exec(t, FunctionPlan(gp, name, fs[i], force));
      if e.outcome.Fail? then e else Exec(e.tree, FunctionsPlan(gp, name, fs[i + 1..], force))
  {
    assert fs[i..][1..] == fs[i + 1..];
    ExecAppend(t, FunctionPlan(gp, name, fs[i], force), FunctionsPlan(gp, name, fs[i + 1..], force));
  }

  /** One link of a configuration's functions from `i` on, then the rest. */
  lemma BindCmdsStep(t: Tree, gp: Path, name: string, cdir: Path, fs: seq<GadgetFunction>, i: nat, force: bool)
    requires i < |fs|
    ensures Exec(t, BindCmds(gp, name, cdir, fs[i..], force)) ==
      var e := Step(t, Bind(FunctionDir(gp, name, fs[i]), cdir + [fs[i].FullName()], force));
      if e.outcome.Fail? then e else Exec(e.tree, BindCmds(gp, name, cdir, fs[i + 1..], force))
  {
    assert fs[i..][0] == fs[i];
    assert fs[i..][1..] == fs[i + 1..];
    ExecCons(t, Bind(FunctionDir(gp, name, fs[i]), cdir + [fs[i].FullName()], force),
      BindCmds(gp, name, cdir, fs[i + 1..], force));
  }

  lemma BindsPlanStep(t: Tree, gp: Path, name: string, cs: seq<ConfigView>, i: nat, force: bool)
    requires i < |cs|
    ensures Exec(t, BindsPlan(gp, name, cs[i..], force)) ==
      var e := Exec(t, BindPlan(gp, name, cs[i], force));
      if e.outcome.Fail? then e else Exec(e.tree, BindsPlan(gp, name, cs[i + 1..], force))
  {
    assert cs[i..][1..] == cs[i + 1..];
    ExecAppend(t, BindPlan(gp, name, cs[i], force), BindsPlan(gp, name, cs[i + 1..], force));
  }

  lemma WriteEntriesExtends(t: Tree, d: Path, entries: seq<Entry>)
    ensures var e := WriteEntries(t, d, entries);
      Extends(t, e.tree) && (Valid(t) ==> Valid(e.tree))
    decreases |entries|
  {
    if entries != [] {
      var w := Write(t, d + [entries[0].0], Render(entries[0].1));
      WriteValid(t, d + [entries[0].0], Render(entries[0].1));
      if w.outcome.Pass? {
        WriteEntriesExtends(w.tree, d, entries[1..]);
        ExtendsTransitive(t, w.tree, WriteEntries(w.tree, d, entries[1..]).tree);
      }
    }
  }

  lemma StepExtends(t: Tree, c: Cmd)
    ensures var e := Step(t, c);
      Extends(t, e.tree) && (Valid(t) ==> Valid(e.tree))
  {
    match c
    case Mkdir(p, existOk) =>
      MakeDirsValid(t, p, existOk);
    case Store(dir, r) =>
      if Serialized(r).Ok? {
        StoreAttrsExtends(t, dir, Serialized(r).value);
      }
    case StoreMap(dir, entries) =>
      StoreAttrsExtends(t, dir, entries);
    case Bind(target, at, force) =>
      SymlinkValid(t, target, at);
  }

  lemma StoreAttrsExtends(t: Tree, dir: Path, entries: seq<Entry>)
    ensures var e := StoreAttrs(t, dir, entries);
      Extends(t, e.tree) && (Valid(t) ==> Valid(e.tree))
  {
    WriteEntriesExtends(t, Resolve(t, dir), entries);
  }

  /** Nothing a run does is ever undone, whether it passes or fails: entries
      are only added, directories stay directories, links keep their targets;
      and a well-formed tree stays well formed. */
  lemma {:induction false} ExecExtends(t: Tree, cmds: seq<Cmd>)
    ensures var e := Exec(t, cmds);
      Extends(t, e.tree) && (Valid(t) ==> Valid(e.tree))
    decreases |cmds|
  {
    if cmds != [] {
      var e := Step(t, cmds[0]);
      StepExtends(t, cmds[0]);
      if e.outcome.Pass? {
        ExecExtends(e.tree, cmds[1..]);
        ExtendsTransitive(t, e.tree, Exec(e.tree, cmds[1..]).tree);
      }
    }
  }

  /** A step that passes establishes what it is for, and the rest of a
      passing run keeps it: a created directory is a directory at the end; a
      link path is occupied at the end, and without `force` it is the link
      the step made. */
  lemma {:induction false} ExecEstablishes(t: Tree, cmds: seq<Cmd>, c: Cmd)
    requires c in cmds && Exec(t, cmds).outcome.Pass?
    ensures var u := Exec(t, cmds).tree;
      && (c.Mkdir? ==> IsDir(u, c.path))
      && (c.Bind? ==> Present(u, c.at) && (!c.force ==> c.at in u && u[c.at] == Link(c.target)))
    decreases |cmds|
  {
    var e := Step(t, cmds[0]);
    var u := Exec(t, cmds).tree;
    if cmds[0] == c {
      ExecExtends(e.tree, cmds[1..]);
      if c.Mkdir? {
        ExtendsKeepsDirs(e.tree, u, c.path);
      } else if c.Bind? {
        if !c.force || !Exists(t, c.at) {
          assert e.tree == t[c.at := Link(c.target)];
        } else {
          assert Present(t, c.at);
        }
        ExtendsKeepsDirs(e.tree, u, c.at);
      }
    } else {
      ExecEstablishes(e.tree, cmds[1..], c);
    }
  }

  // ---------------------------------------------------------------------
  // The order of add_gadget

  predicate OnlyCreates(s: seq<Cmd>) {
    forall i :: 0 <= i < |s| ==> s[i].Mkdir? || s[i].Store?
  }

  predicate OnlyBinds(s: seq<Cmd>) {
    forall i :: 0 <= i < |s| ==> s[i].Bind?
  }

  /** Every record is stored into a directory that an earlier step created. */
  predicate StoresFollowDirs(s: seq<Cmd>, force: bool) {
    forall i :: 0 <= i < |s| && s[i].Store? ==> exists j :: 0 <= j < i && s[j] == Mkdir(s[i].dir, force)
  }

  lemma AppendShape(a: seq<Cmd>, b: seq<Cmd>, force: bool)
    requires OnlyCreates(a) && OnlyCreates(b)
    requires StoresFollowDirs(a, force) && StoresFollowDirs(b, force)
    ensures OnlyCreates(a + b) && StoresFollowDirs(a + b, force)
  {
    var s := a + b;
    forall i | 0 <= i < |s| && s[i].Store?
      ensures exists j :: 0 <= j < i && s[j] == Mkdir(s[i].dir, force)
    {
      if i < |a| {
        var j :| 0 <= j < i && a[j] == Mkdir(a[i].dir, force);
        assert s[j] == a[j];
      } else {
        assert s[i] == b[i - |a|];
        var j :| 0 <= j < i - |a| && b[j] == Mkdir(b[i - |a|].dir, force);
        assert s[|a| + j] == b[j];
      }
    }
  }

  lemma DirPlanShape(dir: Path, attrs: Option<Record>, strs: Option<StringsRecord>, force: bool)
    ensures var s := DirPlan(dir, attrs, strs, force);
      OnlyCreates(s) && StoresFollowDirs(s, force) && s[0] == Mkdir(dir, force)
  {
    var s := DirPlan(dir, attrs, strs, force);
    forall i | 0 <= i < |s| && s[i].Store?
      ensures exists j :: 0 <= j < i && s[j] == Mkdir(s[i].dir, force)
    {
      if i == 1 && attrs.Some? {
        assert s[0] == Mkdir(s[i].dir, force);
      } else {
        assert s[i - 1] == Mkdir(s[i].dir, force);
      }
    }
  }

  lemma {:induction false} ConfigsPlanShape(gp: Path, name: string, cs: seq<ConfigView>, force: bool)
    ensures var s := ConfigsPlan(gp, name, cs, force);
      OnlyCreates(s) && StoresFollowDirs(s, force)
  {
    if cs != [] {
      var c := cs[0];
      DirPlanShape(ConfigDir(gp, name, c), c.attrs, c.strs, force);
      ConfigsPlanShape(gp, name, cs[1..], force);
      AppendShape(ConfigPlan(gp, name, c, force), ConfigsPlan(gp, name, cs[1..], force), force);
    }
  }

  lemma {:induction false} FunctionsPlanShape(gp: Path, name: string, fs: seq<GadgetFunction>, force: bool)
    ensures var s := FunctionsPlan(gp, name, fs, force);
      OnlyCreates(s) && StoresFollowDirs(s, force)
  {
    if fs != [] {
      var f := fs[0];
      DirPlanShape(FunctionDir(gp, name, f), f.attrs, None, force);
      FunctionsPlanShape(gp, name, fs[1..], force);
      AppendShape(FunctionPlan(gp, name, f, force), FunctionsPlan(gp, name, fs[1..], force), force);
    }
  }

  lemma {:induction false} BindCmdsShape(gp: Path, name: string, cdir: Path, fs: seq<GadgetFunction>, force: bool)
    ensures OnlyBinds(BindCmds(gp, name, cdir, fs, force))
  {
    if fs != [] {
      BindCmdsShape(gp, name, cdir, fs[1..], force);
    }
  }

  lemma {:induction false} BindsPlanShape(gp: Path, name: string, cs: seq<ConfigView>, force: bool)
    ensures OnlyBinds(BindsPlan(gp, name, cs, force))
  {
    if cs != [] {
      BindCmdsShape(gp, name, ConfigDir(gp, name, cs[0]), cs[0].functions, force);
      BindsPlanShape(gp, name, cs[1..], force);
    }
  }

  /** Creation steps, then links, then at most one final `StoreMap`: the
      order facts of such a list. */
  lemma LayoutOrder(creates: seq<Cmd>, binds: seq<Cmd>, udc: seq<Cmd>, force: bool)
    requires |creates| > 0 && OnlyCreates(creates) && StoresFollowDirs(creates, force)
    requires OnlyBinds(binds)
    requires udc == [] || (|udc| == 1 && udc[0].StoreMap?)
    ensures var p := creates + binds + udc;
      && p[0] == creates[0]
      && StoresFollowDirs(p, force)
      && (forall i, j :: 0 <= i < j < |p| && p[j].Mkdir? ==> !p[i].Bind?)
      && (forall i :: 0 <= i < |p| && p[i].StoreMap? ==> i == |p| - 1)
      && (udc != [] <==> p[|p| - 1].StoreMap?)
      && (udc != [] ==> p[|p| - 1] == udc[0])
  {
    var p := creates + binds + udc;
    var n, m := |creates|, |creates| + |binds|;
    forall i | 0 <= i < n ensures p[i] == creates[i] { }
    forall i | n <= i < m ensures p[i] == binds[i - n] { }
    forall i | m <= i < |p| ensures p[i] == udc[i - m] { }
    forall i | 0 <= i < |p| && p[i].Store?
      ensures exists j :: 0 <= j < i && p[j] == Mkdir(p[i].dir, force)
    {
      var j :| 0 <= j < i && creates[j] == Mkdir(creates[i].dir, force);
      assert p[j] == creates[j];
    }
    if udc == [] {
      assert p == creates + binds;
      if |binds| > 0 {
        assert p[|p| - 1] == binds[|binds| - 1];
      } else {
        assert p[|p| - 1] == creates[|creates| - 1];
      }
    }
  }

  /** `add_gadget` starts with the gadget directory; every record is stored
      into a directory created before it; every directory (of the gadget, its
      strings, the configurations and the functions) is created before any
      link; and the `UDC` file, written only for a non-empty `UDC`, comes
      last. */
  lemma PlanOrder(gp: Path, g: GadgetView, force: bool)
    ensures var p := GadgetPlan(gp, g, force);
      && |p| > 0 && p[0] == Mkdir(GadgetDir(gp, g.name), force)
      && StoresFollowDirs(p, force)
      && (forall i, j :: 0 <= i < j < |p| && p[j].Mkdir? ==> !p[i].Bind?)
      && (forall i :: 0 <= i < |p| && p[i].StoreMap? ==> i == |p| - 1)
      && (Truthy(g.udc) <==> p[|p| - 1].StoreMap?)
      && (Truthy(g.udc) ==>
            p[|p| - 1] == StoreMap(GadgetDir(gp, g.name), [(UDC_FILE, StrValue(g.udc.value))]))
  {
    var head := HeadPlan(gp, g, force);
    var configs := ConfigsPlan(gp, g.name, g.configs, force);
    var functions := FunctionsPlan(gp, g.name, g.functions, force);
    DirPlanShape(GadgetDir(gp, g.name), g.attrs, g.strs, force);
    ConfigsPlanShape(gp, g.name, g.configs, force);
    FunctionsPlanShape(gp, g.name, g.functions, force);
    BindsPlanShape(gp, g.name, g.configs, force);
    AppendShape(head, configs, force);
    AppendShape(head + configs, functions, force);
    var creates := head + configs + functions;
    assert creates[0] == head[0];
    LayoutOrder(creates, BindsPlan(gp, g.name, g.configs, force), UdcPlan(gp, g.name, g.udc), force);
  }

  // ---------------------------------------------------------------------
  // What a passing add_gadget leaves

  lemma {:induction false} ConfigsPlanHas(gp: Path, name: string, cs: seq<ConfigView>, force: bool, c: ConfigView)
    requires c in cs
    ensures var s := ConfigsPlan(gp, name, cs, force);
      && Mkdir(ConfigDir(gp, name, c), force) in s
      && (c.strs.Some? ==> Mkdir(StringsDir(ConfigDir(gp, name, c), c.strs.value), force) in s)
  {
    var s := ConfigsPlan(gp, name, cs, force);
    var head := ConfigPlan(gp, name, cs[0], force);
    if cs[0] == c {
      assert head[0] in s;
      if c.strs.Some? {
        assert head[|head| - 2] in s;
      }
    } else {
      ConfigsPlanHas(gp, name, cs[1..], force, c);
    }
  }

  lemma {:induction false} FunctionsPlanHas(gp: Path, name: string, fs: seq<GadgetFunction>, force: bool, f: GadgetFunction)
    requires f in fs
    ensures Mkdir(FunctionDir(gp, name, f), force) in FunctionsPlan(gp, name, fs, force)
  {
    var s := FunctionsPlan(gp, name, fs, force);
    if fs[0] == f {
      assert FunctionPlan(gp, name, f, force)[0] in s;
    } else {
      FunctionsPlanHas(gp, name, fs[1..], force, f);
    }
  }

  lemma {:induction false} BindCmdsHas(gp: Path, name: string, cdir: Path, fs: seq<GadgetFunction>, force: bool, f: GadgetFunction)
    requires f in fs
    ensures Bind(FunctionDir(gp, name, f), cdir + [f.FullName()], force) in BindCmds(gp, name, cdir, fs, force)
  {
    if fs[0] != f {
      BindCmdsHas(gp, name, cdir, fs[1..], force, f);
    }
  }

  lemma {:induction false} BindsPlanHas(gp: Path, name: string, cs: seq<ConfigView>, force: bool, c: ConfigView, f: GadgetFunction)
    requires c in cs && f in c.functions
    ensures Bind(FunctionDir(gp, name, f), ConfigDir(gp, name, c) + [f.FullName()], force)
      in BindsPlan(gp, name, cs, force)
  {
    if cs[0] == c {
      BindCmdsHas(gp, name, ConfigDir(gp, name, c), c.functions, force, f);
    } else {
      BindsPlanHas(gp, name, cs[1..], force, c, f);
    }
  }

  /** Every directory and link of the layout has its step in the plan. */
  lemma PlanHas(gp: Path, g: GadgetView, force: bool)
    ensures var p := GadgetPlan(gp, g, force);
      && Mkdir(GadgetDir(gp, g.name), force) in p
      && (g.strs.Some? ==> Mkdir(StringsDir(GadgetDir(gp, g.name), g.strs.value), force) in p)
      && (forall c :: c in g.configs ==> Mkdir(ConfigDir(gp, g.name, c), force) in p)
      && (forall c :: c in g.configs && c.strs.Some? ==>
            Mkdir(StringsDir(ConfigDir(gp, g.name, c), c.strs.value), force) in p)
      && (forall f :: f in g.functions ==> Mkdir(FunctionDir(gp, g.name, f), force) in p)
      && (forall c, f :: c in g.configs && f in c.functions ==>
            Bind(FunctionDir(gp, g.name, f), ConfigDir(gp, g.name, c) + [f.FullName()], force) in p)
  {
    var head := HeadPlan(gp, g, force);
    var configs := ConfigsPlan(gp, g.name, g.configs, force);
    var functions := FunctionsPlan(gp, g.name, g.functions, force);
    var binds := BindsPlan(gp, g.name, g.configs, force);
    var p := GadgetPlan(gp, g, force);
    assert p == head + configs + functions + binds + UdcPlan(gp, g.name, g.udc);
    assert head[0] in p;
    if g.strs.Some? {
      assert head[|head| - 2] in p;
    }
    forall c | c in g.configs
      ensures Mkdir(ConfigDir(gp, g.name, c), force) in p
      ensures c.strs.Some? ==> Mkdir(StringsDir(ConfigDir(gp, g.name, c), c.strs.value), force) in p
    {
      ConfigsPlanHas(gp, g.name, g.configs, force, c);
    }
    forall f | f in g.functions ensures Mkdir(FunctionDir(gp, g.name, f), force) in p {
      FunctionsPlanHas(gp, g.name, g.functions, force, f);
    }
    forall c, f | c in g.configs && f in c.functions
      ensures Bind(FunctionDir(gp, g.name, f), ConfigDir(gp, g.name, c) + [f.FullName()], force) in p
    {
      BindsPlanHas(gp, g.name, g.configs, force, c, f);
    }
  }

  /** After a passing `add_gadget` the gadget, its strings, every
      configuration (with its strings) and every function listed on the
      gadget is a directory, and every function bound to a configuration has
      its entry in that configuration's directory; without `force` that entry
      is a link to the function's directory (which exists when the function is
      also listed on the gadget). */
  lemma AddGadgetLayout(t: Tree, gp: Path, g: GadgetView, force: bool)
    requires Exec(t, GadgetPlan(gp, g, force)).outcome.Pass?
    ensures var u := Exec(t, GadgetPlan(gp, g, force)).tree;
      && IsDir(u, GadgetDir(gp, g.name))
      && (g.strs.Some? ==> IsDir(u, StringsDir(GadgetDir(gp, g.name), g.strs.value)))
      && (forall c :: c in g.configs ==> IsDir(u, ConfigDir(gp, g.name, c)))
      && (forall c :: c in g.configs && c.strs.Some? ==>
            IsDir(u, StringsDir(ConfigDir(gp, g.name, c), c.strs.value)))
      && (forall f :: f in g.functions ==> IsDir(u, FunctionDir(gp, g.name, f)))
      && (forall c, f :: c in g.configs && f in c.functions ==>
            var at := ConfigDir(gp, g.name, c) + [f.FullName()];
            Present(u, at) && (!force ==> at in u && u[at] == Link(FunctionDir(gp, g.name, f))))
  {
    var p := GadgetPlan(gp, g, force);
    PlanHas(gp, g, force);
    EstablishesAll(t, p);
  }

  /** `ExecEstablishes` for every step of a passing run at once. */
  lemma EstablishesAll(t: Tree, cmds: seq<Cmd>)
    requires Exec(t, cmds).outcome.Pass?
    ensures var u := Exec(t, cmds).tree;
      && (forall p, b :: Mkdir(p, b) in cmds ==> IsDir(u, p))
      && (forall target, at, force :: Bind(target, at, force) in cmds ==>
            Present(u, at) && (!force ==> at in u && u[at] == Link(target)))
  {
    forall p, b | Mkdir(p, b) in cmds ensures IsDir(Exec(t, cmds).tree, p) {
      ExecEstablishes(t, cmds, Mkdir(p, b));
    }
    forall target, at, force | Bind(target, at, force) in cmds
      ensures var u := Exec(t, cmds).tree;
        Present(u, at) && (!force ==> at in u && u[at] == Link(target))
    {
      ExecEstablishes(t, cmds, Bind(target, at, force));
    }
  }

  // ---------------------------------------------------------------------
  // Nothing but the layout

  /** The directories of a gadget's layout: the gadget and its strings, each
      configuration and its strings, each function. */
  ghost predicate ListedDir(gp: Path, g: GadgetView, p: Path) {
    || p == GadgetDir(gp, g.name)
    || (g.strs.Some? && p == StringsDir(GadgetDir(gp, g.name), g.strs.value))
    || (exists c :: c in g.configs && p == ConfigDir(gp, g.name, c))
    || (exists c :: c in g.configs && c.strs.Some? && p == StringsDir(ConfigDir(gp, g.name, c), c.strs.value))
    || (exists f :: f in g.functions && p == FunctionDir(gp, g.name, f))
  }

  /** The links of a gadget's layout: each function bound to a configuration,
      linked by its full name from that configuration's directory. */
  ghost predicate ListedLink(gp: Path, g: GadgetView, target: Path, at: Path) {
    exists c, f :: c in g.configs && f in c.functions
      && target == FunctionDir(gp, g.name, f) && at == ConfigDir(gp, g.name, c) + [f.FullName()]
  }

  /** A directory plan creates its directory and its strings directory and
      stores records into them, nothing else. */
  lemma DirPlanOnly(dir: Path, attrs: Option<Record>, strs: Option<StringsRecord>, force: bool, c: Cmd)
    requires c in DirPlan(dir, attrs, strs, force)
    ensures c.Mkdir? || c.Store?
    ensures c.Mkdir? ==> c.existOk == force && (c.path == dir || (strs.Some? && c.path == StringsDir(dir, strs.value)))
    ensures c.Store? ==> c.dir == dir || (strs.Some? && c.dir == StringsDir(dir, strs.value))
  {
  }

  lemma {:induction false} ConfigsPlanOnly(gp: Path, name: string, cs: seq<ConfigView>, force: bool, c: Cmd)
    requires c in ConfigsPlan(gp, name, cs, force)
    ensures exists v :: v in cs && c in ConfigPlan(gp, name, v, force)
  {
    if c !in ConfigPlan(gp, name, cs[0], force) {
      ConfigsPlanOnly(gp, name, cs[1..], force, c);
      var v :| v in cs[1..] && c in ConfigPlan(gp, name, v, force);
      assert v in cs;
    }
  }

  lemma {:induction false} FunctionsPlanOnly(gp: Path, name: string, fs: seq<GadgetFunction>, force: bool, c: Cmd)
    requires c in FunctionsPlan(gp, name, fs, force)
    ensures exists f :: f in fs && c in FunctionPlan(gp, name, f, force)
  {
    if c !in FunctionPlan(gp, name, fs[0], force) {
      FunctionsPlanOnly(gp, name, fs[1..], force, c);
      var f :| f in fs[1..] && c in FunctionPlan(gp, name, f, force);
      assert f in fs;
    }
  }

  lemma {:induction false} BindCmdsOnly(gp: Path, name: string, cdir: Path, fs: seq<GadgetFunction>, force: bool, c: Cmd)
    requires c in BindCmds(gp, name, cdir, fs, force)
    ensures exists f :: f in fs && c == Bind(FunctionDir(gp, name, f), cdir + [f.FullName()], force)
  {
    if c != Bind(FunctionDir(gp, name, fs[0]), cdir + [fs[0].FullName()], force) {
      BindCmdsOnly(gp, name, cdir, fs[1..], force, c);
      var f :| f in fs[1..] && c == Bind(FunctionDir(gp, name, f), cdir + [f.FullName()], force);
      assert f in fs;
    }
  }

  lemma {:induction false} BindsPlanOnly(gp: Path, name: string, cs: seq<ConfigView>, force: bool, c: Cmd)
    requires c in BindsPlan(gp, name, cs, force)
    ensures exists v, f ::
      (v in cs && f in v.functions
       && c == Bind(FunctionDir(gp, name, f), ConfigDir(gp, name, v) + [f.FullName()], force))
  {
    if c in BindPlan(gp, name, cs[0], force) {
      BindCmdsOnly(gp, name, ConfigDir(gp, name, cs[0]), cs[0].functions, force, c);
      var f :| f in cs[0].functions
        && c == Bind(FunctionDir(gp, name, f), ConfigDir(gp, name, cs[0]) + [f.FullName()], force);
      assert cs[0] in cs;
    } else {
      BindsPlanOnly(gp, name, cs[1..], force, c);
      var v, f :| v in cs[1..] && f in v.functions
        && c == Bind(FunctionDir(gp, name, f), ConfigDir(gp, name, v) + [f.FullName()], force);
      assert v in cs;
    }
  }

  /** The converse of `PlanHas`: every step of `add_gadget` creates a
      directory of the layout, stores a record into one, makes a link of the
      layout, or writes the gadget's `UDC` file. */
  lemma PlanOnly(gp: Path, g: GadgetView, force: bool, c: Cmd)
    requires c in GadgetPlan(gp, g, force)
    ensures c.Mkdir? ==> c.existOk == force && ListedDir(gp, g, c.path)
    ensures c.Store? ==> ListedDir(gp, g, c.dir)
    ensures c.Bind? ==> c.force == force && ListedLink(gp, g, c.target, c.at)
    ensures c.StoreMap? ==>
      Truthy(g.udc) && c == StoreMap(GadgetDir(gp, g.name), [(UDC_FILE, StrValue(g.udc.value))])
  {
    var head := HeadPlan(gp, g, force);
    var configs := ConfigsPlan(gp, g.name, g.configs, force);
    var functions := FunctionsPlan(gp, g.name, g.functions, force);
    var binds := BindsPlan(gp, g.name, g.configs, force);
    var udc := UdcPlan(gp, g.name, g.udc);
    assert GadgetPlan(gp, g, force) == head + configs + functions + binds + udc;
    if c in head {
      DirPlanOnly(GadgetDir(gp, g.name), g.attrs, g.strs, force, c);
    } else if c in configs {
      ConfigsPlanOnly(gp, g.name, g.configs, force, c);
      var v :| v in g.configs && c in ConfigPlan(gp, g.name, v, force);
      DirPlanOnly(ConfigDir(gp, g.name, v), v.attrs, v.strs, force, c);
    } else if c in functions {
      FunctionsPlanOnly(gp, g.name, g.functions, force, c);
      var f :| f in g.functions && c in FunctionPlan(gp, g.name, f, force);
      DirPlanOnly(FunctionDir(gp, g.name, f), f.attrs, None, force, c);
    } else if c in binds {
      BindsPlanOnly(gp, g.name, g.configs, force, c);
    } else {
      assert c in udc;
    }
  }

  /** The directories `add_gadget` creates are exactly the directories of the
      layout and the links it makes exactly the links of the layout, all
      under the same `force`. */
  lemma PlanExactly(gp: Path, g: GadgetView, force: bool)
    ensures forall p :: Mkdir(p, force) in GadgetPlan(gp, g, force) <==> ListedDir(gp, g, p)
    ensures forall target, at :: Bind(target, at, force) in GadgetPlan(gp, g, force) <==> ListedLink(gp, g, target, at)
    ensures forall p, b :: Mkdir(p, b) in GadgetPlan(gp, g, force) ==> b == force
    ensures forall target, at, b :: Bind(target, at, b) in GadgetPlan(gp, g, force) ==> b == force
  {
    var plan := GadgetPlan(gp, g, force);
    PlanHas(gp, g, force);
    forall c | c in plan
      ensures c.Mkdir? ==> c.existOk == force && ListedDir(gp, g, c.path)
      ensures c.Bind? ==> c.force == force && ListedLink(gp, g, c.target, c.at)
    {
      PlanOnly(gp, g, force, c);
    }
    forall p | ListedDir(gp, g, p) ensures Mkdir(p, force) in plan {
      if exists c :: c in g.configs && p == ConfigDir(gp, g.name, c) {
        var c :| c in g.configs && p == ConfigDir(gp, g.name, c);
      } else if exists c :: c in g.configs && c.strs.Some? && p == StringsDir(ConfigDir(gp, g.name, c), c.strs.value) {
        var c :| c in g.configs && c.strs.Some? && p == StringsDir(ConfigDir(gp, g.name, c), c.strs.value);
      } else if exists f :: f in g.functions && p == FunctionDir(gp, g.name, f) {
        var f :| f in g.functions && p == FunctionDir(gp, g.name, f);
      }
    }
    forall target, at | ListedLink(gp, g, target, at) ensures Bind(target, at, force) in plan {
      var c, f :| c in g.configs && f in c.functions
        && target == FunctionDir(gp, g.name, f) && at == ConfigDir(gp, g.name, c) + [f.FullName()];
    }
  }

  // ---------------------------------------------------------------------
  // Nothing outside the gadget directory

  /** `p` is `root` or lies below it. */
  predicate Under(p: Path, root: Path) {
    |root| <= |p| && p[..|root|] == root
  }

  /** `p` is neither `root`, nor below it, nor on the way to it. */
  predicate Outside(p: Path, root: Path) {
    !Under(p, root) && !(|p| <= |root| && p == root[..|p|])
  }

  /** Every link at or below `root` points at or below `root`. */
  ghost predicate LinksStayUnder(t: Tree, root: Path) {
    forall p :: p in t && Under(p, root) && t[p].Link? ==> Under(t[p].target, root)
  }

  /** Two trees agree on every path outside `root`. */
  ghost predicate SameOutside(t: Tree, u: Tree, root: Path) {
    forall p :: Outside(p, root) ==> (p in t <==> p in u) && (p in t ==> t[p] == u[p])
  }

  /** Every path a command names lies at or below `root`. */
  predicate Inside(c: Cmd, root: Path) {
    match c
    case Mkdir(p, _) => Under(p, root)
    case Store(dir, _) => Under(dir, root)
    case StoreMap(dir, _) => Under(dir, root)
    case Bind(target, at, _) => Under(target, root) && Under(at, root)
  }

  lemma UnderExtend(p: Path, root: Path, s: Path)
    requires Under(p, root)
    ensures Under(p + s, root)
  {
    assert (p + s)[..|root|] == p[..|root|];
  }

  lemma WriteStaysUnder(t: Tree, p: Path, c: Content, root: Path)
    requires Under(p, root) && LinksStayUnder(t, root)
    ensures var e := Write(t, p, c);
      SameOutside(t, e.tree, root) && LinksStayUnder(e.tree, root)
  {
    assert Under(Resolve(t, p), root);
  }

  lemma {:induction false} WriteEntriesStayUnder(t: Tree, d: Path, entries: seq<Entry>, root: Path)
    requires Under(d, root) && LinksStayUnder(t, root)
    ensures var e := WriteEntries(t, d, entries);
      SameOutside(t, e.tree, root) && LinksStayUnder(e.tree, root)
    decreases |entries|
  {
    if entries != [] {
      var p := d + [entries[0].0];
      UnderExtend(d, root, [entries[0].0]);
      WriteStaysUnder(t, p, Render(entries[0].1), root);
      var w := Write(t, p, Render(entries[0].1));
      if w.outcome.Pass? {
        WriteEntriesStayUnder(w.tree, d, entries[1..], root);
      }
    }
  }

  lemma MakeDirsStaysUnder(t: Tree, p: Path, existOk: bool, root: Path)
    requires Under(p, root) && LinksStayUnder(t, root)
    ensures var e := MakeDirs(t, p, existOk);
      SameOutside(t, e.tree, root) && LinksStayUnder(e.tree, root)
  {
    MakeDirsValid(t, p, existOk);
    forall q | q in Prefixes(p) ensures !Outside(q, root) {
      var k :| 1 <= k <= |p| && q == p[..k];
      if k >= |root| {
        assert q[..|root|] == p[..|root|];
      } else {
        assert q == root[..k];
      }
    }
  }

  /** One step of a command inside `root` changes nothing outside it and
      makes no link that leaves it. */
  lemma StepStaysUnder(t: Tree, c: Cmd, root: Path)
    requires Inside(c, root) && LinksStayUnder(t, root)
    ensures var e := Step(t, c);
      SameOutside(t, e.tree, root) && LinksStayUnder(e.tree, root)
  {
    match c
    case Mkdir(p, existOk) =>
      MakeDirsStaysUnder(t, p, existOk, root);
    case Store(dir, r) =>
      if Serialized(r).Ok? {
        WriteEntriesStayUnder(t, Resolve(t, dir), Serialized(r).value, root);
      }
    case StoreMap(dir, entries) =>
      WriteEntriesStayUnder(t, Resolve(t, dir), entries, root);
    case Bind(target, at, force) =>
  }

  /** A run of commands inside `root`, passing or failing, changes nothing
      outside it. */
  lemma {:induction false} ExecStaysUnder(t: Tree, cmds: seq<Cmd>, root: Path)
    requires forall c :: c in cmds ==> Inside(c, root)
    requires LinksStayUnder(t, root)
    ensures var e := Exec(t, cmds);
      SameOutside(t, e.tree, root) && LinksStayUnder(e.tree, root)
    decreases |cmds|
  {
    if cmds != [] {
      var e := Step(t, cmds[0]);
      StepStaysUnder(t, cmds[0], root);
      if e.outcome.Pass? {
        assert forall c :: c in cmds[1..] ==> c in cmds;
        ExecStaysUnder(e.tree, cmds[1..], root);
      }
    }
  }

  lemma ConfigDirUnder(gp: Path, name: string, c: ConfigView)
    ensures Under(ConfigDir(gp, name, c), GadgetDir(gp, name))
    ensures c.strs.Some? ==> Under(StringsDir(ConfigDir(gp, name, c), c.strs.value), GadgetDir(gp, name))
  {
    var root := GadgetDir(gp, name);
    assert ConfigDir(gp, name, c) == root + [CONFIGS_DIR, c.FullName()];
    assert root[..|root|] == root;
    UnderExtend(root, root, [CONFIGS_DIR, c.FullName()]);
    if c.strs.Some? {
      UnderExtend(ConfigDir(gp, name, c), root, [STRINGS_DIR, c.strs.value.lang]);
    }
  }

  lemma FunctionDirUnder(gp: Path, name: string, f: GadgetFunction)
    ensures Under(FunctionDir(gp, name, f), GadgetDir(gp, name))
  {
    var root := GadgetDir(gp, name);
    assert FunctionDir(gp, name, f) == root + [FUNCTIONS_DIR, f.FullName()];
    assert root[..|root|] == root;
    UnderExtend(root, root, [FUNCTIONS_DIR, f.FullName()]);
  }

  lemma ListedDirUnder(gp: Path, g: GadgetView, p: Path)
    requires ListedDir(gp, g, p)
    ensures Under(p, GadgetDir(gp, g.name))
  {
    var root := GadgetDir(gp, g.name);
    assert root[..|root|] == root;
    if g.strs.Some? {
      UnderExtend(root, root, [STRINGS_DIR, g.strs.value.lang]);
    }
    forall c | c in g.configs
      ensures Under(ConfigDir(gp, g.name, c), root)
      ensures c.strs.Some? ==> Under(StringsDir(ConfigDir(gp, g.name, c), c.strs.value), root)
    {
      ConfigDirUnder(gp, g.name, c);
    }
    forall f | f in g.functions ensures Under(FunctionDir(gp, g.name, f), root) {
      FunctionDirUnder(gp, g.name, f);
    }
  }

  lemma ListedLinkUnder(gp: Path, g: GadgetView, target: Path, at: Path)
    requires ListedLink(gp, g, target, at)
    ensures Under(target, GadgetDir(gp, g.name)) && Under(at, GadgetDir(gp, g.name))
  {
    var c, f :| c in g.configs && f in c.functions
      && target == FunctionDir(gp, g.name, f) && at == ConfigDir(gp, g.name, c) + [f.FullName()];
    FunctionDirUnder(gp, g.name, f);
    ConfigDirUnder(gp, g.name, c);
    UnderExtend(ConfigDir(gp, g.name, c), GadgetDir(gp, g.name), [f.FullName()]);
  }

  /** `add_gadget` works inside the gadget's directory: every path its steps
      name lies at or below it, and when the links already below it point
      into it (in particular when there are none) a run, passing or failing,
      leaves every path outside it, and off the way to it, as it was. */
  lemma AddGadgetFrame(t: Tree, gp: Path, g: GadgetView, force: bool)
    requires LinksStayUnder(t, GadgetDir(gp, g.name))
    ensures forall c :: c in GadgetPlan(gp, g, force) ==> Inside(c, GadgetDir(gp, g.name))
    ensures SameOutside(t, Exec(t, GadgetPlan(gp, g, force)).tree, GadgetDir(gp, g.name))
  {
    var root := GadgetDir(gp, g.name);
    forall c | c in GadgetPlan(gp, g, force) ensures Inside(c, root) {
      PlanOnly(gp, g, force, c);
      match c
      case Mkdir(p, _) => ListedDirUnder(gp, g, p);
      case Store(dir, _) => ListedDirUnder(gp, g, dir);
      case StoreMap(dir, _) => assert dir[..|root|] == root;
      case Bind(target, at, _) => ListedLinkUnder(gp, g, target, at);
    }
    ExecStaysUnder(t, GadgetPlan(gp, g, force), root);
  }

  // ---------------------------------------------------------------------
  // Existing paths, with and without force

  /** Without `force`, a gadget whose directory exists is refused by the very
      first step, before anything is written. */
  lemma NoForceExistingGadget(t: Tree, gp: Path, g: GadgetView)
    requires Present(t, GadgetDir(gp, g.name))
    ensures Exec(t, GadgetPlan(gp, g, false)) == Effect(t, Fail(FileExists))
  {
    var p := GadgetPlan(gp, g, false);
    PlanOrder(gp, g, false);
    assert Step(t, p[0]) == Effect(t, Fail(FileExists));
  }

  /** The rules of `exist_ok=force` and of the `force` test in
      `bind_functions`: an existing directory is tolerated only with force;
      an occupied link path always raises without force; with force it is
      skipped when the path leads somewhere, and still raises when it is a
      dangling link. */
  lemma ForceRules(t: Tree, path: Path, target: Path, at: Path)
    ensures Step(t, Mkdir(path, false)).outcome == Fail(FileExists) <==> Present(t, path)
    ensures IsDir(t, path) ==> Step(t, Mkdir(path, true)) == Effect(t, Pass)
    ensures Present(t, path) && !IsDir(t, path) ==> Step(t, Mkdir(path, true)) == Effect(t, Fail(FileExists))
    ensures Present(t, at) ==> Step(t, Bind(target, at, false)) == Effect(t, Fail(FileExists))
    ensures Exists(t, at) ==> Step(t, Bind(target, at, true)) == Effect(t, Pass)
    ensures Present(t, at) && !Exists(t, at) ==> Step(t, Bind(target, at, true)) == Effect(t, Fail(FileExists))
    ensures !Present(t, at) ==> Step(t, Bind(target, at, true)) == Step(t, Bind(target, at, false))
  {
    if !Present(t, at) {
      assert !Exists(t, at);
    }
  }

  // ---------------------------------------------------------------------
  // What store_attrs writes

  predicate DistinctKeys(entries: seq<Entry>) {
    forall i, j :: 0 <= i < j < |entries| ==> entries[i].0 != entries[j].0
  }

  /** The files `store_attrs` writes into the directory `d`. */
  function EntryPaths(d: Path, entries: seq<Entry>): set<Path> {
    set i | 0 <= i < |entries| :: d + [entries[i].0]
  }

  /** No entry's file is a link: each write lands at the entry's own path. */
  predicate NoLinkedEntries(t: Tree, d: Path, entries: seq<Entry>) {
    forall i :: 0 <= i < |entries| ==> d + [entries[i].0] !in t || !t[d + [entries[i].0]].Link?
  }

  /** Every entry's path may be written: absent, or a file. */
  predicate Writable(t: Tree, d: Path, entries: seq<Entry>) {
    forall i :: 0 <= i < |entries| ==> d + [entries[i].0] !in t || t[d + [entries[i].0]].File?
  }

  lemma EntryPathsCons(d: Path, entries: seq<Entry>)
    requires entries != [] && DistinctKeys(entries)
    ensures EntryPaths(d, entries) == {d + [entries[0].0]} + EntryPaths(d, entries[1..])
    ensures d + [entries[0].0] !in EntryPaths(d, entries[1..])
  {
    var rest := entries[1..];
    var p0 := d + [entries[0].0];
    forall q | q in EntryPaths(d, entries) ensures q in {p0} + EntryPaths(d, rest) {
      var i :| 0 <= i < |entries| && q == d + [entries[i].0];
      if i > 0 { assert q == d + [rest[i - 1].0]; }
    }
    forall q | q in EntryPaths(d, rest) ensures q in EntryPaths(d, entries) {
      var i :| 0 <= i < |rest| && q == d + [rest[i].0];
      assert q == d + [entries[i + 1].0];
    }
    forall i | 0 <= i < |rest| ensures d + [rest[i].0] != p0 {
      assert (d + [rest[i].0])[|d|] == rest[i].0 == entries[i + 1].0;
    }
  }

  /** The first write of `WriteEntries`, and what it leaves for the rest. */
  lemma WriteFirst(t: Tree, d: Path, entries: seq<Entry>)
    requires entries != [] && IsDirNode(t, d) && DistinctKeys(entries) && NoLinkedEntries(t, d, entries)
    ensures var p0 := d + [entries[0].0];
      var w := Write(t, p0, Render(entries[0].1));
      && (w.outcome.Pass? <==> p0 !in t || t[p0].File?)
      && (w.outcome.Fail? ==> w.outcome == Fail(HostError))
      && (w.outcome.Pass? ==>
            && w.tree == t[p0 := File(Render(entries[0].1))]
            && IsDirNode(w.tree, d)
            && NoLinkedEntries(w.tree, d, entries[1..])
            && (Writable(w.tree, d, entries[1..]) <==> Writable(t, d, entries[1..])))
  {
    var rest := entries[1..];
    var p0 := d + [entries[0].0];
    assert Parent(p0) == d;
    forall i | 0 <= i < |rest| ensures d + [rest[i].0] != p0 && rest[i] == entries[i + 1] {
      assert (d + [rest[i].0])[|d|] == rest[i].0 == entries[i + 1].0;
    }
  }

  /** The writes of `store_attrs` touch only the entries' own paths. */
  lemma {:induction false} WriteEntriesFrame(t: Tree, d: Path, entries: seq<Entry>)
    requires IsDirNode(t, d) && DistinctKeys(entries) && NoLinkedEntries(t, d, entries)
    ensures var e := WriteEntries(t, d, entries);
      && (forall p :: p in t && p !in EntryPaths(d, entries) ==> p in e.tree && e.tree[p] == t[p])
      && (forall p :: p in e.tree ==> p in t || p in EntryPaths(d, entries))
    decreases |entries|
  {
    if entries != [] {
      var rest := entries[1..];
      var w := Write(t, d + [entries[0].0], Render(entries[0].1));
      EntryPathsCons(d, entries);
      WriteFirst(t, d, entries);
      if w.outcome.Pass? {
        assert DistinctKeys(rest) by {
          assert forall i :: 0 <= i < |rest| ==> rest[i] == entries[i + 1];
        }
        WriteEntriesFrame(w.tree, d, rest);
      }
    }
  }

  /** The writes of `store_attrs` pass exactly when every entry's path may
      be written, and then each holds its entry's rendering. */
  lemma {:induction false} WriteEntriesOutcome(t: Tree, d: Path, entries: seq<Entry>)
    requires IsDirNode(t, d) && DistinctKeys(entries) && NoLinkedEntries(t, d, entries)
    ensures var e := WriteEntries(t, d, entries);
      && (e.outcome.Pass? <==> Writable(t, d, entries))
      && (e.outcome.Fail? ==> e.outcome == Fail(HostError))
      && (e.outcome.Pass? ==> forall i :: 0 <= i < |entries| ==>
            d + [entries[i].0] in e.tree && e.tree[d + [entries[i].0]] == File(Render(entries[i].1)))
    decreases |entries|
  {
    if entries != [] {
      var rest := entries[1..];
      var p0 := d + [entries[0].0];
      var w := Write(t, p0, Render(entries[0].1));
      EntryPathsCons(d, entries);
      WriteFirst(t, d, entries);
      assert Writable(t, d, entries) <==> (p0 !in t || t[p0].File?) && Writable(t, d, rest) by {
        assert forall i :: 0 < i < |entries| ==> entries[i] == rest[i - 1];
        assert forall i :: 0 <= i < |rest| ==> rest[i] == entries[i + 1];
      }
      if w.outcome.Pass? {
        assert DistinctKeys(rest) by {
          assert forall i :: 0 <= i < |rest| ==> rest[i] == entries[i + 1];
        }
        WriteEntriesOutcome(w.tree, d, rest);
        WriteEntriesFrame(w.tree, d, rest);
        var e := WriteEntries(w.tree, d, rest);
        if e.outcome.Pass? {
          forall i | 0 <= i < |entries|
            ensures d + [entries[i].0] in e.tree && e.tree[d + [entries[i].0]] == File(Render(entries[i].1))
          {
            if i > 0 { assert entries[i] == rest[i - 1]; }
          }
        }
      }
    }
  }

  /** `store_attrs` either raises because its target is not a directory, or
      writes one file per entry, named by the key: the write fails exactly
      when some entry's path is a directory; when all pass, every entry's
      file holds that entry's rendering and nothing else in the tree
      changed. */
  lemma StoreAttrsEffect(t: Tree, dir: Path, entries: seq<Entry>)
    requires DistinctKeys(entries) && NoLinkedEntries(t, Resolve(t, dir), entries)
    ensures !IsDir(t, dir) ==> StoreAttrs(t, dir, entries) == Effect(t, Fail(HostError))
    ensures IsDir(t, dir) ==>
      var d := Resolve(t, dir);
      var e := StoreAttrs(t, dir, entries);
      && (e.outcome.Pass? <==> Writable(t, d, entries))
      && (e.outcome.Fail? ==> e.outcome == Fail(HostError))
      && (e.outcome.Pass? ==> forall i :: 0 <= i < |entries| ==>
            d + [entries[i].0] in e.tree && e.tree[d + [entries[i].0]] == File(Render(entries[i].1)))
      && (forall p :: p in t && p !in EntryPaths(d, entries) ==> p in e.tree && e.tree[p] == t[p])
      && (forall p :: p in e.tree ==> p in t || p in EntryPaths(d, entries))
  {
    if IsDir(t, dir) {
      WriteEntriesOutcome(t, Resolve(t, dir), entries);
      WriteEntriesFrame(t, Resolve(t, dir), entries);
    }
  }

  // ---------------------------------------------------------------------
  // The UDC file

  lemma WriteThenRead(t: Tree, p: Path, s: string)
    requires Write(t, p, TextContent(s)).outcome.Pass?
    ensures ReadText(Write(t, p, TextContent(s)).tree, p) == Ok(s)
  {
  }

  /** Binding a controller writes its name followed by a newline into the
      gadget directory's `UDC` file; an unset or empty name writes nothing. */
  lemma UdcFileContent(t: Tree, gp: Path, name: string, udc: Option<string>)
    ensures !Truthy(udc) ==> Exec(t, UdcPlan(gp, name, udc)) == Effect(t, Pass)
    ensures Truthy(udc) && Exec(t, UdcPlan(gp, name, udc)).outcome.Pass? ==>
      var u := Exec(t, UdcPlan(gp, name, udc)).tree;
      ReadText(u, Resolve(u, GadgetDir(gp, name)) + [UDC_FILE]) == Ok(udc.value + "\n")
  {
    if Truthy(udc) && Exec(t, UdcPlan(gp, name, udc)).outcome.Pass? {
      var gdir := GadgetDir(gp, name);
      var d := Resolve(t, gdir);
      var file := d + [UDC_FILE];
      var entries := [(UDC_FILE, StrValue(udc.value))];
      var w := Write(t, file, TextContent(udc.value + "\n"));
      assert Render(StrValue(udc.value)) == TextContent(udc.value + "\n");
      assert UdcPlan(gp, name, udc) == [StoreMap(gdir, entries)];
      assert IsDirNode(t, d);
      assert WriteEntries(t, d, entries) == (if w.outcome.Fail? then w else WriteEntries(w.tree, d, entries[1..]));
      assert entries[1..] == [];
      assert w.outcome.Pass?;
      assert Exec(t, UdcPlan(gp, name, udc)).tree == w.tree;
      WriteThenRead(t, file, udc.value + "\n");
      WriteValid(t, file, TextContent(udc.value + "\n"));
      ExtendsKeepsDirs(t, w.tree, gdir);
    }
  }

  /** The `UDC` file of a passing `add_gadget` with a non-empty `UDC` holds
      that name and a newline. */
  lemma AddGadgetUdc(t: Tree, gp: Path, g: GadgetView, force: bool)
    requires Truthy(g.udc) && Exec(t, GadgetPlan(gp, g, force)).outcome.Pass?
    ensures var u := Exec(t, GadgetPlan(gp, g, force)).tree;
      ReadText(u, Resolve(u, GadgetDir(gp, g.name)) + [UDC_FILE]) == Ok(g.udc.value + "\n")
  {
    var before := HeadPlan(gp, g, force)
      + ConfigsPlan(gp, g.name, g.configs, force)
      + FunctionsPlan(gp, g.name, g.functions, force)
      + BindsPlan(gp, g.name, g.configs, force);
    ExecAppend(t, before, UdcPlan(gp, g.name, g.udc));
    UdcFileContent(Exec(t, before).tree, gp, g.name, g.udc);
  }

  // ---------------------------------------------------------------------
  // Choosing a controller

  /** The gadget directories `bound_udcs` walks: the entries of the gadget
      root that are directories (or links to directories). */
  function GadgetDirs(t: Tree, gp: Path): set<Path> {
    var r := Resolve(t, gp);
    set p | p in t && |p| == |r| + 1 && p[..|r|] == r && IsDir(t, p)
  }

  /** The `UDC` file of a gadget directory. */
  function UdcPath(t: Tree, p: Path): Path {
    Resolve(t, p) + [UDC_FILE]
  }

  /** `bound_udcs`: the verbatim content of every existing `UDC` file under
      the gadget root.  A root that is not a directory makes `next` on the
      walk raise inside the generator; an unreadable `UDC` file raises too. */
  function ClaimedControllers(t: Tree, gp: Path): Result<set<string>> {
    if !IsDir(t, gp) then Err(HostError)
    else
      var dirs := set p | p in GadgetDirs(t, gp) && Exists(t, UdcPath(t, p));
      if exists p :: p in dirs && ReadText(t, UdcPath(t, p)).Err? then Err(HostError)
      else Ok(set p | p in dirs :: ReadText(t, UdcPath(t, p)).value)
  }

  /** The controllers of a listing that are not claimed, in listing order. */
  function Unclaimed(listing: seq<string>, claimed: set<string>): seq<string> {
    if listing == [] then []
    else if listing[0] in claimed then Unclaimed(listing[1..], claimed)
    else [listing[0]] + Unclaimed(listing[1..], claimed)
  }

  /** `udcs(unbound_only)`: with `unbound_only` every listed controller whose
      name equals some `UDC` file's content is skipped; without it nothing is
      read and nothing skipped. */
  function AvailableControllers(t: Tree, gp: Path, listing: seq<string>, unboundOnly: bool): Result<seq<string>> {
    if !unboundOnly then Ok(Unclaimed(listing, {}))
    else
      match ClaimedControllers(t, gp)
      case Err(e) => Err(e)
      case Ok(claimed) => Ok(Unclaimed(listing, claimed))
  }

  /** The controller `enable(udc)` binds: the given one, or else the first
      that `udcs()` yields; none raises `GadgetBindError`. */
  function SelectController(t: Tree, gp: Path, listing: seq<string>, udc: Option<string>): Result<string> {
    if udc.Some? then Ok(udc.value)
    else
      match AvailableControllers(t, gp, listing, true)
      case Err(e) => Err(e)
      case Ok(free) => if free == [] then Err(BindError) else Ok(free[0])
  }

  lemma {:induction false} UnclaimedAppend(a: seq<string>, b: seq<string>, claimed: set<string>)
    ensures Unclaimed(a + b, claimed) == Unclaimed(a, claimed) + Unclaimed(b, claimed)
  {
    if a == [] {
      assert a + b == b;
    } else {
      assert (a + b)[0] == a[0];
      assert (a + b)[1..] == a[1..] + b;
      UnclaimedAppend(a[1..], b, claimed);
    }
  }

  /** `Unclaimed` keeps exactly the unclaimed entries; it is empty exactly
      when every entry is claimed, its first element is the first unclaimed
      entry, and with nothing claimed it is the whole listing. */
  lemma {:induction false} UnclaimedSpec(listing: seq<string>, claimed: set<string>)
    ensures forall x :: x in Unclaimed(listing, claimed) <==> x in listing && x !in claimed
    ensures Unclaimed(listing, claimed) == [] <==> forall x :: x in listing ==> x in claimed
    ensures Unclaimed(listing, claimed) != [] ==>
      exists k :: (0 <= k < |listing| && listing[k] == Unclaimed(listing, claimed)[0]
        && listing[k] !in claimed && forall j :: 0 <= j < k ==> listing[j] in claimed)
    ensures claimed == {} ==> Unclaimed(listing, claimed) == listing
  {
    if listing != [] {
      var rest := listing[1..];
      UnclaimedSpec(rest, claimed);
      assert listing == [listing[0]] + rest;
      assert forall x :: x in listing <==> x == listing[0] || x in rest;
      if listing[0] !in claimed {
        assert listing[0] == Unclaimed(listing, claimed)[0];
      } else if Unclaimed(listing, claimed) != [] {
        var k :| 0 <= k < |rest| && rest[k] == Unclaimed(rest, claimed)[0]
          && rest[k] !in claimed && forall j :: 0 <= j < k ==> rest[j] in claimed;
        assert listing[k + 1] == rest[k];
        forall j | 0 <= j < k + 1 ensures listing[j] in claimed {
          if j > 0 { assert listing[j] == rest[j - 1]; }
        }
      }
    }
  }

  /** `enable` binds the controller it is given without consulting the host;
      otherwise the first listed controller not claimed by a `UDC` file, and
      raises `GadgetBindError` exactly when every listed controller is
      claimed; a failure to read the claims propagates. */
  lemma SelectControllerSpec(t: Tree, gp: Path, listing: seq<string>, udc: Option<string>)
    ensures udc.Some? ==> SelectController(t, gp, listing, udc) == Ok(udc.value)
    ensures udc.None? && ClaimedControllers(t, gp).Err? ==>
      SelectController(t, gp, listing, udc) == Err(HostError)
    ensures udc.None? && ClaimedControllers(t, gp).Ok? ==>
      var claimed := ClaimedControllers(t, gp).value;
      var r := SelectController(t, gp, listing, udc);
      && (r == Err(BindError) <==> forall x :: x in listing ==> x in claimed)
      && (r.Err? ==> r == Err(BindError))
      && (r.Ok? ==>
            exists k :: (0 <= k < |listing| && listing[k] == r.value
              && listing[k] !in claimed && forall j :: 0 <= j < k ==> listing[j] in claimed))
  {
    if ClaimedControllers(t, gp).Ok? {
      UnclaimedSpec(listing, ClaimedControllers(t, gp).value);
    }
  }

  /** The comparison in `udcs` is verbatim: a `UDC` file written by this
      library ends in a newline (`UdcFileContent`), so when every claim has
      that form and no controller name ends in a newline, nothing is
      excluded: a controller already bound by such a gadget is offered
      again. */
  lemma {:induction false} NewlineClaimsExcludeNothing(listing: seq<string>, claimed: set<string>)
    requires forall c :: c in claimed ==> |c| > 0 && c[|c| - 1] == '\n'
    requires forall k :: 0 <= k < |listing| ==> |listing[k]| == 0 || listing[k][|listing[k]| - 1] != '\n'
    ensures Unclaimed(listing, claimed) == listing
  {
    if listing != [] {
      assert listing[0] !in claimed;
      NewlineClaimsExcludeNothing(listing[1..], claimed);
      assert listing == [listing[0]] + listing[1..];
    }
  }

  /** After `bind_udc(name, c)` on a gadget root that is a plain directory,
      the walk of `bound_udcs` finds the gadget's `UDC` file and reports the
      claim `c` followed by a newline; so when every claim has that form and
      `c` itself does not end in a newline, `udcs(unbound_only=True)` still
      offers the controller that was just bound. */
  lemma BoundControllerOffered(t: Tree, gp: Path, name: string, c: string, listing: seq<string>)
    requires c != "" && IsDirNode(t, gp)
    requires Exec(t, UdcPlan(gp, name, Some(c))).outcome.Pass?
    ensures var u := Exec(t, UdcPlan(gp, name, Some(c))).tree;
      IsDir(u, gp) && GadgetDir(gp, name) in GadgetDirs(u, gp)
    ensures var u := Exec(t, UdcPlan(gp, name, Some(c))).tree;
      ClaimedControllers(u, gp).Ok? ==> c + "\n" in ClaimedControllers(u, gp).value
    ensures var u := Exec(t, UdcPlan(gp, name, Some(c))).tree;
      && ClaimedControllers(u, gp).Ok?
      && (forall x :: x in ClaimedControllers(u, gp).value ==> |x| > 0 && x[|x| - 1] == '\n')
      && c in listing && c[|c| - 1] != '\n'
      ==> c in AvailableControllers(u, gp, listing, true).value
  {
    var gdir := GadgetDir(gp, name);
    var u := Exec(t, UdcPlan(gp, name, Some(c))).tree;
    UdcFileContent(t, gp, name, Some(c));
    ExecExtends(t, UdcPlan(gp, name, Some(c)));
    // the run stores into the resolved gadget directory, so that is a directory
    var d := Resolve(t, gdir);
    assert UdcPlan(gp, name, Some(c)) == [StoreMap(gdir, [(UDC_FILE, StrValue(c))])];
    assert IsDirNode(t, d);
    assert gdir in t;
    ExtendsKeepsDirs(t, u, gdir);
    ExtendsKeepsDirs(t, u, gp);
    assert Resolve(u, gp) == gp;
    assert gdir[..|gp|] == gp;
    assert gdir in GadgetDirs(u, gp);
    assert ReadText(u, UdcPath(u, gdir)) == Ok(c + "\n");
    if ClaimedControllers(u, gp).Ok? {
      var claimed := ClaimedControllers(u, gp).value;
      assert Exists(u, UdcPath(u, gdir));
      assert c + "\n" in claimed;
      UnclaimedSpec(listing, claimed);
    }
  }
}
