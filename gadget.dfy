/** The objects of the gadget code: `GadgetSpace`, which issues the host
    operations of the projection engine, and `USBGadget`, whose `space` and
    `UDC` fields form the lifecycle.  Every method that touches the host is
    proved to leave exactly the tree that `Exec` of the matching plan leaves,
    so the layout properties proved about the plans hold of the methods. */
module Gadget {
  import opened Outcomes
  import opened FileTree
  import opened Serialization
  import opened Entities
  import opened Projection

  class GadgetSpace {
    /** `configfs_path/usb_gadget`. */
    const gadgetPath: Path
    /** The host filesystem and controller listing the space works on. */
    const host: Host

    constructor(configfsPath: Path, host: Host)
      ensures gadgetPath == configfsPath + [GADGET_DIR] && this.host == host
    {
      gadgetPath := configfsPath + [GADGET_DIR];
      this.host := host;
    }

    /** `store_attrs`: change into `dir`, then write each entry in order. */
    method StoreAttrs(dir: Path, entries: seq<Entry>) returns (o: Outcome)
      modifies host`tree
      ensures Effect(host.tree, o) == Projection.StoreAttrs(old(host.tree), dir, entries)
    {
      var d := Resolve(host.tree, dir);
      if !IsDirNode(host.tree, d) {
        return Fail(HostError);
      }
      ghost var t0 := host.tree;
      var i := 0;
      while i < |entries|
        invariant 0 <= i <= |entries|
        invariant WriteEntries(t0, d, entries) == WriteEntries(host.tree, d, entries[i..])
      {
        var (name, value) := entries[i];
        assert entries[i..][1..] == entries[i + 1..];
        o := host.WriteFile(d + [name], Render(value));
        if o.Fail? {
          return;
        }
        i := i + 1;
      }
      return Pass;
    }

    /** `store_from_dataclass`: serialise, then `store_attrs`. */
    method StoreFromRecord(dir: Path, r: Record) returns (o: Outcome)
      modifies host`tree
      ensures Effect(host.tree, o) == Step(old(host.tree), Store(dir, r))
    {
      var entries := Serialized(r);
      if entries.Err? {
        return Fail(entries.error);
      }
      o := StoreAttrs(dir, entries.value);
    }

    /** A directory with its attributes and strings, as `add_gadget`,
        `add_config` and `add_function` each create one. */
    method CreateRecordDir(dir: Path, attrs: Option<Record>, strs: Option<StringsRecord>, force: bool)
      returns (o: Outcome)
      modifies host`tree
      ensures Effect(host.tree, o) == Exec(old(host.tree), DirPlan(dir, attrs, strs, force))
    {
      ghost var spec := Exec(host.tree, DirPlan(dir, attrs, strs, force));
      ghost var records := RecordCmds(dir, attrs);
      ghost var strings := StringsCmds(dir, strs, force);
      ghost var t := host.tree;
      assert DirPlan(dir, attrs, strs, force) == [Mkdir(dir, force)] + (records + strings);
      ExecCons(t, Mkdir(dir, force), records + strings);
      o := host.MakeDirsAt(dir, force);
      if o.Fail? {
        assert spec == Effect(host.tree, o);
        return;
      }
      assert spec == Exec(host.tree, records + strings);
      t := host.tree;
      ExecAppend(t, records, strings);
      if attrs.Some? {
        ExecSingle(t, Store(dir, attrs.value));
        o := StoreFromRecord(dir, attrs.value);
        if o.Fail? {
          assert spec == Effect(host.tree, o);
          return;
        }
      } else {
        assert records + strings == strings;
      }
      assert spec == Exec(host.tree, strings);
      if strs.Some? {
        var sdir := StringsDir(dir, strs.value);
        t := host.tree;
        ExecCons(t, Mkdir(sdir, force), [Store(sdir, strs.value)]);
        o := host.MakeDirsAt(sdir, force);
        if o.Fail? {
          assert spec == Effect(host.tree, o);
          return;
        }
        assert spec == Exec(host.tree, [Store(sdir, strs.value)]);
        ExecSingle(host.tree, Store(sdir, strs.value));
        o := StoreFromRecord(sdir, strs.value);
      } else {
        o := Pass;
      }
      assert spec == Effect(host.tree, o);
    }

    /** `add_config`. */
    method AddConfig(gadget: USBGadget, config: GadgetConfig, force: bool) returns (o: Outcome)
      modifies host`tree
      ensures Effect(host.tree, o) == Exec(old(host.tree), ConfigPlan(gadgetPath, gadget.name, config.View(), force))
    {
      o := CreateRecordDir(ConfigDir(gadgetPath, gadget.name, config.View()), config.attrs, config.strs, force);
    }

    /** `add_function`. */
    method AddFunction(gadget: USBGadget, func: GadgetFunction, force: bool) returns (o: Outcome)
      modifies host`tree
      ensures Effect(host.tree, o) == Exec(old(host.tree), FunctionPlan(gadgetPath, gadget.name, func, force))
    {
      o := CreateRecordDir(FunctionDir(gadgetPath, gadget.name, func), func.attrs, None, force);
    }

    /** One link of `bind_functions`: made unless `force` is set and the
        path already leads somewhere. */
    method LinkFunction(target: Path, at: Path, force: bool) returns (o: Outcome)
      modifies host`tree
      ensures Effect(host.tree, o) == Step(old(host.tree), Bind(target, at, force))
    {
      if !force || !Exists(host.tree, at) {
        o := host.CreateLink(target, at);
      } else {
        o := Pass;
      }
    }

    /** `bind_functions`: link each function of the configuration into its
        directory, skipping (with `force`) paths that already lead somewhere. */
    method BindFunctions(gadget: USBGadget, config: GadgetConfig, force: bool) returns (o: Outcome)
      modifies host`tree
      ensures Effect(host.tree, o) == Exec(old(host.tree), BindPlan(gadgetPath, gadget.name, config.View(), force))
    {
      var cdir := ConfigDir(gadgetPath, gadget.name, config.View());
      var fs := config.functions;
      ghost var spec := Exec(host.tree, BindCmds(gadgetPath, gadget.name, cdir, fs, force));
      assert fs[0..] == fs;
      var i := 0;
      while i < |fs|
        invariant 0 <= i <= |fs|
        invariant spec == Exec(host.tree, BindCmds(gadgetPath, gadget.name, cdir, fs[i..], force))
      {
        var f := fs[i];
        ghost var t := host.tree;
        BindCmdsStep(t, gadgetPath, gadget.name, cdir, fs, i, force);
        o := LinkFunction(FunctionDir(gadgetPath, gadget.name, f), cdir + [f.FullName()], force);
        if o.Fail? {
          return;
        }
        ghost var next := BindCmds(gadgetPath, gadget.name, cdir, fs[i + 1..], force);
        assert spec == Exec(host.tree, next);
        i := i + 1;
      }
      assert fs[i..] == [];
      return Pass;
    }

    /** The loop `for config in gadget.configs: self.add_config(...)`. */
    method AddConfigs(gadget: USBGadget, force: bool) returns (o: Outcome)
      modifies host`tree
      ensures Effect(host.tree, o) ==
        Exec(old(host.tree), ConfigsPlan(gadgetPath, gadget.name, old(ConfigViews(gadget.configs)), force))
    {
      ghost var cs := ConfigViews(gadget.configs);
      ghost var spec := Exec(host.tree, ConfigsPlan(gadgetPath, gadget.name, cs, force));
      assert cs[0..] == cs;
      var i := 0;
      while i < |gadget.configs|
        invariant 0 <= i <= |gadget.configs|
        invariant spec == Exec(host.tree, ConfigsPlan(gadgetPath, gadget.name, cs[i..], force))
      {
        ConfigsPlanStep(host.tree, gadgetPath, gadget.name, cs, i, force);
        assert gadget.configs[i].View() == cs[i];
        o := AddConfig(gadget, gadget.configs[i], force);
        if o.Fail? {
          assert spec == Effect(host.tree, o);
          return;
        }
        i := i + 1;
      }
      assert cs[i..] == [];
      return Pass;
    }

    /** The loop `for function in gadget.functions: self.add_function(...)`. */
    method AddFunctions(gadget: USBGadget, force: bool) returns (o: Outcome)
      modifies host`tree
      ensures Effect(host.tree, o) ==
        Exec(old(host.tree), FunctionsPlan(gadgetPath, gadget.name, gadget.functions, force))
    {
      var fs := gadget.functions;
      ghost var spec := Exec(host.tree, FunctionsPlan(gadgetPath, gadget.name, fs, force));
      assert fs[0..] == fs;
      var i := 0;
      while i < |fs|
        invariant 0 <= i <= |fs|
        invariant spec == Exec(host.tree, FunctionsPlan(gadgetPath, gadget.name, fs[i..], force))
      {
        FunctionsPlanStep(host.tree, gadgetPath, gadget.name, fs, i, force);
        o := AddFunction(gadget, fs[i], force);
        if o.Fail? {
          assert spec == Effect(host.tree, o);
          return;
        }
        assert spec == Exec(host.tree, FunctionsPlan(gadgetPath, gadget.name, fs[i + 1..], force));
        i := i + 1;
      }
      assert fs[i..] == [];
      return Pass;
    }

    /** The loop `for config in gadget.configs: self.bind_functions(...)`. */
    method BindConfigs(gadget: USBGadget, force: bool) returns (o: Outcome)
      modifies host`tree
      ensures Effect(host.tree, o) ==
        Exec(old(host.tree), BindsPlan(gadgetPath, gadget.name, old(ConfigViews(gadget.configs)), force))
    {
      ghost var cs := ConfigViews(gadget.configs);
      ghost var spec := Exec(host.tree, BindsPlan(gadgetPath, gadget.name, cs, force));
      assert cs[0..] == cs;
      var i := 0;
      while i < |gadget.configs|
        invariant 0 <= i <= |gadget.configs|
        invariant spec == Exec(host.tree, BindsPlan(gadgetPath, gadget.name, cs[i..], force))
      {
        BindsPlanStep(host.tree, gadgetPath, gadget.name, cs, i, force);
        assert gadget.configs[i].View() == cs[i];
        o := BindFunctions(gadget, gadget.configs[i], force);
        if o.Fail? {
          assert spec == Effect(host.tree, o);
          return;
        }
        i := i + 1;
      }
      assert cs[i..] == [];
      return Pass;
    }

    /** `add_gadget`: the gadget directory with its attributes and strings,
        every configuration, every function, the links of every
        configuration, and the `UDC` file; the first failure ends it. */
    method AddGadget(gadget: USBGadget, force: bool) returns (o: Outcome)
      modifies host`tree
      ensures Effect(host.tree, o) == Exec(old(host.tree), GadgetPlan(gadgetPath, old(gadget.View()), force))
    {
      ghost var g := gadget.View();
      ghost var head := HeadPlan(gadgetPath, g, force);
      ghost var configs := ConfigsPlan(gadgetPath, g.name, g.configs, force);
      ghost var functions := FunctionsPlan(gadgetPath, g.name, g.functions, force);
      ghost var binds := BindsPlan(gadgetPath, g.name, g.configs, force);
      ghost var udc := UdcPlan(gadgetPath, g.name, g.udc);
      ghost var t := host.tree;
      ghost var spec := Exec(t, GadgetPlan(gadgetPath, g, force));
      Regroup(head, configs, functions, binds, udc);
      assert spec == Exec(t, head + (configs + (functions + (binds + udc))));
      var gdir := GadgetDir(gadgetPath, gadget.name);
      o := CreateRecordDir(gdir, gadget.attrs, gadget.strs, force);
      ExecThen(t, head, configs + (functions + (binds + udc)), Effect(host.tree, o));
      if o.Pass? {
        t := host.tree;
        assert ConfigViews(gadget.configs) == g.configs;
        o := AddConfigs(gadget, force);
        ExecThen(t, configs, functions + (binds + udc), Effect(host.tree, o));
        if o.Pass? {
          t := host.tree;
          o := AddFunctions(gadget, force);
          ExecThen(t, functions, binds + udc, Effect(host.tree, o));
          if o.Pass? {
            t := host.tree;
            assert ConfigViews(gadget.configs) == g.configs;
            o := BindConfigs(gadget, force);
            ExecThen(t, binds, udc, Effect(host.tree, o));
            if o.Pass? {
              // The closing `UDC` write is the same step as `bind_udc`.
              o := BindUdc(gadget);
            }
          }
        }
      }
      assert spec == Effect(host.tree, o);
    }

    /** `bind_udc`: write the gadget's controller into its `UDC` file, if it
        has a non-empty one. */
    method BindUdc(gadget: USBGadget) returns (o: Outcome)
      modifies host`tree
      ensures Effect(host.tree, o) == Exec(old(host.tree), UdcPlan(gadgetPath, gadget.name, gadget.UDC))
    {
      if gadget.UDC.Some? && gadget.UDC.value != "" {
        var gdir := GadgetDir(gadgetPath, gadget.name);
        ExecSingle(host.tree, StoreMap(gdir, [(UDC_FILE, StrValue(gadget.UDC.value))]));
        o := StoreAttrs(gdir, [(UDC_FILE, StrValue(gadget.UDC.value))]);
      } else {
        o := Pass;
      }
    }

    /** `udcs(unbound_only)`: the listed controllers, in order, minus (with
        `unbound_only`) those some gadget's `UDC` file claims. */
    method Udcs(unboundOnly: bool) returns (r: Result<seq<string>>)
      ensures r == AvailableControllers(host.tree, gadgetPath, host.controllers, unboundOnly)
    {
      var claimed: set<string> := {};
      if unboundOnly {
        var bound := ClaimedControllers(host.tree, gadgetPath);
        if bound.Err? {
          return Err(bound.error);
        }
        claimed := bound.value;
      }
      var listing := host.controllers;
      var free: seq<string> := [];
      var i := 0;
      while i < |listing|
        invariant 0 <= i <= |listing|
        invariant free == Unclaimed(listing[..i], claimed)
      {
        UnclaimedAppend(listing[..i], [listing[i]], claimed);
        assert listing[..i + 1] == listing[..i] + [listing[i]];
        if listing[i] !in claimed {
          free := free + [listing[i]];
        }
        i := i + 1;
      }
      assert listing[..i] == listing;
      return Ok(free);
    }
  }

  class USBGadget {
    const name: string
    const attrs: Option<Record>
    const strs: Option<StringsRecord>
    const configs: seq<GadgetConfig>
    const functions: seq<GadgetFunction>
    var space: GadgetSpace?
    var UDC: Option<string>

    /** A new gadget is bound to no space and has no controller. */
    constructor(name: string, attrs: Option<Record>, strs: Option<StringsRecord>,
                configs: seq<GadgetConfig>, functions: seq<GadgetFunction>)
      ensures this.name == name && this.attrs == attrs && this.strs == strs
      ensures this.configs == configs && this.functions == functions
      ensures space == null && UDC == None
    {
      this.name := name;
      this.attrs := attrs;
      this.strs := strs;
      this.configs := configs;
      this.functions := functions;
      space := null;
      UDC := None;
    }

    /** The gadget as the projection engine sees it now. */
    function View(): GadgetView
      reads this`UDC, configs`functions
    {
      GadgetView(name, attrs, strs, ConfigViews(configs), functions, UDC)
    }

    /** `bind_to_space`: refused exactly when already bound and not forced;
        otherwise the space is replaced. */
    method BindToSpace(s: GadgetSpace, force: bool) returns (o: Outcome)
      modifies this`space
      ensures o == Fail(AlreadyBound) <==> !force && old(space) != null
      ensures o.Pass? || o == Fail(AlreadyBound)
      ensures space == (if o.Pass? then s else old(space))
    {
      if !force && space != null {
        return Fail(AlreadyBound);
      }
      space := s;
      return Pass;
    }

    /** `add_to_space`: refused without a space; otherwise `add_gadget`,
        whose `FileExistsError` is swallowed (what it wrote before stays). */
    method AddToSpace(force: bool) returns (o: Outcome)
      modifies if space == null then {} else {space.host}
      ensures space == null ==> o == Fail(Unbound)
      ensures space != null ==>
        var e := Exec(old(space.host.tree), GadgetPlan(space.gadgetPath, View(), force));
        && space.host.tree == e.tree
        && space.host.controllers == old(space.host.controllers)
        && o == (if e.outcome == Fail(FileExists) then Pass else e.outcome)
    {
      if space == null {
        return Fail(Unbound);
      }
      o := space.AddGadget(this, force);
      if o == Fail(FileExists) {
        o := Pass;
      }
    }

    /** `enable(udc)`: refused without a space; otherwise the given
        controller, or the first free one, becomes `UDC` and is written to the
        gadget's `UDC` file; with no free controller (or claims that cannot be
        read) `UDC` and the tree stay as they were. */
    method Enable(udc: Option<string>) returns (o: Outcome)
      modifies this`UDC, if space == null then {} else {space.host}
      ensures space == null ==> o == Fail(Unbound) && UDC == old(UDC)
      ensures space != null ==>
        var t0 := old(space.host.tree);
        var chosen := SelectController(t0, space.gadgetPath, old(space.host.controllers), udc);
        && space.host.controllers == old(space.host.controllers)
        && (chosen.Err? ==> o == Fail(chosen.error) && UDC == old(UDC) && space.host.tree == t0)
        && (chosen.Ok? ==>
              UDC == Some(chosen.value)
              && Effect(space.host.tree, o) == Exec(t0, UdcPlan(space.gadgetPath, name, UDC)))
    {
      if space == null {
        return Fail(Unbound);
      }
      var chosen: string;
      if udc.Some? {
        chosen := udc.value;
      } else {
        var free := space.Udcs(true);
        if free.Err? {
          return Fail(free.error);
        }
        if free.value == [] {
          return Fail(BindError);
        }
        chosen := free.value[0];
      }
      UDC := Some(chosen);
      o := space.BindUdc(this);
    }
  }
}
