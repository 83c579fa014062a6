/** The entity model: functions, configurations and the value views of a
    gadget that the projection engine walks.  A `GadgetFunction` is never
    changed after it is built, so it is a value; a `GadgetConfig` collects its
    bound functions in place, so it is an object. */
module Entities {
  import opened Outcomes
  import opened Text
  import opened Serialization

  /** `GadgetFunction(name, instance_name, attrs)`. */
  datatype GadgetFunction = GadgetFunction(name: string, instanceName: string, attrs: Option<Record>)
  {
    /** `fullname`: the directory name of the function. */
    function FullName(): string {
      name + "." + instanceName
    }
  }

  /** `GadgetConfig.fullname`: the directory name of a configuration. */
  function ConfigFullName(name: string, number: int): string {
    name + "." + DecimalText(number)
  }

  /** A configuration as the projection engine sees it at one moment. */
  datatype ConfigView = ConfigView(
    name: string,
    number: int,
    attrs: Option<Record>,
    strs: Option<StringsRecord>,
    functions: seq<GadgetFunction>)
  {
    function FullName(): string {
      ConfigFullName(name, number)
    }
  }

  /** `GadgetConfig(name, number, attrs, strs)`: only its list of bound
      functions changes after construction. */
  class GadgetConfig {
    const name: string
    const number: int
    const attrs: Option<Record>
    const strs: Option<StringsRecord>
    var functions: seq<GadgetFunction>

    constructor(name: string, number: int, attrs: Option<Record>, strs: Option<StringsRecord>)
      ensures View() == ConfigView(name, number, attrs, strs, [])
    {
      this.name := name;
      this.number := number;
      this.attrs := attrs;
      this.strs := strs;
      this.functions := [];
    }

    function View(): ConfigView
      reads this`functions
    {
      ConfigView(name, number, attrs, strs, functions)
    }

    /** `bind_fuction`: appends, keeping order and allowing duplicates. */
    method BindFunction(f: GadgetFunction)
      modifies this
      ensures functions == old(functions) + [f]
      ensures View().FullName() == old(View().FullName())
    {
      functions := functions + [f];
    }
  }

  /** The views of a list of configurations, in list order. */
  function ConfigViews(cs: seq<GadgetConfig>): (vs: seq<ConfigView>)
    reads cs`functions
    ensures |vs| == |cs| && forall i :: 0 <= i < |cs| ==> vs[i] == cs[i].View()
  {
    if cs == [] then [] else [cs[0].View()] + ConfigViews(cs[1..])
  }

  /** The truthiness test `if gadget.UDC:` — set and non-empty. */
  predicate Truthy(udc: Option<string>) {
    udc.Some? && udc.value != ""
  }

  /** A gadget as the projection engine sees it at one moment. */
  datatype GadgetView = GadgetView(
    name: string,
    attrs: Option<Record>,
    strs: Option<StringsRecord>,
    configs: seq<ConfigView>,
    functions: seq<GadgetFunction>,
    udc: Option<string>)

  // ---------------------------------------------------------------------
  // Reading a full identifier back

  /** The text before the first `sep` and the text after it (all of `s` and
      nothing when there is none). */
  function SplitAtFirst(s: string, sep: char): (string, string) {
    if s == [] then ("", "")
    else if s[0] == sep then ("", s[1..])
    else
      var (head, tail) := SplitAtFirst(s[1..], sep);
      ([s[0]] + head, tail)
  }

  /** The text before the last `sep` and the text after it. */
  function SplitAtLast(s: string, sep: char): (string, string) {
    if s == [] then ("", "")
    else if s[|s| - 1] == sep then (s[..|s| - 1], "")
    else
      var (head, tail) := SplitAtLast(s[..|s| - 1], sep);
      (head, tail + [s[|s| - 1]])
  }

  lemma {:induction false} SplitAtFirstOfJoin(a: string, b: string, sep: char)
    requires sep !in a
    ensures SplitAtFirst(a + [sep] + b, sep) == (a, b)
  {
    if a != [] {
      assert (a + [sep] + b)[0] == a[0] && a[0] != sep;
      assert (a + [sep] + b)[1..] == a[1..] + [sep] + b;
      SplitAtFirstOfJoin(a[1..], b, sep);
      assert [a[0]] + a[1..] == a;
    } else {
      assert (a + [sep] + b)[1..] == b;
    }
  }

  lemma {:induction false} SplitAtLastOfJoin(a: string, b: string, sep: char)
    requires sep !in b
    ensures SplitAtLast(a + [sep] + b, sep) == (a, b)
  {
    var s := a + [sep] + b;
    if b == [] {
      assert s[..|s| - 1] == a;
    } else {
      assert s[..|s| - 1] == a + [sep] + b[..|b| - 1];
      SplitAtLastOfJoin(a, b[..|b| - 1], sep);
      assert b[..|b| - 1] + [b[|b| - 1]] == b;
    }
  }

  /** A function's full identifier splits back into its type name and
      instance name when the type name holds no '.'. */
  lemma FunctionFullNameRoundTrip(f: GadgetFunction)
    requires '.' !in f.name
    ensures SplitAtFirst(f.FullName(), '.') == (f.name, f.instanceName)
  {
    SplitAtFirstOfJoin(f.name, f.instanceName, '.');
  }

  /** A configuration's full identifier always splits back, at its last '.',
      into the name and the decimal text of the number. */
  lemma ConfigFullNameRoundTrip(name: string, number: int)
    ensures var (n, digits) := SplitAtLast(ConfigFullName(name, number), '.');
      n == name && ParseDecimal(digits) == (true, number)
  {
    DecimalRoundTrip(number);
    var d := DecimalText(number);
    assert forall k :: 0 <= k < |d| ==> d[k] != '.';
    assert '.' !in d;
    SplitAtLastOfJoin(name, d, '.');
  }
}
