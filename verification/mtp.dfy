/**
 * The top level of the SDK: building the whole tool schema from a command
 * tree, and attaching allowed values to a flag so that the schema reports it
 * as an enum.
 */
module Mtp {
  import opened Wrappers
  import opened Types
  import opened Cobra
  import opened Introspect
  import IntrospectProperties

  /** The version of the protocol specification the schema follows. */
  const SpecVersion := "2026-02-07"

  // ---------------------------------------------------------------------
  // Describe
  // ---------------------------------------------------------------------

  /**
   * The schema of a tool. Every field is fixed by the inputs, so equal
   * inputs give equal schemas, and nothing else is touched.
   */
  method Describe(root: Command, opts: Option<DescribeOptions>) returns (schema: ToolSchema)
    ensures schema.specVersion == SpecVersion
    ensures schema.name == root.name && schema.version == root.version
    ensures schema.description == Description(root.short, root.long)
    ensures schema.commands == Walk(root, "", opts)
    ensures |schema.commands| >= 1
    ensures opts.Some? && opts.value.auth.Some? ==> schema.auth == opts.value.auth
    ensures !(opts.Some? && opts.value.auth.Some?) ==> schema.auth.None?
  {
    var desc := PickDescription(root.short, root.long);
    var commands := WalkCommands(root, "", opts);
    IntrospectProperties.WalkCount(root, "", opts);
    schema := ToolSchema(SpecVersion, root.name, root.version, desc, commands, None);
    if opts.Some? && opts.value.auth.Some? {
      schema := schema.(auth := opts.value.auth);
    }
  }

  /** A tool without visible subcommands is described as the single command `_root`. */
  lemma {:induction false} SingleCommandTool(root: Command, opts: Option<DescribeOptions>)
    requires Visible(root.children) == []
    ensures |Walk(root, "", opts)| == 1 && Walk(root, "", opts)[0].name == RootName
    ensures Walk(root, "", opts)[0].description == Description(root.short, root.long)
  {
    IntrospectProperties.LeafWalk(root, "", opts);
    IntrospectProperties.AssembleFields(root, RootName, AnnotationFor(opts, RootName));
  }

  // ---------------------------------------------------------------------
  // EnumValues
  // ---------------------------------------------------------------------

  /** The flags a command defines, updated in place by `EnumValues`. */
  class FlagSet {
    var flags: seq<Flag>

    constructor (flags: seq<Flag>)
      ensures this.flags == flags
    {
      this.flags := flags;
    }
  }

  /** The position of the flag with the given name: the first one, if any. */
  function Lookup(flags: seq<Flag>, name: string): (r: Option<nat>)
    ensures r.Some? ==> r.value < |flags| && flags[r.value].name == name
    ensures r.Some? ==> forall k :: 0 <= k < r.value ==> flags[k].name != name
    ensures r.None? ==> forall k :: 0 <= k < |flags| ==> flags[k].name != name
  {
    if flags == [] then None
    else if flags[0].name == name then Some(0)
    else
      match Lookup(flags[1..], name)
      case None => None
      case Some(i) => Some(i + 1)
  }

  /** A flag whose `values` annotation is set to `values`, every other key kept. */
  function WithValues(f: Flag, values: seq<string>): (g: Flag)
    ensures g.name == f.name && g.kind == f.kind && g.defValue == f.defValue
    ensures g.usage == f.usage && g.hidden == f.hidden
    ensures g.annotations.Keys == f.annotations.Keys + {ValuesAnnotation}
    ensures g.annotations[ValuesAnnotation] == values
    ensures forall key :: key in f.annotations && key != ValuesAnnotation ==>
      g.annotations[key] == f.annotations[key]
  {
    f.(annotations := f.annotations[ValuesAnnotation := values])
  }

  /** The flags after `EnumValues`: the named flag gets the values, nothing else changes. */
  function WithEnumValues(flags: seq<Flag>, name: string, values: seq<string>): (r: seq<Flag>)
    ensures |r| == |flags|
    ensures Lookup(flags, name).None? ==> r == flags
    ensures Lookup(flags, name).Some? ==>
      var i := Lookup(flags, name).value;
      && r[i] == WithValues(flags[i], values)
      && forall k :: 0 <= k < |flags| && k != i ==> r[k] == flags[k]
  {
    match Lookup(flags, name)
    case None => flags
    case Some(i) => flags[i := WithValues(flags[i], values)]
  }

  /**
   * Sets the allowed values of the named flag. An unknown name changes
   * nothing; a flag without annotations gets a fresh map holding just them.
   */
  method EnumValues(fs: FlagSet, flagName: string, values: seq<string>)
    modifies fs
    ensures fs.flags == WithEnumValues(old(fs.flags), flagName, values)
  {
    var found := Lookup(fs.flags, flagName);
    if found.None? {
      return;
    }
    var i := found.value;
    var f := fs.flags[i];
    f := f.(annotations := f.annotations[ValuesAnnotation := values]);
    fs.flags := fs.flags[i := f];
  }

  /** Setting the values only changes annotations, so the flag is still found at the same place. */
  lemma {:induction false} LookupAfterEnumValues(flags: seq<Flag>, name: string, values: seq<string>, other: string)
    ensures Lookup(WithEnumValues(flags, name, values), other) == Lookup(flags, other)
  {
    var r := WithEnumValues(flags, name, values);
    assert forall k :: 0 <= k < |flags| ==> r[k].name == flags[k].name;
    LookupByNames(r, flags, other);
  }

  /** `Lookup` only looks at names. */
  lemma {:induction false} LookupByNames(xs: seq<Flag>, ys: seq<Flag>, name: string)
    requires |xs| == |ys| && forall k :: 0 <= k < |xs| ==> xs[k].name == ys[k].name
    ensures Lookup(xs, name) == Lookup(ys, name)
    decreases |xs|
  {
    if xs != [] && xs[0].name != name {
      LookupByNames(xs[1..], ys[1..], name);
    }
  }

  /** Setting the same values twice is the same as setting them once. */
  lemma {:induction false} EnumValuesIdempotent(flags: seq<Flag>, name: string, values: seq<string>)
    ensures WithEnumValues(WithEnumValues(flags, name, values), name, values) == WithEnumValues(flags, name, values)
  {
    var once := WithEnumValues(flags, name, values);
    LookupAfterEnumValues(flags, name, values, name);
    if Lookup(flags, name).Some? {
      var i := Lookup(flags, name).value;
      assert WithValues(once[i], values) == once[i];
    }
  }

  /**
   * After `EnumValues` with a non-empty list, an emitted flag is described as
   * an enum with exactly those values, whatever its kind or type override.
   */
  lemma {:induction false} EnumValuesTakeEffect(flags: seq<Flag>, name: string, values: seq<string>, ann: Option<CommandAnnotation>)
    requires Lookup(flags, name).Some? && Emitted(flags[Lookup(flags, name).value])
    requires values != []
    ensures exists a :: (a in FlagArgs(WithEnumValues(flags, name, values), ann)
                         && a.name == "--" + name && a.argType == "enum" && a.values == values)
  {
    var r := WithEnumValues(flags, name, values);
    var i := Lookup(flags, name).value;
    assert EnumValuesOf(r[i]) == values;
    IntrospectProperties.FlagArgsComplete(r, ann);
    var a := FlagArg(r[i], ann);
    assert r[i] in r;
    assert a in FlagArgs(r, ann);
  }

  /** An empty list clears the enum: the flag falls back to its override or its kind's tag. */
  lemma {:induction false} EmptyValuesClearEnum(f: Flag, ann: Option<CommandAnnotation>)
    ensures FlagArg(WithValues(f, []), ann).argType ==
      if TypeOverride(f, ann).Some? then TypeOverride(f, ann).value else TypeTag(f.kind)
    ensures FlagArg(WithValues(f, []), ann).values == []
  {
    assert EnumValuesOf(WithValues(f, [])) == [];
    assert TypeOverride(WithValues(f, []), ann) == TypeOverride(f, ann);
  }
}
