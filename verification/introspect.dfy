/**
 * Schema extraction from a command tree: flag typing and default
 * suppression, positional arguments read from the usage string, per-command
 * assembly with caller annotations, and the walk that flattens the tree into
 * one descriptor per visible leaf command.
 *
 * Each loop of the Go code becomes a method proved equal to a recursive
 * specification function; the lemmas state what those functions promise.
 */
module Introspect {
  import opened Wrappers
  import opened GoStrings
  import opened Types
  import opened Cobra

  // ---------------------------------------------------------------------
  // Flag type tags and defaults
  // ---------------------------------------------------------------------

  const IntegerKinds: set<string> :=
    {"int", "int8", "int16", "int32", "int64", "uint", "uint8", "uint16", "uint32", "uint64"}
  const FloatKinds: set<string> := {"float32", "float64"}
  const ArrayKinds: set<string> := {"stringSlice", "intSlice", "stringArray", "uintSlice"}

  /** The schema type tag of a pflag value kind. */
  function TypeTag(kind: string): (tag: string)
    ensures tag in {"boolean", "integer", "number", "array", "string"}
    ensures tag == "boolean" <==> kind == "bool"
    ensures tag == "integer" <==> kind in IntegerKinds
    ensures tag == "number" <==> kind in FloatKinds
    ensures tag == "array" <==> kind in ArrayKinds
  {
    if kind == "bool" then "boolean"
    else if kind in IntegerKinds then "integer"
    else if kind in FloatKinds then "number"
    else if kind in ArrayKinds then "array"
    else "string"
  }

  /**
   * The default a flag shows in the schema: nothing when its textual default
   * is the zero value of its kind.
   */
  function FlagDefault(kind: string, defValue: string): (d: Default)
    ensures kind == "bool" ==> (d == BoolTrue <==> defValue == "true") && (d == BoolTrue || d == NoDefault)
    ensures kind in IntegerKinds + FloatKinds ==>
      (d == NoDefault <==> defValue in {"", "0"}) && (d != NoDefault ==> d == Text(defValue))
    ensures kind != "bool" && kind !in IntegerKinds + FloatKinds ==>
      (d == NoDefault <==> defValue in {"", "[]"}) && (d != NoDefault ==> d == Text(defValue))
    ensures d.Text? ==> d.text == defValue && d.text != ""
  {
    if kind == "bool" then
      if defValue == "true" then BoolTrue else NoDefault
    else if kind in IntegerKinds || kind in FloatKinds then
      if defValue == "" || defValue == "0" then NoDefault else Text(defValue)
    else
      if defValue == "" || defValue == "[]" then NoDefault else Text(defValue)
  }

  // ---------------------------------------------------------------------
  // Flag enumeration
  // ---------------------------------------------------------------------

  /** Flags that never appear in the schema. */
  const SkippedFlags: set<string> := {"help", "mtp-describe", "version"}

  /** The annotation key under which cobra marks a flag as required. */
  const RequiredAnnotation := "cobra_annotation_bash_completion_one_required_flag"

  /** The annotation key under which `EnumValues` stores a flag's allowed values. */
  const ValuesAnnotation := "values"

  /** A flag that the enumeration turns into an argument. */
  predicate Emitted(f: Flag) {
    f.name !in SkippedFlags && !f.hidden
  }

  /** The required marker is present and non-empty. */
  predicate IsRequired(f: Flag) {
    RequiredAnnotation in f.annotations && |f.annotations[RequiredAnnotation]| > 0
  }

  /** The allowed values attached to a flag; empty when there are none. */
  function EnumValuesOf(f: Flag): seq<string> {
    if ValuesAnnotation in f.annotations then f.annotations[ValuesAnnotation] else []
  }

  /** The caller's type override for a flag, if the annotation has one. */
  function TypeOverride(f: Flag, ann: Option<CommandAnnotation>): Option<string> {
    if ann.Some? && f.name in ann.value.argTypes then Some(ann.value.argTypes[f.name]) else None
  }

  /**
   * The argument a flag becomes. Its type is decided by precedence: a
   * non-empty enum annotation first, then the caller's override, then the
   * tag of the flag's kind.
   */
  function FlagArg(f: Flag, ann: Option<CommandAnnotation>): (a: ArgDescriptor)
    ensures a.name == "--" + f.name && a.description == f.usage
    ensures a.required <==> IsRequired(f)
    ensures a.default == FlagDefault(f.kind, f.defValue)
    ensures EnumValuesOf(f) != [] ==> a.argType == "enum" && a.values == EnumValuesOf(f)
    ensures EnumValuesOf(f) == [] && TypeOverride(f, ann).Some? ==>
      a.argType == TypeOverride(f, ann).value && a.values == []
    ensures EnumValuesOf(f) == [] && TypeOverride(f, ann).None? ==>
      a.argType == TypeTag(f.kind) && a.values == []
  {
    var vals := EnumValuesOf(f);
    var typ :=
      if vals != [] then "enum"
      else if TypeOverride(f, ann).Some? then TypeOverride(f, ann).value
      else TypeTag(f.kind);
    ArgDescriptor("--" + f.name, typ, f.usage, IsRequired(f), FlagDefault(f.kind, f.defValue), vals)
  }

  /** The arguments of the emitted flags, in enumeration order. */
  function FlagArgs(flags: seq<Flag>, ann: Option<CommandAnnotation>): (args: seq<ArgDescriptor>)
    ensures |args| <= |flags|
  {
    if flags == [] then []
    else
      var last := flags[|flags| - 1];
      FlagArgs(flags[..|flags| - 1], ann) + (if Emitted(last) then [FlagArg(last, ann)] else [])
  }

  /**
   * Builds the argument of one emitted flag as the enumeration callback
   * does: tag, override, mark required, set the default, force enum.
   */
  method BuildFlagArg(f: Flag, ann: Option<CommandAnnotation>) returns (arg: ArgDescriptor)
    ensures arg == FlagArg(f, ann)
  {
    var typ := TypeTag(f.kind);
    if ann.Some? && f.name in ann.value.argTypes {
      typ := ann.value.argTypes[f.name];
    }
    arg := ArgDescriptor("--" + f.name, typ, f.usage, false, NoDefault, []);
    if RequiredAnnotation in f.annotations && |f.annotations[RequiredAnnotation]| > 0 {
      arg := arg.(required := true);
    }
    var def := FlagDefault(f.kind, f.defValue);
    if def != NoDefault {
      arg := arg.(default := def);
    }
    if ValuesAnnotation in f.annotations && |f.annotations[ValuesAnnotation]| > 0 {
      arg := arg.(argType := "enum", values := f.annotations[ValuesAnnotation]);
    }
  }

  /** Collects the arguments of a command's flags, skipping reserved and hidden ones. */
  method ExtractFlags(cmd: Command, ann: Option<CommandAnnotation>) returns (args: seq<ArgDescriptor>)
    ensures args == FlagArgs(cmd.flags, ann)
  {
    args := [];
    for i := 0 to |cmd.flags|
      invariant args == FlagArgs(cmd.flags[..i], ann)
    {
      var f := cmd.flags[i];
      assert cmd.flags[..i + 1][..i] == cmd.flags[..i];
      if f.name in SkippedFlags || f.hidden {
        continue;
      }
      var arg := BuildFlagArg(f, ann);
      args := args + [arg];
    }
    assert cmd.flags[..|cmd.flags|] == cmd.flags;
  }

  // ---------------------------------------------------------------------
  // Positional arguments from the usage string
  // ---------------------------------------------------------------------

  /** The cutsets that strip the brackets off a usage token. */
  const AngleBrackets := Pair('<', '>')
  const SquareBrackets := Pair('[', ']')

  /** A token of the form `<name>`. */
  predicate IsAngle(part: string) {
    HasPrefix(part, "<") && HasSuffix(part, ">")
  }

  /** A token of the form `[name]`. */
  predicate IsSquare(part: string) {
    HasPrefix(part, "[") && HasSuffix(part, "]")
  }

  /**
   * The positional argument one usage token stands for: `<x>` a required
   * string, `[x]` an optional one, anything else none. The name is the token
   * with all surrounding bracket characters of its kind removed.
   */
  function UseToken(part: string): (r: Option<ArgDescriptor>)
    ensures r.Some? <==> IsAngle(part) || IsSquare(part)
    ensures r.Some? ==> r.value.required == IsAngle(part)
    ensures r.Some? ==>
      && r.value.argType == "string" && r.value.description == ""
      && r.value.default == NoDefault && r.value.values == []
    ensures r.Some? ==> |r.value.name| + 2 <= |part|
    ensures r.Some? && IsAngle(part) ==> Bare(r.value.name, AngleBrackets)
    ensures r.Some? && !IsAngle(part) ==> Bare(r.value.name, SquareBrackets)
  {
    if IsAngle(part) then
      assert part[..1] == "<" && part[|part| - 1..] == ">";
      assert part[0] == '<' && part[|part| - 1] == '>';
      TrimDropsEnds(part, AngleBrackets);
      Some(ArgDescriptor(Trim(part, AngleBrackets), "string", "", true, NoDefault, []))
    else if IsSquare(part) then
      assert part[..1] == "[" && part[|part| - 1..] == "]";
      assert part[0] == '[' && part[|part| - 1] == ']';
      TrimDropsEnds(part, SquareBrackets);
      Some(ArgDescriptor(Trim(part, SquareBrackets), "string", "", false, NoDefault, []))
    else
      None
  }

  /** The positional arguments of a list of usage tokens, in order. */
  function TokenArgs(parts: seq<string>): (args: seq<ArgDescriptor>)
    ensures |args| <= |parts|
  {
    if parts == [] then []
    else
      var last := UseToken(parts[|parts| - 1]);
      TokenArgs(parts[..|parts| - 1]) + (if last.Some? then [last.value] else [])
  }

  /** The positional arguments of a usage string; its first word is the command. */
  function UseArgs(use: string): seq<ArgDescriptor> {
    var parts := Fields(use);
    if |parts| <= 1 then [] else TokenArgs(parts[1..])
  }

  /** Reads positional arguments from a usage string, token by token. */
  method ParseUseArgs(use: string) returns (args: seq<ArgDescriptor>)
    ensures args == UseArgs(use)
    ensures |args| <= if |Fields(use)| <= 1 then 0 else |Fields(use)| - 1
  {
    var parts := Fields(use);
    if |parts| <= 1 {
      return [];
    }
    args := [];
    for i := 1 to |parts|
      invariant args == TokenArgs(parts[1..i])
    {
      var part := parts[i];
      assert parts[1..i + 1][..i - 1] == parts[1..i];
      if HasPrefix(part, "<") && HasSuffix(part, ">") {
        var name := Trim(part, AngleBrackets);
        args := args + [ArgDescriptor(name, "string", "", true, NoDefault, [])];
      } else if HasPrefix(part, "[") && HasSuffix(part, "]") {
        var name := Trim(part, SquareBrackets);
        args := args + [ArgDescriptor(name, "string", "", false, NoDefault, [])];
      }
    }
    assert parts[1..|parts|] == parts[1..];
  }

  // ---------------------------------------------------------------------
  // One command
  // ---------------------------------------------------------------------

  /** The trimmed short description, or the trimmed long one when that is blank. */
  function Description(short: string, long: string): (d: string)
    ensures d == [] || (!IsSpace(d[0]) && !IsSpace(d[|d| - 1]))
    ensures TrimSpace(short) != [] ==> d == TrimSpace(short)
    ensures TrimSpace(short) == [] ==> d == TrimSpace(long)
  {
    var desc := TrimSpace(short);
    if desc == "" then TrimSpace(long) else desc
  }

  /** Picks the description as the source does: trim the short text, fall back to the trimmed long one. */
  method PickDescription(short: string, long: string) returns (desc: string)
    ensures desc == Description(short, long)
  {
    desc := TrimSpace(short);
    if desc == "" {
      desc := TrimSpace(long);
    }
  }

  /** The positional arguments: the annotation's when it lists any, else the usage string's. */
  function Positional(cmd: Command, ann: Option<CommandAnnotation>): seq<ArgDescriptor> {
    if ann.Some? && |ann.value.args| > 0 then ann.value.args else UseArgs(cmd.use)
  }

  /** The descriptor of one command under the given name and annotation. */
  function Assemble(cmd: Command, name: string, ann: Option<CommandAnnotation>): CommandDescriptor {
    CommandDescriptor(
      name,
      Description(cmd.short, cmd.long),
      Positional(cmd, ann) + FlagArgs(cmd.flags, ann),
      if ann.Some? then ann.value.stdin else None,
      if ann.Some? then ann.value.stdout else None,
      if ann.Some? then ann.value.examples else [],
      if ann.Some? then ann.value.auth else None)
  }

  /** Builds the descriptor of one command field by field. */
  method ExtractCommand(cmd: Command, name: string, ann: Option<CommandAnnotation>) returns (cd: CommandDescriptor)
    ensures cd == Assemble(cmd, name, ann)
  {
    var desc := PickDescription(cmd.short, cmd.long);
    var positional: seq<ArgDescriptor>;
    if ann.Some? && |ann.value.args| > 0 {
      positional := ann.value.args;
    } else {
      positional := ParseUseArgs(cmd.use);
    }
    var flagArgs := ExtractFlags(cmd, ann);
    cd := CommandDescriptor(name, desc, positional + flagArgs, None, None, [], None);
    if ann.Some? {
      cd := cd.(stdin := ann.value.stdin, stdout := ann.value.stdout,
                examples := ann.value.examples, auth := ann.value.auth);
    }
  }

  // ---------------------------------------------------------------------
  // The tree walk
  // ---------------------------------------------------------------------

  /** Commands cobra adds on its own, never described. */
  const SkippedCommands: set<string> := {"help", "completion"}

  /** The name of a leaf whose path is empty: the single-command tool itself. */
  const RootName := "_root"

  predicate IsVisible(c: Command) {
    !c.hidden && c.name !in SkippedCommands
  }

  /** The visible children, in order. */
  function Visible(cs: seq<Command>): (r: seq<Command>)
    ensures |r| <= |cs|
    ensures forall x :: x in r ==> x in cs
  {
    if cs == [] then []
    else
      var last := cs[|cs| - 1];
      assert cs == cs[..|cs| - 1] + [last];
      Visible(cs[..|cs| - 1]) + (if IsVisible(last) then [last] else [])
  }

  /** Collects the visible children of a command. */
  method VisibleSubcommands(cmd: Command) returns (visible: seq<Command>)
    ensures visible == Visible(cmd.children)
  {
    visible := [];
    for i := 0 to |cmd.children|
      invariant visible == Visible(cmd.children[..i])
    {
      var sub := cmd.children[i];
      assert cmd.children[..i + 1][..i] == cmd.children[..i];
      if sub.hidden || sub.name in SkippedCommands {
        continue;
      }
      visible := visible + [sub];
    }
    assert cmd.children[..|cmd.children|] == cmd.children;
  }

  /** The name a leaf is described under. */
  function LeafName(prefix: string): string {
    if prefix == "" then RootName else prefix
  }

  /** The path of a child: the parent's path and the child's name joined by one space. */
  function Path(prefix: string, name: string): string {
    if prefix == "" then name else prefix + " " + name
  }

  /** The caller's annotation for a command path, if any. */
  function AnnotationFor(opts: Option<DescribeOptions>, name: string): Option<CommandAnnotation> {
    if opts.Some? && name in opts.value.commands then Some(opts.value.commands[name]) else None
  }

  /**
   * The descriptors of the subtree at `c`, reached by `prefix`: one for `c`
   * when it has no visible child, otherwise those of its visible children.
   */
  function Walk(c: Command, prefix: string, opts: Option<DescribeOptions>): seq<CommandDescriptor>
    decreases c, 1, 0
  {
    var vis := Visible(c.children);
    if vis == [] then
      [Assemble(c, LeafName(prefix), AnnotationFor(opts, LeafName(prefix)))]
    else
      WalkEach(c, vis, prefix, opts)
  }

  /** The descriptors of the subtrees at `vis`, children of `parent`, concatenated in order. */
  function WalkEach(parent: Command, vis: seq<Command>, prefix: string, opts: Option<DescribeOptions>): seq<CommandDescriptor>
    requires forall x :: x in vis ==> x in parent.children
    decreases parent, 0, |vis|
  {
    if vis == [] then []
    else
      var last := vis[|vis| - 1];
      assert forall x :: x in vis[..|vis| - 1] ==> x in vis;
      assert last in parent.children;
      WalkEach(parent, vis[..|vis| - 1], prefix, opts) + Walk(last, Path(prefix, last.name), opts)
  }

  /** Extracts the descriptors of a subtree, recursing into visible children. */
  method WalkCommands(cmd: Command, prefix: string, opts: Option<DescribeOptions>) returns (commands: seq<CommandDescriptor>)
    ensures commands == Walk(cmd, prefix, opts)
    decreases cmd
  {
    var visible := VisibleSubcommands(cmd);
    if |visible| == 0 {
      var name := prefix;
      if name == "" {
        name := RootName;
      }
      var ann: Option<CommandAnnotation> := None;
      if opts.Some? && name in opts.value.commands {
        ann := Some(opts.value.commands[name]);
      }
      var cd := ExtractCommand(cmd, name, ann);
      commands := [cd];
      return;
    }
    commands := [];
    for i := 0 to |visible|
      invariant commands == WalkEach(cmd, visible[..i], prefix, opts)
    {
      var sub := visible[i];
      assert sub in cmd.children;
      assert visible[..i + 1][..i] == visible[..i];
      var subName := sub.name;
      if prefix != "" {
        subName := prefix + " " + sub.name;
      }
      var subCommands := WalkCommands(sub, subName, opts);
      commands := commands + subCommands;
    }
    assert visible[..|visible|] == visible;
  }
}
