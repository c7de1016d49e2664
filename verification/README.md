# Schema extraction of the Model Tools Protocol Go SDK, in Dafny

This project models the part of the Go SDK that turns a cobra command tree
into a Model Tools Protocol (MTP) tool schema, and proves properties of that
model. The modelled behaviour is:

- **Flags.** Each flag of a command becomes a `--name` argument. Its type
  tag comes from the pflag value kind. A caller's `ArgTypes` entry overrides
  the tag, and a non-empty `values` annotation overrides both and forces
  `enum`. The cobra required-flag annotation marks the argument required. A
  zero-valued default is dropped. The `help`, `mtp-describe` and `version`
  flags are never emitted, and neither are hidden flags.
- **Positional arguments.** They are read from the `Use` string: the first
  word is the command, `<x>` is a required string argument, `[x]` an
  optional one, and any other word is ignored. `strings.Trim` strips every
  surrounding bracket of the token's kind, so `<<a>>` gives `a`.
- **One command.** A descriptor gets its description from the trimmed
  `Short`, or from the trimmed `Long` when that is blank. A caller's
  annotation replaces whole fields: a non-empty `Args` list replaces the
  parsed positional arguments, and the I/O, examples and auth fields come
  only from an annotation.
- **The walk.** Only leaves are emitted, in child order. Hidden, `help` and
  `completion` children are skipped with their whole subtree. A leaf is
  named by its space-joined path, or `_root` when the path is empty.
- **The top level.** `Describe` assembles the schema with spec version
  `2026-02-07`. `EnumValues` sets one flag's `values` annotation in place.

Files:

- `wrappers.dfy`: `Option`.
- `gostrings.dfy`: the parts of Go's `strings.Fields`, `strings.Trim`,
  `strings.TrimSpace` and `unicode.IsSpace` that the code uses, over `seq<char>`.
- `types.dfy`: the schema records and the caller's options (types.go).
- `cobra.dfy`: the command and flag tree the extraction reads.
- `introspect.dfy`: introspect.go.
- `introspect_properties.dfy`: lemmas about it.
- `mtp.dfy`: `Describe` and `EnumValues` (mtp.go).

Each loop of the Go code is a method proved equal to a recursive
specification function: `ExtractFlags`, `ParseUseArgs`, `VisibleSubcommands`
and `WalkCommands`, which is also recursive. The lemmas state what those
functions promise. `EnumValues` mutates a flag in place. It is a
module-level method that takes a `FlagSet` object and reassigns that
object's `flags` field.

Three properties one might expect of the schema do not hold in the code,
and the model follows the code:

- Command names in the flattened list are not necessarily unique: two
  visible sibling leaves with the same name give two descriptors with that
  name (`DuplicateSiblingNames`).
- Positional argument names are not checked for clashes (`DuplicateArgNames`).
- An `enum` type does not imply a non-empty value list: an `ArgTypes`
  override of `"enum"` without a `values` annotation gives an enum argument
  with no values (`EnumOverrideWithoutValues`).

## Model

| member | source | states |
|---|---|---|
| Introspect.TypeTag | introspect.go:11-25 | the tag is `boolean` exactly for `bool`, `integer` exactly for the ten int/uint widths, `number` exactly for the two float kinds, `array` exactly for the four slice/array kinds, and `string` otherwise |
| Introspect.FlagDefault | introspect.go:29-53 | a bool flag's default is `true` exactly when its text is `"true"`, otherwise none; numeric kinds have no default exactly for `""` or `"0"`, other kinds exactly for `""` or `"[]"`; any default kept is the raw text, unchanged and non-empty |
| Introspect.FlagArg | introspect.go:71-97 | the argument is named `"--"+name` with the usage as description; it is required exactly when the required annotation is present and non-empty; its type is `enum` with the values when those are non-empty, else the `ArgTypes` override when present, else the kind's tag |
| Introspect.FlagArgs | introspect.go:63-102 | at most one argument per flag |
| Introspect.BuildFlagArg | introspect.go:71-99 | building an argument step by step, as the enumeration callback does, gives `FlagArg` |
| Introspect.ExtractFlags | introspect.go:63-102 | the loop over the flags in enumeration order returns `FlagArgs` of the command's flags |
| IntrospectProperties.FlagArgsAppend | introspect.go:66-100 | enumeration order is kept: the arguments of two runs of flags concatenate |
| IntrospectProperties.FlagArgsSound | introspect.go:66-99 | every argument is `FlagArg` of some flag that is neither hidden nor reserved |
| IntrospectProperties.FlagArgsComplete | introspect.go:66-99 | every flag that is neither hidden nor reserved yields its argument |
| IntrospectProperties.NoReservedFlagArgs | introspect.go:56-69 | no argument is named `--help`, `--mtp-describe` or `--version`, whatever the annotation |
| IntrospectProperties.HiddenFlagIgnored | introspect.go:67-69 | removing a hidden or reserved flag from anywhere in the list leaves the arguments unchanged |
| IntrospectProperties.EnumOverrideWithoutValues | introspect.go:71-97 | an `ArgTypes` override of `"enum"` with no values gives an `enum` argument whose value list is empty |
| GoStrings.Fields | introspect.go:108 | every field is non-empty and holds no white space |
| GoStrings.TrimSurrounded | introspect.go:116 | trimming a name that neither starts nor ends with a cutset character, wrapped in any runs of cutset characters, gives the name back |
| GoStrings.Trim | introspect.go:116 | the result is no longer than the input and neither starts nor ends with a cutset character |
| GoStrings.TrimKeepsSlice | introspect.go:116 | what `Trim` keeps is a contiguous slice of the input, and every character dropped before or after it is in the cutset |
| GoStrings.TrimSpace | introspect.go:135-138 | the result neither starts nor ends with white space; being `Trim` with the white-space cutset, it is also a slice of the input with only white space dropped around it (`TrimKeepsSlice`) |
| Introspect.UseToken | introspect.go:114-128 | a token yields an argument exactly when it has the `<x>` or `[x]` form, required exactly for `<x>`; the argument is a string with no description, default or values, whose name is at least two characters shorter than the token and neither starts nor ends with a bracket of the token's kind |
| IntrospectProperties.UseTokenName | introspect.go:114-128 | the argument's name is a contiguous slice of the token, and everything around it is brackets of the token's kind |
| Introspect.TokenArgs | introspect.go:113-129 | at most one argument per token |
| Introspect.ParseUseArgs | introspect.go:107-131 | the loop returns `UseArgs` of the usage string: nothing when there is at most one word, and at most one argument per word after the first |
| IntrospectProperties.TokenArgsAppend | introspect.go:113-129 | token order is kept: the arguments of two runs of tokens concatenate |
| IntrospectProperties.TokenArgsSound | introspect.go:113-129 | every positional argument is `UseToken` of one of the tokens |
| IntrospectProperties.TokenArgsComplete | introspect.go:113-129 | every bracketed token yields its argument |
| IntrospectProperties.UseArgsFromTokens | introspect.go:107-131 | a usage string of at most one word has no arguments; otherwise every argument comes from a bracketed word after the first, every such word yields its argument, and there is at most one per word after the first |
| IntrospectProperties.AngleToken | introspect.go:115-121 | `<name>` is the required string argument `name` |
| IntrospectProperties.SquareToken | introspect.go:122-127 | `[name]` is the optional string argument `name` |
| IntrospectProperties.AngleRuns | introspect.go:115-121 | any run of angle brackets starting with `<`, a name with no angle bracket at either end, and any run ending with `>` give the required string argument of exactly that name |
| IntrospectProperties.SquareRuns | introspect.go:122-127 | any run of square brackets starting with `[`, a name with no square bracket at either end, and any run ending with `]` give the optional string argument of exactly that name |
| IntrospectProperties.NestedBrackets | introspect.go:116 | `<<name>>` gives the same argument as `<name>`: every surrounding bracket goes |
| IntrospectProperties.EmptyBrackets | introspect.go:116 | `<>` is a required argument with the empty name |
| IntrospectProperties.ThreeFields | introspect.go:108 | three words separated by single spaces split into exactly those three words |
| IntrospectProperties.RequiredThenOptional | introspect.go:107-131 | a usage string shaped like `convert <input> [output]` gives a required `input` followed by an optional `output` |
| IntrospectProperties.DuplicateArgNames | introspect.go:113-129 | two identical `<x>` tokens give two arguments named `x` |
| Introspect.Description | introspect.go:135-138 | the result is the trimmed `Short` when that is non-blank, else the trimmed `Long`, and has no surrounding white space |
| Introspect.PickDescription | introspect.go:135-138 | trimming `Short` and falling back to the trimmed `Long` gives `Description` |
| Introspect.ExtractCommand | introspect.go:134-164 | building the descriptor field by field gives `Assemble` of the command, name and annotation |
| IntrospectProperties.AssembleFields | introspect.go:140-161 | the descriptor has the given name and `Description`; its arguments are the annotation's when it lists any, else the usage string's, followed by the flag arguments; I/O, examples and auth are the annotation's when there is one and absent otherwise |
| IntrospectProperties.AnnotatedArgsIgnoreUse | introspect.go:145-150 | when the annotation lists arguments, changing the usage string changes nothing |
| Introspect.Visible | introspect.go:203-212 | every visible child is a child, and there are no more of them than children |
| Introspect.VisibleSubcommands | introspect.go:203-212 | the loop returns `Visible` of the children |
| IntrospectProperties.VisibleMembers | introspect.go:205-209 | a command is among the visible children exactly when it is a child, not hidden, and not named `help` or `completion` |
| IntrospectProperties.VisibleAppend | introspect.go:205-210 | child order is kept: the visible children of two runs concatenate |
| IntrospectProperties.VisibleSkipsInvisible | introspect.go:205-208 | dropping a hidden, `help` or `completion` child leaves the visible children unchanged |
| Introspect.WalkCommands | introspect.go:173-200 | the recursive walk returns `Walk` of the command and prefix |
| IntrospectProperties.WalkIsLeaves | introspect.go:173-200 | the walk's output is exactly the descriptors of `Leaves`, in the same order: each leaf `Assemble`d under its leaf name with the annotation stored for that name |
| IntrospectProperties.LeavesSound | introspect.go:177-196 | every listed leaf is reached from the command through visible children only, under the path that joins their names |
| IntrospectProperties.LeavesComplete | introspect.go:177-196 | every node reached through visible children that has no visible child is listed, with its path |
| IntrospectProperties.LeafAtIsLeaf | introspect.go:177-188 | a node the walk reaches is a leaf: it has no visible child, so groups are never described themselves |
| IntrospectProperties.LeafAtPath | introspect.go:191-196 | below a non-empty path, a reached leaf's path is that path or that path, a space and more |
| IntrospectProperties.LeavesNonEmpty | introspect.go:176-199 | every command has at least one leaf |
| IntrospectProperties.WalkCount | introspect.go:176-199 | the walk emits exactly one descriptor per leaf of `Leaves`, and at least one |
| IntrospectProperties.WalkDescribesLeaves | introspect.go:177-196 | the walk has one descriptor per listed leaf; the i-th is reached through visible children, has no visible child, and is described by `Assemble` under its leaf name with the annotation stored for that name |
| IntrospectProperties.WalkCoversLeaves | introspect.go:177-196 | every leaf reached through visible children appears in the walk, `Assemble`d under its leaf name with the annotation stored for that name |
| IntrospectProperties.LeafWalk | introspect.go:177-188 | a node with no visible child gives one descriptor, named by the prefix or `_root` for the empty prefix, with the annotation looked up by that name |
| IntrospectProperties.WalkNamesExtendPrefix | introspect.go:191-196 | below a non-empty path, every descriptor's name is that path, or that path followed by a space and more |
| IntrospectProperties.InvisibleChildIgnored | introspect.go:205-208 | removing a hidden, `help` or `completion` child, and so its whole subtree, leaves the walk's output unchanged |
| IntrospectProperties.OnlyChild | introspect.go:191-197 | a group with one visible child describes exactly that child's subtree, under the extended path |
| IntrospectProperties.NestedGroupName | introspect.go:191-196 | a root holding a group holding a leaf gives one command named `group leaf` |
| IntrospectProperties.DuplicateSiblingNames | introspect.go:191-197 | two visible sibling leaves with the same name give two descriptors with that same name |
| Mtp.Describe | mtp.go:18-37 | the schema carries version `2026-02-07`, the root's name and version, `Description` of the root, `Walk` from the empty prefix (at least one command), and the options' auth exactly when options and their auth are present; every field is fixed by the inputs |
| Mtp.SingleCommandTool | mtp.go:29 | a tool with no visible subcommand is described as the one command `_root`, with the root's description |
| Mtp.Lookup | mtp.go:100-103 | the found position holds a flag of that name and no earlier flag has it; nothing is found exactly when no flag has the name |
| Mtp.WithValues | mtp.go:104-107 | the flag keeps every field and every other annotation key, and its `values` annotation is exactly the given list |
| Mtp.WithEnumValues | mtp.go:99-108 | an unknown name changes nothing; otherwise only the found flag changes, by `WithValues` |
| Mtp.EnumValues | mtp.go:99-108 | the flag set afterwards is `WithEnumValues` of the flag set before |
| Mtp.LookupAfterEnumValues | mtp.go:100-107 | setting values does not move any flag or change what a name finds |
| Mtp.EnumValuesIdempotent | mtp.go:104-107 | setting the same values twice equals setting them once |
| Mtp.EnumValuesTakeEffect | introspect.go:94-97 | after setting a non-empty list on an emitted flag, its arguments include one named `--name` of type `enum` with exactly that list |
| Mtp.EmptyValuesClearEnum | introspect.go:94-97 | after setting an empty list, the flag's type falls back to the override or the kind's tag, with no values |

## Left out

- `WithDescribe` (mtp.go:39-92) is not part of this model. It registers a flag, chains cobra's pre-run hooks, writes JSON to standard output and exits the process.
- JSON encoding is not modelled: field names, `omitempty`, and the difference between a nil and an empty slice in the output.
- Cobra and pflag internals are inputs, not behaviour. A command's name (`Name()`, derived from `Use`), the order of `Commands()` including the help and completion commands cobra adds, and the flag enumeration order of `VisitAll` are all given.
- Mtp.Lookup: pflag finds a flag through a map keyed by unique names; the model takes the first flag with the name, which is the same when names are unique.
- Mtp.EnumValues: a nil annotation map and an empty one read the same, so the allocation of a fresh map is not visible. The flag is updated inside the flag set that holds it. Another flag set sharing the same `*pflag.Flag` (such as an inherited persistent flag) is not modelled.
- Types.Default covers what flag extraction produces: none, `true`, or text. A caller's positional argument with a default of any other Go type cannot be represented.
- `IODescriptor.Schema` is an opaque handle that is passed through unchanged; its JSON content is not modelled.
- Strings are sequences of Unicode code points, not UTF-8 bytes. Invalid UTF-8 in a usage string or description is not modelled.
- GoStrings.Fields: its own contract says only that fields are non-empty and free of white space. How fields are split is stated by the lemmas `FieldsSkipsSpace`, `FieldsToken` and `ThreeFields`, not as a complete characterisation.
