/**
 * Properties of the extraction: which flags and tokens become arguments and
 * in what order, how many descriptors the walk emits and for which nodes,
 * how they are named, and that hidden or reserved subtrees do not matter.
 */
module IntrospectProperties {
  import opened Wrappers
  import opened GoStrings
  import opened Types
  import opened Cobra
  import opened Introspect

  // ---------------------------------------------------------------------
  // Flags
  // ---------------------------------------------------------------------

  /** Enumeration order is kept: the arguments of two runs of flags concatenate. */
  lemma {:induction false} FlagArgsAppend(xs: seq<Flag>, ys: seq<Flag>, ann: Option<CommandAnnotation>)
    ensures FlagArgs(xs + ys, ann) == FlagArgs(xs, ann) + FlagArgs(ys, ann)
    decreases |ys|
  {
    if ys == [] {
      assert xs + ys == xs;
    } else {
      var init := ys[..|ys| - 1];
      assert (xs + ys)[..|xs + ys| - 1] == xs + init;
      assert (xs + ys)[|xs + ys| - 1] == ys[|ys| - 1];
      FlagArgsAppend(xs, init, ann);
    }
  }

  /** Every argument comes from a flag that is neither hidden nor reserved. */
  lemma {:induction false} FlagArgsSound(flags: seq<Flag>, ann: Option<CommandAnnotation>)
    ensures forall a :: a in FlagArgs(flags, ann) ==>
      exists f :: f in flags && Emitted(f) && a == FlagArg(f, ann)
    decreases |flags|
  {
    if flags != [] {
      var init := flags[..|flags| - 1];
      FlagArgsSound(init, ann);
      assert forall f :: f in init ==> f in flags;
    }
  }

  /** Every flag that is neither hidden nor reserved yields its argument. */
  lemma {:induction false} FlagArgsComplete(flags: seq<Flag>, ann: Option<CommandAnnotation>)
    ensures forall f :: f in flags && Emitted(f) ==> FlagArg(f, ann) in FlagArgs(flags, ann)
    decreases |flags|
  {
    if flags != [] {
      var init := flags[..|flags| - 1];
      FlagArgsComplete(init, ann);
      assert flags == init + [flags[|flags| - 1]];
    }
  }

  /** The help, describe and version flags never appear, whatever the annotation. */
  lemma {:induction false} NoReservedFlagArgs(flags: seq<Flag>, ann: Option<CommandAnnotation>)
    ensures forall a :: a in FlagArgs(flags, ann) ==>
      a.name != "--help" && a.name != "--mtp-describe" && a.name != "--version"
  {
    FlagArgsSound(flags, ann);
    forall a | a in FlagArgs(flags, ann)
      ensures a.name != "--help" && a.name != "--mtp-describe" && a.name != "--version"
    {
      var f :| f in flags && Emitted(f) && a == FlagArg(f, ann);
      DashedName(f.name);
    }
  }

  /** The argument name of a flag that is not reserved is not a reserved argument name. */
  lemma {:induction false} DashedName(n: string)
    requires n !in SkippedFlags
    ensures "--" + n != "--help" && "--" + n != "--mtp-describe" && "--" + n != "--version"
  {
    assert "--help" == "--" + "help" && "--mtp-describe" == "--" + "mtp-describe" && "--version" == "--" + "version";
    forall m | "--" + n == "--" + m ensures n == m {
      assert ("--" + n)[2..] == n && ("--" + m)[2..] == m;
    }
  }

  /** A hidden flag contributes nothing: dropping it leaves the arguments unchanged. */
  lemma {:induction false} HiddenFlagIgnored(xs: seq<Flag>, f: Flag, ys: seq<Flag>, ann: Option<CommandAnnotation>)
    requires f.hidden || f.name in SkippedFlags
    ensures FlagArgs(xs + [f] + ys, ann) == FlagArgs(xs + ys, ann)
  {
    FlagArgsAppend(xs + [f], ys, ann);
    FlagArgsAppend(xs, [f], ann);
    FlagArgsAppend(xs, ys, ann);
    assert [f][..0] == [];
  }

  /**
   * A type override of "enum" without a values annotation gives an enum
   * argument with no values: nothing ties the enum type to a non-empty list.
   */
  lemma {:induction false} EnumOverrideWithoutValues(f: Flag, ann: Option<CommandAnnotation>)
    requires EnumValuesOf(f) == [] && TypeOverride(f, ann) == Some("enum")
    ensures FlagArg(f, ann).argType == "enum" && FlagArg(f, ann).values == []
  {
  }

  // ---------------------------------------------------------------------
  // Positional arguments
  // ---------------------------------------------------------------------

  /** Token order is kept. */
  lemma {:induction false} TokenArgsAppend(xs: seq<string>, ys: seq<string>)
    ensures TokenArgs(xs + ys) == TokenArgs(xs) + TokenArgs(ys)
    decreases |ys|
  {
    if ys == [] {
      assert xs + ys == xs;
    } else {
      var init := ys[..|ys| - 1];
      assert (xs + ys)[..|xs + ys| - 1] == xs + init;
      assert (xs + ys)[|xs + ys| - 1] == ys[|ys| - 1];
      TokenArgsAppend(xs, init);
    }
  }

  /** Each positional argument comes from one bracketed token after the command word. */
  lemma {:induction false} TokenArgsSound(parts: seq<string>)
    ensures forall a :: a in TokenArgs(parts) ==>
      exists t :: t in parts && UseToken(t) == Some(a)
    decreases |parts|
  {
    if parts != [] {
      var init := parts[..|parts| - 1];
      TokenArgsSound(init);
      assert forall t :: t in init ==> t in parts;
    }
  }

  /** Each bracketed token yields its positional argument. */
  lemma {:induction false} TokenArgsComplete(parts: seq<string>)
    ensures forall t :: t in parts && UseToken(t).Some? ==> UseToken(t).value in TokenArgs(parts)
    decreases |parts|
  {
    if parts != [] {
      var init := parts[..|parts| - 1];
      TokenArgsComplete(init);
      assert parts == init + [parts[|parts| - 1]];
    }
  }

  /**
   * The positional arguments of a usage string are exactly the arguments of
   * its bracketed tokens after the first, and there are fewer of them than
   * tokens.
   */
  lemma {:induction false} UseArgsFromTokens(use: string)
    ensures |Fields(use)| <= 1 ==> UseArgs(use) == []
    ensures |Fields(use)| > 1 ==> |UseArgs(use)| <= |Fields(use)| - 1
    ensures forall a :: a in UseArgs(use) ==>
      exists t :: t in Fields(use)[1..] && UseToken(t) == Some(a)
    ensures |Fields(use)| > 1 ==>
      forall t :: t in Fields(use)[1..] && UseToken(t).Some? ==> UseToken(t).value in UseArgs(use)
  {
    if |Fields(use)| > 1 {
      TokenArgsSound(Fields(use)[1..]);
      TokenArgsComplete(Fields(use)[1..]);
    }
  }

  /**
   * The name of a bracketed token is the token with its leading and
   * trailing runs of brackets of that kind removed, and nothing else.
   */
  lemma {:induction false} UseTokenName(part: string)
    requires UseToken(part).Some?
    ensures IsAngle(part) ==> exists i :: KeptFrom(part, UseToken(part).value.name, i, AngleBrackets)
    ensures !IsAngle(part) ==> exists i :: KeptFrom(part, UseToken(part).value.name, i, SquareBrackets)
  {
    if IsAngle(part) {
      TrimKeepsSlice(part, AngleBrackets);
    } else {
      TrimKeepsSlice(part, SquareBrackets);
    }
  }

  /** `<name>` is the required string argument `name`. */
  lemma {:induction false} AngleToken(name: string)
    requires Bare(name, AngleBrackets)
    ensures UseToken("<" + name + ">") == Some(ArgDescriptor(name, "string", "", true, NoDefault, []))
  {
    var p := "<" + name + ">";
    assert p[..1] == "<" && p[|p| - 1..] == ">";
    TrimSurrounded("<", name, ">", AngleBrackets);
  }

  /** `[name]` is the optional string argument `name`. */
  lemma {:induction false} SquareToken(name: string)
    requires Bare(name, SquareBrackets)
    ensures UseToken("[" + name + "]") == Some(ArgDescriptor(name, "string", "", false, NoDefault, []))
  {
    var p := "[" + name + "]";
    assert p[..1] == "[" && p[|p| - 1..] == "]";
    assert !IsAngle(p);
    TrimSurrounded("[", name, "]", SquareBrackets);
  }

  /**
   * Every leading and trailing angle bracket goes: a name with no angle
   * bracket at either end, wrapped in any runs of angle brackets that start
   * with `<` and end with `>`, is the required argument of that name.
   */
  lemma {:induction false} AngleRuns(lead: string, name: string, trail: string)
    requires |lead| >= 1 && lead[0] == '<' && AllIn(lead, AngleBrackets)
    requires |trail| >= 1 && trail[|trail| - 1] == '>' && AllIn(trail, AngleBrackets)
    requires Bare(name, AngleBrackets)
    ensures UseToken(lead + name + trail) == Some(ArgDescriptor(name, "string", "", true, NoDefault, []))
  {
    var p := lead + name + trail;
    assert p[0] == '<' && p[|p| - 1] == '>';
    assert p[..1] == "<" && p[|p| - 1..] == ">";
    TrimSurrounded(lead, name, trail, AngleBrackets);
  }

  /**
   * Every leading and trailing square bracket goes: a name with no square
   * bracket at either end, wrapped in any runs of square brackets that start
   * with `[` and end with `]`, is the optional argument of that name.
   */
  lemma {:induction false} SquareRuns(lead: string, name: string, trail: string)
    requires |lead| >= 1 && lead[0] == '[' && AllIn(lead, SquareBrackets)
    requires |trail| >= 1 && trail[|trail| - 1] == ']' && AllIn(trail, SquareBrackets)
    requires Bare(name, SquareBrackets)
    ensures UseToken(lead + name + trail) == Some(ArgDescriptor(name, "string", "", false, NoDefault, []))
  {
    var p := lead + name + trail;
    assert p[0] == '[' && p[|p| - 1] == ']';
    assert p[..1] == "[" && p[|p| - 1..] == "]";
    assert !IsAngle(p);
    TrimSurrounded(lead, name, trail, SquareBrackets);
  }

  /** Every leading and trailing bracket goes, not just one pair: `<<name>>` reads like `<name>`. */
  lemma {:induction false} NestedBrackets(name: string)
    requires Bare(name, AngleBrackets)
    ensures UseToken("<<" + name + ">>") == UseToken("<" + name + ">")
  {
    var p := "<<" + name + ">>";
    assert p[..1] == "<" && p[|p| - 1..] == ">";
    TrimSurrounded("<<", name, ">>", AngleBrackets);
    AngleToken(name);
  }

  /** A bare `<>` is still a required argument, with an empty name. */
  lemma {:induction false} EmptyBrackets()
    ensures UseToken("<>") == Some(ArgDescriptor("", "string", "", true, NoDefault, []))
  {
    assert IsAngle("<>") by {
      assert "<>"[..1] == "<" && "<>"[1..] == ">";
    }
    assert TrimLeft("<>", AngleBrackets) == "" by {
      assert "<>"[1..] == ">" && ">"[1..] == "";
    }
  }

  /** A word after one space is the first field, when white space or nothing follows it. */
  lemma {:induction false} SpacedToken(w: string, t: string)
    requires w != [] && NoSpace(w) && (t == [] || IsSpace(t[0]))
    ensures Fields(" " + w + t) == [w] + Fields(t)
  {
    FieldsSkipsSpace(" ", w + t);
    FieldsToken(w, t);
    assert " " + w + t == " " + (w + t);
  }

  /** A space and a word is one field. */
  lemma {:induction false} SpacedWord(z: string)
    requires z != [] && NoSpace(z)
    ensures Fields(" " + z) == [z]
  {
    SpacedToken(z, "");
    assert " " + z + "" == " " + z;
  }

  /** Two words, each after a single space, are two fields. */
  lemma {:induction false} SpacedWords(y: string, z: string)
    requires y != [] && NoSpace(y) && z != [] && NoSpace(z)
    ensures Fields(" " + y + " " + z) == [y, z]
  {
    var tz := " " + z;
    SpacedWord(z);
    assert tz[0] == ' ';
    SpacedToken(y, tz);
    assert " " + y + tz == " " + y + " " + z;
  }

  /** Three words separated by single spaces are three fields. */
  lemma {:induction false} ThreeFields(x: string, y: string, z: string)
    requires x != [] && NoSpace(x) && y != [] && NoSpace(y) && z != [] && NoSpace(z)
    ensures Fields(x + " " + y + " " + z) == [x, y, z]
  {
    var tyz := " " + y + " " + z;
    calc {
      Fields(x + " " + y + " " + z);
      { assert x + " " + y + " " + z == x + tyz; }
      Fields(x + tyz);
      { assert tyz[0] == ' '; FieldsToken(x, tyz); }
      [x] + Fields(tyz);
      { SpacedWords(y, z); }
      [x, y, z];
    }
  }

  /**
   * A usage string shaped like `convert <input> [output]`: a command word,
   * a required argument and an optional one, in that order.
   */
  lemma {:induction false} RequiredThenOptional(cmd: string, input: string, output: string)
    requires cmd != [] && NoSpace(cmd)
    requires NoSpace(input) && Bare(input, AngleBrackets)
    requires NoSpace(output) && Bare(output, SquareBrackets)
    ensures UseArgs(cmd + " <" + input + "> [" + output + "]") ==
      [ ArgDescriptor(input, "string", "", true, NoDefault, []),
        ArgDescriptor(output, "string", "", false, NoDefault, []) ]
  {
    var a, b := "<" + input + ">", "[" + output + "]";
    WrappedNoSpace('<', input, '>');
    WrappedNoSpace('[', output, ']');
    var use := cmd + " <" + input + "> [" + output + "]";
    assert use == cmd + " " + a + " " + b;
    ThreeFields(cmd, a, b);
    assert Fields(use)[1..] == [a, b];
    AngleToken(input);
    SquareToken(output);
    TwoTokens(a, b);
  }

  /** A bracketed word has no white space when neither the word nor the brackets do. */
  lemma {:induction false} WrappedNoSpace(open: char, name: string, close: char)
    requires !IsSpace(open) && !IsSpace(close) && NoSpace(name)
    ensures NoSpace([open] + name + [close])
  {
    var w := [open] + name + [close];
    forall k | 0 <= k < |w| ensures !IsSpace(w[k]) {
      if 0 < k < |w| - 1 { assert w[k] == name[k - 1]; }
    }
  }

  /** The arguments of two usage tokens are those of the first followed by those of the second. */
  lemma {:induction false} TwoTokens(a: string, b: string)
    requires UseToken(a).Some? && UseToken(b).Some?
    ensures TokenArgs([a, b]) == [UseToken(a).value, UseToken(b).value]
  {
    assert [a, b][..1] == [a] && [a][..0] == [];
  }

  /** Argument names are not checked for clashes: `cp <x> <x>` has two arguments named `x`. */
  lemma {:induction false} DuplicateArgNames(name: string)
    requires Bare(name, AngleBrackets)
    ensures var a := "<" + name + ">";
      TokenArgs([a, a]) == [UseToken(a).value, UseToken(a).value] && UseToken(a).value.name == name
  {
    AngleToken(name);
    TwoTokens("<" + name + ">", "<" + name + ">");
  }

  // ---------------------------------------------------------------------
  // One command
  // ---------------------------------------------------------------------

  /**
   * An annotation replaces whole fields: its argument list, when non-empty,
   * stands in for the usage string's; flags always follow; the I/O,
   * examples and auth fields come from the annotation exactly when there is
   * one.
   */
  lemma {:induction false} AssembleFields(cmd: Command, name: string, ann: Option<CommandAnnotation>)
    ensures var cd := Assemble(cmd, name, ann);
      && cd.name == name
      && cd.description == Description(cmd.short, cmd.long)
      && (ann.Some? && |ann.value.args| > 0 ==> cd.args == ann.value.args + FlagArgs(cmd.flags, ann))
      && (!(ann.Some? && |ann.value.args| > 0) ==> cd.args == UseArgs(cmd.use) + FlagArgs(cmd.flags, ann))
      && (ann.Some? ==>
           cd.stdin == ann.value.stdin && cd.stdout == ann.value.stdout
           && cd.examples == ann.value.examples && cd.auth == ann.value.auth)
      && (ann.None? ==> cd.stdin.None? && cd.stdout.None? && cd.examples == [] && cd.auth.None?)
  {
  }

  /** When the annotation lists arguments, the usage string no longer matters. */
  lemma {:induction false} AnnotatedArgsIgnoreUse(cmd: Command, use: string, name: string, ann: Option<CommandAnnotation>)
    requires ann.Some? && |ann.value.args| > 0
    ensures Assemble(cmd.(use := use), name, ann) == Assemble(cmd, name, ann)
  {
    var cmd' := cmd.(use := use);
    assert cmd'.short == cmd.short && cmd'.long == cmd.long && cmd'.flags == cmd.flags;
  }

  // ---------------------------------------------------------------------
  // The walk
  // ---------------------------------------------------------------------

  /** A node with no visible child, and the path the walk reaches it by. */
  datatype Leaf = Leaf(node: Command, path: string)

  /**
   * `n` has no visible child and is reached from `c`, itself reached by
   * `prefix`, through visible children only; `path` extends `prefix` with
   * the names of the children on the way.
   */
  predicate LeafAt(c: Command, prefix: string, n: Command, path: string)
    decreases c
  {
    var vis := Visible(c.children);
    if vis == [] then n == c && path == prefix
    else exists v :: v in vis && LeafAt(v, Path(prefix, v.name), n, path)
  }

  /** The leaves below `c`, in child order: `c` itself when it has no visible child. */
  function Leaves(c: Command, prefix: string): seq<Leaf>
    decreases c, 1, 0
  {
    var vis := Visible(c.children);
    if vis == [] then [Leaf(c, prefix)] else LeavesEach(c, vis, prefix)
  }

  function LeavesEach(parent: Command, vis: seq<Command>, prefix: string): seq<Leaf>
    requires forall x :: x in vis ==> x in parent.children
    decreases parent, 0, |vis|
  {
    if vis == [] then []
    else
      var last := vis[|vis| - 1];
      assert forall x :: x in vis[..|vis| - 1] ==> x in vis;
      assert last in parent.children;
      LeavesEach(parent, vis[..|vis| - 1], prefix) + Leaves(last, Path(prefix, last.name))
  }

  /** The descriptor of one leaf: named by its path, with the annotation stored for that name. */
  function DescribeLeaf(l: Leaf, opts: Option<DescribeOptions>): CommandDescriptor {
    Assemble(l.node, LeafName(l.path), AnnotationFor(opts, LeafName(l.path)))
  }

  /** `f` applied to every element, in order. */
  function Map<A, B>(xs: seq<A>, f: A -> B): (ys: seq<B>)
    ensures |ys| == |xs|
    ensures forall i :: 0 <= i < |xs| ==> ys[i] == f(xs[i])
    decreases |xs|
  {
    if xs == [] then [] else Map(xs[..|xs| - 1], f) + [f(xs[|xs| - 1])]
  }

  lemma {:induction false} MapAppend<A, B>(xs: seq<A>, ys: seq<A>, f: A -> B)
    ensures Map(xs + ys, f) == Map(xs, f) + Map(ys, f)
  {
    var l, r := Map(xs + ys, f), Map(xs, f) + Map(ys, f);
    forall i | 0 <= i < |l| ensures l[i] == r[i] {
      if i < |xs| {
        assert (xs + ys)[i] == xs[i];
      } else {
        assert (xs + ys)[i] == ys[i - |xs|];
      }
    }
  }

  lemma {:induction false} MapMember<A, B>(xs: seq<A>, f: A -> B, x: A)
    requires x in xs
    ensures f(x) in Map(xs, f)
  {
    var i :| 0 <= i < |xs| && xs[i] == x;
    assert Map(xs, f)[i] == f(x);
  }

  /** Describing one leaf, as a function value. */
  function DescribeFn(opts: Option<DescribeOptions>): Leaf -> CommandDescriptor {
    l => DescribeLeaf(l, opts)
  }

  /** One descriptor per leaf, in the same order. */
  function DescribeLeaves(ls: seq<Leaf>, opts: Option<DescribeOptions>): seq<CommandDescriptor> {
    Map(ls, DescribeFn(opts))
  }

  /** The walk emits exactly the descriptors of the leaves, in order, and nothing else. */
  lemma {:induction false} WalkIsLeaves(c: Command, prefix: string, opts: Option<DescribeOptions>)
    ensures Walk(c, prefix, opts) == DescribeLeaves(Leaves(c, prefix), opts)
    decreases c, 1, 0
  {
    var vis := Visible(c.children);
    if vis == [] {
      LeafWalk(c, prefix, opts);
      assert Leaves(c, prefix) == [Leaf(c, prefix)];
    } else {
      GroupWalk(c, prefix, opts);
      assert Leaves(c, prefix) == LeavesEach(c, vis, prefix);
      WalkEachIsLeaves(c, vis, prefix, opts);
    }
  }

  lemma {:induction false} WalkEachIsLeaves(parent: Command, vis: seq<Command>, prefix: string, opts: Option<DescribeOptions>)
    requires forall x :: x in vis ==> x in parent.children
    ensures WalkEach(parent, vis, prefix, opts) == DescribeLeaves(LeavesEach(parent, vis, prefix), opts)
    decreases parent, 0, |vis|
  {
    if vis != [] {
      var init, last := vis[..|vis| - 1], vis[|vis| - 1];
      assert forall x :: x in init ==> x in vis;
      assert last in parent.children;
      var path := Path(prefix, last.name);
      WalkEachIsLeaves(parent, init, prefix, opts);
      WalkIsLeaves(last, path, opts);
      MapAppend(LeavesEach(parent, init, prefix), Leaves(last, path), DescribeFn(opts));
    }
  }

  /** Every leaf listed is a leaf of the tree, reached by its path. */
  lemma {:induction false} LeavesSound(c: Command, prefix: string)
    ensures forall l :: l in Leaves(c, prefix) ==> LeafAt(c, prefix, l.node, l.path)
    decreases c, 1, 0
  {
    var vis := Visible(c.children);
    if vis != [] {
      LeavesEachSound(c, vis, prefix);
    }
  }

  lemma {:induction false} LeavesEachSound(parent: Command, vis: seq<Command>, prefix: string)
    requires forall x :: x in vis ==> x in parent.children
    ensures forall l :: l in LeavesEach(parent, vis, prefix) ==>
      exists v :: v in vis && LeafAt(v, Path(prefix, v.name), l.node, l.path)
    decreases parent, 0, |vis|
  {
    if vis != [] {
      var init, last := vis[..|vis| - 1], vis[|vis| - 1];
      assert forall x :: x in init ==> x in vis;
      assert last in parent.children;
      var path := Path(prefix, last.name);
      LeavesEachSound(parent, init, prefix);
      LeavesSound(last, path);
      assert LeavesEach(parent, vis, prefix) == LeavesEach(parent, init, prefix) + Leaves(last, path);
    }
  }

  /** Every leaf of the tree is listed, under the path that reaches it. */
  lemma {:induction false} LeavesComplete(c: Command, prefix: string, n: Command, path: string)
    requires LeafAt(c, prefix, n, path)
    ensures Leaf(n, path) in Leaves(c, prefix)
    decreases c, 1, 0
  {
    var vis := Visible(c.children);
    if vis != [] {
      var v :| v in vis && LeafAt(v, Path(prefix, v.name), n, path);
      LeavesEachComplete(c, vis, prefix, v, n, path);
    }
  }

  lemma {:induction false} LeavesEachComplete(parent: Command, vis: seq<Command>, prefix: string, v: Command, n: Command, path: string)
    requires forall x :: x in vis ==> x in parent.children
    requires v in vis && LeafAt(v, Path(prefix, v.name), n, path)
    ensures Leaf(n, path) in LeavesEach(parent, vis, prefix)
    decreases parent, 0, |vis|
  {
    var init, last := vis[..|vis| - 1], vis[|vis| - 1];
    assert forall x :: x in init ==> x in vis;
    assert last in parent.children;
    assert vis == init + [last];
    assert LeavesEach(parent, vis, prefix) == LeavesEach(parent, init, prefix) + Leaves(last, Path(prefix, last.name));
    if v == last {
      LeavesComplete(v, Path(prefix, v.name), n, path);
    } else {
      assert v in init;
      LeavesEachComplete(parent, init, prefix, v, n, path);
    }
  }

  /** What the walk reaches is a leaf: group nodes are never described themselves. */
  lemma {:induction false} LeafAtIsLeaf(c: Command, prefix: string, n: Command, path: string)
    requires LeafAt(c, prefix, n, path)
    ensures Visible(n.children) == []
    decreases c
  {
    var vis := Visible(c.children);
    if vis != [] {
      var v :| v in vis && LeafAt(v, Path(prefix, v.name), n, path);
      LeafAtIsLeaf(v, Path(prefix, v.name), n, path);
    }
  }

  /** Below a non-empty path, a leaf's path is that path or extends it by a space and more. */
  lemma {:induction false} LeafAtPath(c: Command, prefix: string, n: Command, path: string)
    requires LeafAt(c, prefix, n, path) && prefix != ""
    ensures path == prefix || HasPrefix(path, prefix + " ")
    decreases c
  {
    var vis := Visible(c.children);
    if vis != [] {
      var v :| v in vis && LeafAt(v, Path(prefix, v.name), n, path);
      LeafAtPath(v, Path(prefix, v.name), n, path);
      ExtendsPath(path, prefix, v.name);
    }
  }

  /** A path that is or extends a child's path extends the parent's path by a space. */
  lemma {:induction false} ExtendsPath(name: string, prefix: string, child: string)
    requires prefix != ""
    requires name == Path(prefix, child) || HasPrefix(name, Path(prefix, child) + " ")
    ensures HasPrefix(name, prefix + " ")
  {
    var p := prefix + " " + child;
    var k := |prefix| + 1;
    assert p[..k] == prefix + " ";
    if name != p {
      assert name[..|p| + 1] == p + " ";
      assert name[..k] == (p + " ")[..k];
      assert (p + " ")[..k] == p[..k];
    }
  }

  /**
   * Only leaves are described: the walk has one descriptor per listed leaf,
   * each a leaf of the tree with no visible child, described under its path.
   */
  lemma {:induction false} WalkDescribesLeaves(c: Command, prefix: string, opts: Option<DescribeOptions>)
    ensures |Walk(c, prefix, opts)| == |Leaves(c, prefix)|
    ensures forall i :: 0 <= i < |Leaves(c, prefix)| ==>
      && LeafAt(c, prefix, Leaves(c, prefix)[i].node, Leaves(c, prefix)[i].path)
      && Visible(Leaves(c, prefix)[i].node.children) == []
      && Walk(c, prefix, opts)[i] == DescribeLeaf(Leaves(c, prefix)[i], opts)
  {
    var ls := Leaves(c, prefix);
    WalkIsLeaves(c, prefix, opts);
    LeavesSound(c, prefix);
    forall i | 0 <= i < |ls|
      ensures Visible(ls[i].node.children) == [] && Walk(c, prefix, opts)[i] == DescribeLeaf(ls[i], opts)
    {
      assert ls[i] in ls;
      LeafAtIsLeaf(c, prefix, ls[i].node, ls[i].path);
      assert DescribeFn(opts)(ls[i]) == DescribeLeaf(ls[i], opts);
    }
  }

  /** Every leaf of the tree is described, under the path that reaches it. */
  lemma {:induction false} WalkCoversLeaves(c: Command, prefix: string, opts: Option<DescribeOptions>, n: Command, path: string)
    requires LeafAt(c, prefix, n, path)
    ensures Assemble(n, LeafName(path), AnnotationFor(opts, LeafName(path))) in Walk(c, prefix, opts)
  {
    LeavesComplete(c, prefix, n, path);
    WalkIsLeaves(c, prefix, opts);
    MapMember(Leaves(c, prefix), DescribeFn(opts), Leaf(n, path));
    assert DescribeFn(opts)(Leaf(n, path)) == DescribeLeaf(Leaf(n, path), opts);
  }

  /** There is always at least one leaf: a node without visible children is its own. */
  lemma {:induction false} LeavesNonEmpty(c: Command, prefix: string)
    ensures |Leaves(c, prefix)| >= 1
    decreases c
  {
    var vis := Visible(c.children);
    if vis != [] {
      var last := vis[|vis| - 1];
      assert last in c.children;
      var path := Path(prefix, last.name);
      LeavesNonEmpty(last, path);
      assert Leaves(c, prefix) == LeavesEach(c, vis[..|vis| - 1], prefix) + Leaves(last, path);
    }
  }

  /** The walk emits one descriptor per leaf, and always at least one. */
  lemma {:induction false} WalkCount(c: Command, prefix: string, opts: Option<DescribeOptions>)
    ensures |Walk(c, prefix, opts)| == |Leaves(c, prefix)| >= 1
  {
    WalkIsLeaves(c, prefix, opts);
    LeavesNonEmpty(c, prefix);
  }

  /** A node with no visible child is described once, under its leaf name. */
  lemma {:induction false} LeafWalk(c: Command, prefix: string, opts: Option<DescribeOptions>)
    requires Visible(c.children) == []
    ensures |Walk(c, prefix, opts)| == 1 && Walk(c, prefix, opts)[0].name == LeafName(prefix)
    ensures Walk(c, prefix, opts)[0] == Assemble(c, LeafName(prefix), AnnotationFor(opts, LeafName(prefix)))
  {
    var name := LeafName(prefix);
    assert Walk(c, prefix, opts) == [Assemble(c, name, AnnotationFor(opts, name))];
  }

  /** A node with visible children is described by its children alone. */
  lemma {:induction false} GroupWalk(c: Command, prefix: string, opts: Option<DescribeOptions>)
    requires Visible(c.children) != []
    ensures Walk(c, prefix, opts) == WalkEach(c, Visible(c.children), prefix, opts)
  {
  }

  /** Every descriptor is named `prefix`, or `prefix`, a space and more. */
  predicate NamesExtend(ds: seq<CommandDescriptor>, prefix: string) {
    forall i :: 0 <= i < |ds| ==> ds[i].name == prefix || HasPrefix(ds[i].name, prefix + " ")
  }

  /** Below a non-empty path, every descriptor's name extends that path. */
  lemma {:induction false} WalkNamesExtendPrefix(c: Command, prefix: string, opts: Option<DescribeOptions>)
    requires prefix != ""
    ensures NamesExtend(Walk(c, prefix, opts), prefix)
    decreases c, 1, 0
  {
    var vis := Visible(c.children);
    if vis == [] {
      LeafNameExtendsPrefix(c, prefix, opts);
    } else {
      GroupWalk(c, prefix, opts);
      WalkEachNamesExtendPrefix(c, vis, prefix, opts);
    }
  }

  /** A leaf below a non-empty path is named by that path. */
  lemma {:induction false} LeafNameExtendsPrefix(c: Command, prefix: string, opts: Option<DescribeOptions>)
    requires prefix != "" && Visible(c.children) == []
    ensures NamesExtend(Walk(c, prefix, opts), prefix)
  {
    LeafWalk(c, prefix, opts);
  }

  lemma {:induction false} WalkEachNamesExtendPrefix(parent: Command, vis: seq<Command>, prefix: string, opts: Option<DescribeOptions>)
    requires prefix != ""
    requires forall x :: x in vis ==> x in parent.children
    ensures NamesExtend(WalkEach(parent, vis, prefix, opts), prefix)
    decreases parent, 0, |vis|
  {
    if vis != [] {
      var last := vis[|vis| - 1];
      assert forall x :: x in vis[..|vis| - 1] ==> x in vis;
      assert last in parent.children;
      var path := Path(prefix, last.name);
      var front := WalkEach(parent, vis[..|vis| - 1], prefix, opts);
      var back := Walk(last, path, opts);
      WalkEachNamesExtendPrefix(parent, vis[..|vis| - 1], prefix, opts);
      WalkNamesExtendPrefix(last, path, opts);
      assert NamesExtend(back, prefix) by {
        forall i | 0 <= i < |back| ensures HasPrefix(back[i].name, prefix + " ") {
          ExtendsPath(back[i].name, prefix, last.name);
        }
      }
      NamesExtendAppend(front, back, prefix);
    }
  }

  /** Two runs of descriptors whose names extend a path still do when concatenated. */
  lemma {:induction false} NamesExtendAppend(xs: seq<CommandDescriptor>, ys: seq<CommandDescriptor>, prefix: string)
    requires NamesExtend(xs, prefix) && NamesExtend(ys, prefix)
    ensures NamesExtend(xs + ys, prefix)
  {
    forall i | 0 <= i < |xs + ys| ensures (xs + ys)[i].name == prefix || HasPrefix((xs + ys)[i].name, prefix + " ") {
      if i >= |xs| { assert (xs + ys)[i] == ys[i - |xs|]; }
    }
  }

  /**
   * The visible children are exactly the children that are neither hidden
   * nor named help or completion.
   */
  lemma {:induction false} VisibleMembers(cs: seq<Command>)
    ensures forall x :: x in Visible(cs) <==> x in cs && IsVisible(x)
    decreases |cs|
  {
    if cs != [] {
      var init := cs[..|cs| - 1];
      assert cs == init + [cs[|cs| - 1]];
      VisibleMembers(init);
    }
  }

  /** Visible children of two runs of children concatenate. */
  lemma {:induction false} VisibleAppend(xs: seq<Command>, ys: seq<Command>)
    ensures Visible(xs + ys) == Visible(xs) + Visible(ys)
    decreases |ys|
  {
    if ys == [] {
      assert xs + ys == xs;
    } else {
      var init := ys[..|ys| - 1];
      assert (xs + ys)[..|xs + ys| - 1] == xs + init;
      assert (xs + ys)[|xs + ys| - 1] == ys[|ys| - 1];
      VisibleAppend(xs, init);
    }
  }

  /** The walk over given children does not depend on which parent holds them. */
  lemma {:induction false} WalkEachAnyParent(p: Command, q: Command, vis: seq<Command>, prefix: string, opts: Option<DescribeOptions>)
    requires forall x :: x in vis ==> x in p.children
    requires forall x :: x in vis ==> x in q.children
    ensures WalkEach(p, vis, prefix, opts) == WalkEach(q, vis, prefix, opts)
    decreases |vis|
  {
    if vis != [] {
      assert forall x :: x in vis[..|vis| - 1] ==> x in vis;
      WalkEachAnyParent(p, q, vis[..|vis| - 1], prefix, opts);
    }
  }

  /** Dropping an invisible child leaves the visible children as they were. */
  lemma {:induction false} VisibleSkipsInvisible(cs: seq<Command>, i: nat)
    requires i < |cs| && !IsVisible(cs[i])
    ensures Visible(cs[..i] + cs[i + 1..]) == Visible(cs)
  {
    var left, right := cs[..i], cs[i + 1..];
    var withX := left + [cs[i]];
    assert cs == withX + right;
    assert withX[..|withX| - 1] == left;
    assert Visible(withX) == Visible(left);
    VisibleAppend(withX, right);
    VisibleAppend(left, right);
  }

  /** A descriptor does not depend on the children of the command it describes. */
  lemma {:induction false} AssembleIgnoresChildren(c: Command, kids: seq<Command>, name: string, ann: Option<CommandAnnotation>)
    ensures Assemble(c.(children := kids), name, ann) == Assemble(c, name, ann)
  {
    var c' := c.(children := kids);
    assert c'.short == c.short && c'.long == c.long && c'.use == c.use && c'.flags == c.flags;
  }

  /**
   * A hidden, help or completion child is skipped together with its whole
   * subtree: removing it from the tree changes nothing in the output.
   */
  lemma {:induction false} InvisibleChildIgnored(c: Command, i: nat, prefix: string, opts: Option<DescribeOptions>)
    requires i < |c.children| && !IsVisible(c.children[i])
    ensures Walk(c.(children := c.children[..i] + c.children[i + 1..]), prefix, opts) == Walk(c, prefix, opts)
  {
    var c' := c.(children := c.children[..i] + c.children[i + 1..]);
    VisibleSkipsInvisible(c.children, i);
    if Visible(c.children) == [] {
      LeafWithoutChild(c, c', prefix, opts);
    } else {
      GroupWithoutChild(c, c', prefix, opts);
    }
  }

  lemma {:induction false} LeafWithoutChild(c: Command, c': Command, prefix: string, opts: Option<DescribeOptions>)
    requires c' == c.(children := c'.children)
    requires Visible(c.children) == [] && Visible(c'.children) == []
    ensures Walk(c', prefix, opts) == Walk(c, prefix, opts)
  {
    LeafWalk(c, prefix, opts);
    LeafWalk(c', prefix, opts);
    AssembleIgnoresChildren(c, c'.children, LeafName(prefix), AnnotationFor(opts, LeafName(prefix)));
  }

  lemma {:induction false} GroupWithoutChild(c: Command, c': Command, prefix: string, opts: Option<DescribeOptions>)
    requires Visible(c.children) != [] && Visible(c'.children) == Visible(c.children)
    ensures Walk(c', prefix, opts) == Walk(c, prefix, opts)
  {
    GroupWalk(c, prefix, opts);
    GroupWalk(c', prefix, opts);
    WalkEachAnyParent(c', c, Visible(c.children), prefix, opts);
  }

  /** A group with exactly one visible child describes that child under the extended path. */
  lemma {:induction false} OnlyChild(c: Command, child: Command, prefix: string, opts: Option<DescribeOptions>)
    requires Visible(c.children) == [child]
    ensures Walk(c, prefix, opts) == Walk(child, Path(prefix, child.name), opts)
  {
    GroupWalk(c, prefix, opts);
    assert [child][..0] == [];
  }

  /**
   * A group holding a single leaf yields one command, named by the group and
   * the leaf joined by a space (`db migrate`).
   */
  lemma {:induction false} NestedGroupName(tool: Command, db: Command, migrate: Command, opts: Option<DescribeOptions>)
    requires Visible(tool.children) == [db] && Visible(db.children) == [migrate]
    requires Visible(migrate.children) == [] && db.name != ""
    ensures |Walk(tool, "", opts)| == 1 && Walk(tool, "", opts)[0].name == db.name + " " + migrate.name
  {
    OnlyChild(tool, db, "", opts);
    OnlyChild(db, migrate, db.name, opts);
    LeafWalk(migrate, db.name + " " + migrate.name, opts);
  }

  /** The walk over two visible children is the walk over the first, then over the second. */
  lemma {:induction false} TwoChildren(parent: Command, a: Command, b: Command, prefix: string, opts: Option<DescribeOptions>)
    requires a in parent.children && b in parent.children
    ensures WalkEach(parent, [a, b], prefix, opts) == Walk(a, Path(prefix, a.name), opts) + Walk(b, Path(prefix, b.name), opts)
  {
    assert [a, b][..1] == [a] && [a][..0] == [];
    assert WalkEach(parent, [], prefix, opts) == [];
    assert WalkEach(parent, [a], prefix, opts) == Walk(a, Path(prefix, a.name), opts);
  }

  /**
   * Names are not unique in general: two visible sibling leaves with the same
   * name are both described under that name.
   */
  lemma {:induction false} DuplicateSiblingNames(tool: Command, a: Command, b: Command, opts: Option<DescribeOptions>)
    requires Visible(tool.children) == [a, b] && a.name == b.name != ""
    requires Visible(a.children) == [] && Visible(b.children) == []
    ensures |Walk(tool, "", opts)| == 2 && Walk(tool, "", opts)[0].name == Walk(tool, "", opts)[1].name == a.name
  {
    GroupWalk(tool, "", opts);
    TwoChildren(tool, a, b, "", opts);
    LeafWalk(a, a.name, opts);
    LeafWalk(b, a.name, opts);
  }
}
