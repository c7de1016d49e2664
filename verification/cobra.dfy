/**
 * The command tree the introspection reads, as values. Only what the
 * introspection looks at is kept. The command's name (cobra's `Name()`,
 * derived from `Use`) and the order in which its flag set enumerates its
 * flags (pflag's `VisitAll`) are taken as given.
 */
module Cobra {

  /** A declared flag: pflag's `Flag` with its value's kind as a string. */
  datatype Flag = Flag(
    name: string,
    kind: string,
    defValue: string,
    usage: string,
    hidden: bool,
    annotations: map<string, seq<string>>)

  /**
   * A command node. `flags` lists the flags of `cmd.Flags()` in enumeration
   * order; `children` lists `cmd.Commands()` in order, including the help and
   * completion commands once cobra has added them.
   */
  datatype Command = Command(
    name: string,
    use: string,
    short: string,
    long: string,
    version: string,
    hidden: bool,
    flags: seq<Flag>,
    children: seq<Command>)
}
