/**
 * The records of the Model Tools Protocol schema that `Describe` produces,
 * and the caller-supplied options that supplement a command tree.
 * A Go pointer field becomes an `Option`; a nil slice is the empty sequence
 * and a nil map the empty map, which read the same in Go.
 */
module Types {
  import opened Wrappers

  /**
   * The `default` of an argument as the flag extractor produces it: absent,
   * the boolean `true`, or the flag's default as text.
   */
  datatype Default = NoDefault | BoolTrue | Text(text: string)

  /** One positional argument or flag of a command. */
  datatype ArgDescriptor = ArgDescriptor(
    name: string,
    argType: string,
    description: string,
    required: bool,
    default: Default,
    values: seq<string>)

  /**
   * A caller's free-form JSON schema object. Nothing here inspects it: it
   * stands for whatever the caller supplied and is passed through unchanged.
   */
  datatype OpaqueSchema = OpaqueSchema(handle: nat)

  /** What a command reads on stdin or writes on stdout. */
  datatype IODescriptor = IODescriptor(
    contentType: string,
    description: string,
    schema: Option<OpaqueSchema>)

  /** A usage example of a command. */
  datatype Example = Example(description: string, command: string, output: string)

  /** One way of authenticating against the tool's service. */
  datatype AuthProvider = AuthProvider(
    id: string,
    providerType: string,
    displayName: string,
    authorizationUrl: string,
    tokenUrl: string,
    scopes: seq<string>,
    clientId: string,
    registrationUrl: string,
    instructions: string)

  /** The tool-wide authentication requirements. */
  datatype AuthConfig = AuthConfig(required: bool, envVar: string, providers: seq<AuthProvider>)

  /** The authentication requirements of one command. */
  datatype CommandAuth = CommandAuth(required: bool, scopes: seq<string>)

  /** Metadata a caller attaches to one command path. */
  datatype CommandAnnotation = CommandAnnotation(
    args: seq<ArgDescriptor>,
    argTypes: map<string, string>,
    stdin: Option<IODescriptor>,
    stdout: Option<IODescriptor>,
    examples: seq<Example>,
    auth: Option<CommandAuth>)

  /**
   * Options of `Describe`: annotations keyed by command path and the
   * tool-wide authentication. A nil annotation pointer stored in the map
   * behaves exactly like a missing key, so it is represented by absence.
   */
  datatype DescribeOptions = DescribeOptions(
    commands: map<string, CommandAnnotation>,
    auth: Option<AuthConfig>)

  /** One command of the flattened schema. */
  datatype CommandDescriptor = CommandDescriptor(
    name: string,
    description: string,
    args: seq<ArgDescriptor>,
    stdin: Option<IODescriptor>,
    stdout: Option<IODescriptor>,
    examples: seq<Example>,
    auth: Option<CommandAuth>)

  /** The whole `--describe` document of a tool. */
  datatype ToolSchema = ToolSchema(
    specVersion: string,
    name: string,
    version: string,
    description: string,
    commands: seq<CommandDescriptor>,
    auth: Option<AuthConfig>)
}
