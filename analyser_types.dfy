/**
 * The values the file analyser consumes and produces: comments and nodes
 * handed over by the parser, the scope facts it reads, what rules report,
 * and the `Error` diagnostics and `FileAnalyserResult` it builds.
 */
module AnalyserTypes {
  import opened Builtins

  /** `PhpParser\Comment\Doc` or any other `PhpParser\Comment`. */
  datatype CommentKind = Doc | Regular

  datatype Comment = Comment(kind: CommentKind, text: string, startLine: int, endLine: int)

  /**
   * A visited node: `get_class($node)`, `$node->getLine()` (-1 when the
   * parser recorded no line), its doc comment and its comments. As in
   * PHP-Parser, `comments` may contain the doc comment too, in which case
   * its line is collected twice; the keyed array of ignore lines drops the
   * repeat.
   */
  datatype Node = Node(kind: string, line: int, docComment: Option<Comment>, comments: seq<Comment>)

  /** The trait reflection of a scope; `fileName` is `None` where PHP gives `false`. */
  datatype TraitReflection = TraitReflection(fileName: Option<string>)

  /**
   * What the analyser asks of a `Scope`: `getFileDescription()`, `getFile()`,
   * and, when `isInTrait()`, `getTraitReflection()`.
   */
  datatype Scope = Scope(fileDescription: string, file: string, traitReflection: Option<TraitReflection>)

  /** The ordered key/value array a `MetadataRuleError` carries. */
  type Metadata = seq<(string, string)>

  /**
   * What a rule returns for a node: a plain string, or a `RuleError` object.
   * In `Structured`, each optional field is `None` when the object does not
   * implement the matching interface (`LineRuleError`, `FileRuleError`,
   * `TipRuleError`, `IdentifierRuleError`); `metadata` is empty when it is
   * not a `MetadataRuleError`.
   */
  datatype RuleError =
    | Plain(text: string)
    | Structured(message: string, line: Option<int>, file: Option<string>, tip: Option<string>,
                 identifier: Option<string>, metadata: Metadata)

  /** An exception the analyser catches: `AnalysedCodeException` or `IdentifierNotFound`. */
  datatype Failure =
    | AnalysedCode(message: string, tip: Option<string>)
    | IdentifierNotFound(identifier: string)

  /** What one rule's `processNode` did: returned errors, or threw. */
  datatype RuleOutcome = Reported(errors: seq<RuleError>) | Raised(failure: Failure)

  /**
   * What the dependency resolver gave for a node: the file name of each
   * reflection it returned (`None` for `false`), or an exception.
   */
  datatype DependencyLookup = Resolved(fileNames: seq<Option<string>>) | LookupFailed

  /**
   * One call of the node callback: the node, the scope it is visited in, the
   * outcomes of the rules registered for its kind in registration order, and
   * what the dependency resolver answered for it.
   */
  datatype Visit = Visit(node: Node, scope: Scope, outcomes: seq<RuleOutcome>, dependencies: DependencyLookup)

  /** `PhpParser\Error`: a message and a start line, -1 when unknown. */
  datatype ParseError = ParseError(message: string, startLine: int)

  /** `PHPStan\Analyser\Error`; `file` is the file description shown to users. */
  datatype Error = Error(
    message: string,
    file: string,
    line: Option<int>,
    canBeIgnored: bool,
    filePath: Option<string>,
    traitFilePath: Option<string>,
    tip: Option<string>,
    nodeLine: Option<int>,
    nodeType: Option<string>,
    identifier: Option<string>,
    metadata: Metadata)

  datatype FileAnalyserResult = FileAnalyserResult(errors: seq<Error>, dependencies: seq<string>)

  const UNMATCHED_IGNORE_IDENTIFIER := "ignoredError.unmatchedOnLine"

  /** `new Error($message, $file, $line, false, null, null, $tip)`: an error no comment can suppress. */
  function InternalError(message: string, file: string, line: Option<int>, tip: Option<string>): Error {
    Error(message, file, line, false, None, None, tip, None, None, None, [])
  }

  function FailureMessage(failure: Failure): string {
    match failure
    case AnalysedCode(message, _) => message
    case IdentifierNotFound(identifier) => "Reflection error: " + identifier + " not found."
  }

  /** The error a caught `AnalysedCodeException` or `IdentifierNotFound` becomes. */
  function FailureError(failure: Failure, file: string, line: Option<int>): (e: Error)
    ensures !e.canBeIgnored && e.line == line && e.file == file && e.identifier == None
    ensures e.message == FailureMessage(failure)
    ensures e.tip == (if failure.AnalysedCode? then failure.tip else None)
  {
    match failure
    case AnalysedCode(message, tip) => InternalError(message, file, line, tip)
    case IdentifierNotFound(_) => InternalError(FailureMessage(failure), file, line, None)
  }

  /** A parse error becomes an error that cannot be ignored; start line -1 means no line. */
  function ParseErrorToError(error: ParseError, file: string): (e: Error)
    ensures !e.canBeIgnored && e.message == error.message && e.file == file && e.identifier == None
    ensures error.startLine == -1 ==> e.line == None
    ensures error.startLine != -1 ==> e.line == Some(error.startLine)
  {
    InternalError(error.message, file, if error.startLine != -1 then Some(error.startLine) else None, None)
  }

  /** The trait file recorded on errors reported in `scope`: set only inside a trait whose file is known. */
  function TraitFilePath(scope: Scope): Option<string> {
    if scope.traitReflection.Some? then scope.traitReflection.value.fileName else None
  }
}
