/**
 * `FileAnalyser::analyseFile`: runs the rules on every visited node of one
 * file, reconciles the rule errors with the ignore comments, and returns
 * the errors and the files the analysed file depends on.
 *
 * The parser, the scope factory, the node scope resolver, the rule
 * registry and the dependency resolver are collaborators: what they
 * produce for a file is the input `FileKind`.
 */
module FileAnalyser {
  import opened Builtins
  import opened AnalyserTypes
  import opened IgnoreComments
  import opened Dependencies
  import opened RuleDispatch
  import opened Reconciliation

  /** What the node callback has collected through its by-reference captures. */
  datatype Collected = Collected(fileErrors: seq<Error>, fileDependencies: seq<string>,
                                 linesToIgnore: seq<int>, temporaryFileErrors: seq<Error>)

  /** The dependencies one visit yields, repeats kept: none when the dependency lookup threw. */
  function NodeKept(visit: Visit, analysedFiles: set<string>, normalizePath: string -> string): seq<string> {
    match visit.dependencies
    case Resolved(fileNames) => KeptDependencies(fileNames, visit.scope.file, analysedFiles, normalizePath)
    case LookupFailed => []
  }

  /** The effect of one call of the node callback on what it has collected. */
  function AfterVisit(state: Collected, visit: Visit, file: string, analysedFiles: set<string>,
                      normalizePath: string -> string): Collected
  {
    Collected(
      state.fileErrors + NodeFailureErrors(visit.outcomes, file, visit.node, {}),
      state.fileDependencies + Unique(NodeKept(visit, analysedFiles, normalizePath)),
      state.linesToIgnore + IgnoreLines(CommentsOf(visit.node)),
      state.temporaryFileErrors + NodeTemporaryErrors(visit.outcomes, visit.node, visit.scope))
  }

  /**
   * What the node callback has collected after `visits`. Errors written
   * straight to the file's errors are never ignorable and carry no
   * identifier; temporary errors are always ignorable and have a line.
   */
  function CollectAll(visits: seq<Visit>, file: string, analysedFiles: set<string>,
                      normalizePath: string -> string): (state: Collected)
    ensures forall e :: e in state.fileErrors ==> !e.canBeIgnored && e.identifier == None
    ensures forall e :: e in state.temporaryFileErrors ==> e.canBeIgnored && e.line.Some?
    decreases |visits|
  {
    if visits == [] then Collected([], [], [], [])
    else
      AfterVisit(CollectAll(visits[..|visits| - 1], file, analysedFiles, normalizePath),
                 visits[|visits| - 1], file, analysedFiles, normalizePath)
  }

  lemma CollectAllStep(visits: seq<Visit>, k: nat, file: string, analysedFiles: set<string>,
                       normalizePath: string -> string)
    requires k < |visits|
    ensures CollectAll(visits[..k + 1], file, analysedFiles, normalizePath)
         == AfterVisit(CollectAll(visits[..k], file, analysedFiles, normalizePath), visits[k], file, analysedFiles, normalizePath)
  {
    assert visits[..k + 1][..k] == visits[..k];
  }

  /** The node callback `$nodeCallback` with the variables it captures by reference. */
  class NodeCallback {
    const file: string
    const analysedFiles: set<string>
    const normalizePath: string -> string
    var fileErrors: seq<Error>
    var fileDependencies: seq<string>
    var linesToIgnore: seq<int>
    var temporaryFileErrors: seq<Error>

    function State(): Collected
      reads this
    {
      Collected(fileErrors, fileDependencies, linesToIgnore, temporaryFileErrors)
    }

    constructor (file: string, analysedFiles: set<string>, normalizePath: string -> string)
      ensures this.file == file && this.analysedFiles == analysedFiles && this.normalizePath == normalizePath
      ensures State() == Collected([], [], [], [])
    {
      this.file := file;
      this.analysedFiles := analysedFiles;
      this.normalizePath := normalizePath;
      fileErrors, fileDependencies, linesToIgnore, temporaryFileErrors := [], [], [], [];
    }

    /**
     * One call of the callback: runs the node's rules, turning exceptions
     * into errors (one per `AnalysedCodeException` message on this node)
     * and rule errors into temporary errors, then collects the node's
     * ignore lines and its dependencies, swallowing a failed lookup.
     */
    method Invoke(visit: Visit)
      modifies this
      ensures State() == AfterVisit(old(State()), visit, file, analysedFiles, normalizePath)
    {
      var node, scope, outcomes := visit.node, visit.scope, visit.outcomes;
      var failures, temporaries := RunRules(outcomes, file, node, scope);
      fileErrors := fileErrors + failures;
      temporaryFileErrors := temporaryFileErrors + temporaries;
      var lines := GetLinesToIgnore(node);
      linesToIgnore := linesToIgnore + lines;
      match visit.dependencies
      case Resolved(fileNames) =>
        var dependencies := ResolveDependencies(fileNames, scope.file, analysedFiles, normalizePath);
        fileDependencies := fileDependencies + dependencies;
      case LookupFailed =>
    }
  }

  /**
   * The loop over the rules registered for the node's type: an
   * `AnalysedCodeException` becomes an error once per message on this node,
   * an `IdentifierNotFound` always does, and every rule error returned
   * becomes a temporary error.
   */
  method RunRules(outcomes: seq<RuleOutcome>, file: string, node: Node, scope: Scope)
    returns (failures: seq<Error>, temporaries: seq<Error>)
    ensures failures == NodeFailureErrors(outcomes, file, node, {})
    ensures temporaries == NodeTemporaryErrors(outcomes, node, scope)
  {
    failures, temporaries := [], [];
    var seen: set<string> := {};
    for i := 0 to |outcomes|
      invariant failures + NodeFailureErrors(outcomes[i..], file, node, seen) == NodeFailureErrors(outcomes, file, node, {})
      invariant temporaries + NodeTemporaryErrors(outcomes[i..], node, scope) == NodeTemporaryErrors(outcomes, node, scope)
    {
      ghost var rest := outcomes[i + 1..];
      match outcomes[i]
      case Raised(failure) =>
        assert NodeTemporaryErrors(outcomes[i..], node, scope) == NodeTemporaryErrors(rest, node, scope) by {
          TemporaryStep(outcomes, i, node, scope, temporaries);
        }
        var error := FailureError(failure, file, Some(node.line));
        if failure.AnalysedCode? {
          if failure.message in seen {
            assert NodeFailureErrors(outcomes[i..], file, node, seen) == NodeFailureErrors(rest, file, node, seen) by {
              FailureStep(outcomes, i, file, node, seen, failures);
            }
            continue;
          }
          assert failures + NodeFailureErrors(outcomes[i..], file, node, seen)
              == (failures + [error]) + NodeFailureErrors(rest, file, node, seen + {failure.message}) by {
            FailureStep(outcomes, i, file, node, seen, failures);
          }
          seen := seen + {failure.message};
        } else {
          assert failures + NodeFailureErrors(outcomes[i..], file, node, seen)
              == (failures + [error]) + NodeFailureErrors(rest, file, node, seen) by {
            FailureStep(outcomes, i, file, node, seen, failures);
          }
        }
        failures := failures + [error];
      case Reported(ruleErrors) =>
        var normalised := NormaliseRuleErrors(ruleErrors, node, scope);
        assert temporaries + NodeTemporaryErrors(outcomes[i..], node, scope)
            == (temporaries + normalised) + NodeTemporaryErrors(rest, node, scope) by {
          TemporaryStep(outcomes, i, node, scope, temporaries);
        }
        assert NodeFailureErrors(outcomes[i..], file, node, seen) == NodeFailureErrors(rest, file, node, seen) by {
          FailureStep(outcomes, i, file, node, seen, failures);
        }
        temporaries := temporaries + normalised;
    }
    assert outcomes[|outcomes|..] == [];
  }

  /** The loop over the errors one rule returned, each normalised in turn. */
  method NormaliseRuleErrors(ruleErrors: seq<RuleError>, node: Node, scope: Scope) returns (errors: seq<Error>)
    ensures errors == NormaliseAll(ruleErrors, node, scope)
  {
    errors := [];
    for j := 0 to |ruleErrors|
      invariant errors == NormaliseAll(ruleErrors[..j], node, scope)
    {
      NormaliseAllConcat(ruleErrors[..j], [ruleErrors[j]], node, scope);
      assert ruleErrors[..j + 1] == ruleErrors[..j] + [ruleErrors[j]];
      errors := errors + [RuleErrorToError(ruleErrors[j], node, scope)];
    }
    assert ruleErrors[..|ruleErrors|] == ruleErrors;
  }

  /**
   * The temporary errors of the remaining outcomes, unfolded by one rule,
   * after the errors `done` that the earlier rules gave.
   */
  lemma TemporaryStep(outcomes: seq<RuleOutcome>, i: nat, node: Node, scope: Scope, done: seq<Error>)
    requires i < |outcomes|
    ensures outcomes[i].Raised?
      ==> NodeTemporaryErrors(outcomes[i..], node, scope) == NodeTemporaryErrors(outcomes[i + 1..], node, scope)
    ensures outcomes[i].Reported?
      ==> (done + NodeTemporaryErrors(outcomes[i..], node, scope)
           == (done + NormaliseAll(outcomes[i].errors, node, scope)) + NodeTemporaryErrors(outcomes[i + 1..], node, scope))
  {
    assert outcomes[i..][0] == outcomes[i] && outcomes[i..][1..] == outcomes[i + 1..];
  }

  /**
   * The failure errors of the remaining outcomes, unfolded by one rule,
   * after the errors `done` that the earlier rules gave.
   */
  lemma FailureStep(outcomes: seq<RuleOutcome>, i: nat, file: string, node: Node, seen: set<string>, done: seq<Error>)
    requires i < |outcomes|
    ensures (outcomes[i].Reported? || (outcomes[i].failure.AnalysedCode? && outcomes[i].failure.message in seen))
      ==> NodeFailureErrors(outcomes[i..], file, node, seen) == NodeFailureErrors(outcomes[i + 1..], file, node, seen)
    ensures (outcomes[i].Raised? && outcomes[i].failure.AnalysedCode? && outcomes[i].failure.message !in seen)
      ==> (done + NodeFailureErrors(outcomes[i..], file, node, seen)
           == (done + [FailureError(outcomes[i].failure, file, Some(node.line))])
              + NodeFailureErrors(outcomes[i + 1..], file, node, seen + {outcomes[i].failure.message}))
    ensures (outcomes[i].Raised? && outcomes[i].failure.IdentifierNotFound?)
      ==> (done + NodeFailureErrors(outcomes[i..], file, node, seen)
           == (done + [FailureError(outcomes[i].failure, file, Some(node.line))]) + NodeFailureErrors(outcomes[i + 1..], file, node, seen))
  {
    assert outcomes[i..][0] == outcomes[i] && outcomes[i..][1..] == outcomes[i + 1..];
  }

  /** An exception that escapes the traversal: parse errors, or a failure of the analysis itself. */
  datatype Escape = SyntaxErrors(errors: seq<ParseError>) | Thrown(failure: Failure)

  /**
   * What happened to a regular file: parsing failed with these errors; or
   * the root scope was created, the synthetic file node visited in it, the
   * node scope resolver visited `visited`, and then possibly threw.
   */
  datatype Run =
    | ParseFailed(errors: seq<ParseError>)
    | Traversed(root: Scope, fileNode: FileNodeCall, visited: seq<Visit>, escape: Option<Escape>)

  /**
   * The call on the synthetic file node: the node, the outcomes of its
   * rules and the dependency lookup. It has no scope of its own; it is
   * made in the root scope.
   */
  datatype FileNodeCall = FileNodeCall(node: Node, outcomes: seq<RuleOutcome>, dependencies: DependencyLookup)

  /** What the file system says the path is, and for a file, what analysing it did. */
  datatype FileKind = RegularFile(run: Run) | Directory | Missing

  /** Every call of the node callback, the file node first and in the root scope. */
  function Visits(root: Scope, fileNode: FileNodeCall, visited: seq<Visit>): seq<Visit> {
    [Visit(fileNode.node, root, fileNode.outcomes, fileNode.dependencies)] + visited
  }

  function ParseErrorsToErrors(errors: seq<ParseError>, file: string): seq<Error> {
    seq(|errors|, i requires 0 <= i < |errors| => ParseErrorToError(errors[i], file))
  }

  /**
   * The errors the catch block adds for an exception escaping the
   * traversal: one per parse error, or one without a line for a failure.
   */
  function EscapeErrors(escape: Escape, file: string): (r: seq<Error>)
    ensures escape.SyntaxErrors?
      ==> |r| == |escape.errors| && forall i :: 0 <= i < |r| ==> r[i] == ParseErrorToError(escape.errors[i], file)
    ensures escape.Thrown? ==> r == [FailureError(escape.failure, file, None)]
    ensures forall e :: e in r ==> !e.canBeIgnored && e.identifier.None? && e.file == file
  {
    match escape
    case SyntaxErrors(errors) => ParseErrorsToErrors(errors, file)
    case Thrown(failure) => [FailureError(failure, file, None)]
  }

  /**
   * The result `analyseFile` returns. A path that is no regular file gives
   * one error without a line that cannot be ignored; a file that does not
   * parse gives one such error per parse error; either way there are no
   * dependencies. The dependencies never repeat.
   */
  function Analyse(file: string, kind: FileKind, analysedFiles: set<string>, reportUnmatchedIgnoredErrors: bool,
                   normalizePath: string -> string): (r: FileAnalyserResult)
    ensures NoDuplicates(r.dependencies)
    ensures !kind.RegularFile?
      ==> && |r.errors| == 1 && r.dependencies == []
          && !r.errors[0].canBeIgnored && r.errors[0].line == None && r.errors[0].file == file
          && r.errors[0].message == "File " + file + (if kind.Directory? then " is a directory." else " does not exist.")
    ensures kind.RegularFile? && kind.run.ParseFailed?
      ==> && r.dependencies == [] && |r.errors| == |kind.run.errors|
          && forall i :: 0 <= i < |r.errors| ==> r.errors[i] == ParseErrorToError(kind.run.errors[i], file)
  {
    match kind
    case Directory => FileAnalyserResult([InternalError("File " + file + " is a directory.", file, None, None)], [])
    case Missing => FileAnalyserResult([InternalError("File " + file + " does not exist.", file, None, None)], [])
    case RegularFile(ParseFailed(errors)) => FileAnalyserResult(ParseErrorsToErrors(errors, file), [])
    case RegularFile(Traversed(root, fileNode, visited, escape)) =>
      var state := CollectAll(Visits(root, fileNode, visited), file, analysedFiles, normalizePath);
      FileAnalyserResult(TraversalErrors(state, root, escape, file, reportUnmatchedIgnoredErrors),
                         Unique(state.fileDependencies))
  }

  /**
   * The errors of a traversal that collected `state`: when an exception
   * escaped, the errors collected so far and the exception's; otherwise
   * those, then the temporary errors on no ignored line, then a notice per
   * ignore line no error matched.
   */
  function TraversalErrors(state: Collected, root: Scope, escape: Option<Escape>, file: string,
                           reportUnmatchedIgnoredErrors: bool): seq<Error>
  {
    if escape.Some? then state.fileErrors + EscapeErrors(escape.value, file)
    else
      state.fileErrors
      + AcceptedErrors(state.temporaryFileErrors, set l | l in state.linesToIgnore)
      + (if reportUnmatchedIgnoredErrors
         then UnmatchedNotices(UnmatchedLines(Unique(state.linesToIgnore), state.temporaryFileErrors), root)
         else [])
  }

  /**
   * `analyseFile`. `reportUnmatchedIgnoredErrors` and `normalizePath` (the
   * `FileHelper`) are what the `FileAnalyser` constructor stores.
   */
  method AnalyseFile(file: string, kind: FileKind, analysedFiles: set<string>, reportUnmatchedIgnoredErrors: bool,
                     normalizePath: string -> string) returns (result: FileAnalyserResult)
    ensures result == Analyse(file, kind, analysedFiles, reportUnmatchedIgnoredErrors, normalizePath)
  {
    var fileErrors: seq<Error> := [];
    var fileDependencies: seq<string> := [];
    if kind.RegularFile? {
      match kind.run {
        case ParseFailed(errors) =>
          fileErrors := AppendParseErrors(fileErrors, errors, file);
        case Traversed(root, fileNode, visited, escape) =>
          var state := Traverse(root, fileNode, visited, file, analysedFiles, normalizePath);
          fileErrors := FinishTraversal(state, root, escape, file, reportUnmatchedIgnoredErrors);
          fileDependencies := state.fileDependencies;
      }
    } else if kind.Directory? {
      fileErrors := fileErrors + [InternalError("File " + file + " is a directory.", file, None, None)];
    } else {
      fileErrors := fileErrors + [InternalError("File " + file + " does not exist.", file, None, None)];
    }
    result := FileAnalyserResult(fileErrors, Unique(fileDependencies));
  }

  /**
   * The node callback called on the file node in the root scope, then by
   * the node scope resolver on every node it visits.
   */
  method Traverse(root: Scope, fileNode: FileNodeCall, visited: seq<Visit>, file: string, analysedFiles: set<string>,
                  normalizePath: string -> string) returns (state: Collected)
    ensures state == CollectAll(Visits(root, fileNode, visited), file, analysedFiles, normalizePath)
  {
    var callback := new NodeCallback(file, analysedFiles, normalizePath);
    ghost var visits := Visits(root, fileNode, visited);
    var first := Visit(fileNode.node, root, fileNode.outcomes, fileNode.dependencies);
    callback.Invoke(first);
    assert visits[..0] == [] && visits[0] == first;
    CollectAllStep(visits, 0, file, analysedFiles, normalizePath);
    for i := 0 to |visited|
      invariant callback.State() == CollectAll(visits[..i + 1], file, analysedFiles, normalizePath)
    {
      ghost var before := callback.State();
      callback.Invoke(visited[i]);
      assert visits[i + 1] == visited[i];
      assert callback.State() == AfterVisit(before, visits[i + 1], file, analysedFiles, normalizePath);
      CollectAllStep(visits, i + 1, file, analysedFiles, normalizePath);
    }
    assert visits[..|visited| + 1] == visits;
    state := callback.State();
  }

  /** After the traversal: the catch blocks, or the reconciliation and the unmatched-ignore notices. */
  method FinishTraversal(state: Collected, root: Scope, escape: Option<Escape>, file: string,
                         reportUnmatchedIgnoredErrors: bool) returns (fileErrors: seq<Error>)
    ensures fileErrors == TraversalErrors(state, root, escape, file, reportUnmatchedIgnoredErrors)
  {
    fileErrors := state.fileErrors;
    match escape {
      case Some(SyntaxErrors(errors)) =>
        fileErrors := AppendParseErrors(fileErrors, errors, file);
      case Some(Thrown(failure)) =>
        fileErrors := fileErrors + [FailureError(failure, file, None)];
      case None =>
        var accepted, unmatched := Reconcile(state.temporaryFileErrors, state.linesToIgnore);
        fileErrors := fileErrors + accepted;
        if reportUnmatchedIgnoredErrors {
          ghost var before := fileErrors;
          for i := 0 to |unmatched|
            invariant fileErrors == before + UnmatchedNotices(unmatched[..i], root)
          {
            UnmatchedNoticesStep(unmatched, i, root);
            fileErrors := fileErrors + [UnmatchedNotice(unmatched[i], root)];
          }
          assert unmatched[..|unmatched|] == unmatched;
        }
    }
  }

  /** The loop over the errors of a parse failure: each becomes one error. */
  method AppendParseErrors(fileErrors: seq<Error>, errors: seq<ParseError>, file: string) returns (r: seq<Error>)
    ensures r == fileErrors + ParseErrorsToErrors(errors, file)
  {
    r := fileErrors;
    for i := 0 to |errors|
      invariant r == fileErrors + ParseErrorsToErrors(errors[..i], file)
    {
      assert ParseErrorsToErrors(errors[..i + 1], file)
          == ParseErrorsToErrors(errors[..i], file) + [ParseErrorToError(errors[i], file)];
      r := r + [ParseErrorToError(errors[i], file)];
    }
    assert errors[..|errors|] == errors;
  }
}
