/**
 * Per-node rule dispatch: how the outcomes of the rules run on one node
 * become errors. Exceptions become errors that cannot be ignored; reported
 * rule errors become ignorable temporary errors.
 */
module RuleDispatch {
  import opened Builtins
  import opened AnalyserTypes

  function MessageOf(ruleError: RuleError): string {
    match ruleError
    case Plain(text) => text
    case Structured(message, _, _, _, _, _) => message
  }

  /**
   * The temporary error a rule error becomes on `node` visited in `scope`.
   * Its line is the node's line unless a `LineRuleError` gives a line other
   * than -1; a non-empty `FileRuleError` file replaces both the file
   * description and the file path and drops the trait file.
   */
  function RuleErrorToError(ruleError: RuleError, node: Node, scope: Scope): (e: Error)
    ensures e.canBeIgnored && e.nodeLine == Some(node.line) && e.nodeType == Some(node.kind)
    ensures e.message == MessageOf(ruleError) && e.line.Some?
    ensures e.line != Some(node.line) ==> ruleError.Structured? && e.line == ruleError.line && e.line != Some(-1)
    ensures (ruleError.Structured? && ruleError.line.Some? && ruleError.line.value != -1) ==> e.line == ruleError.line
    ensures (ruleError.Structured? && ruleError.file.Some? && ruleError.file.value != "")
      ==> e.file == ruleError.file.value && e.filePath == ruleError.file && e.traitFilePath == None
    ensures !(ruleError.Structured? && ruleError.file.Some? && ruleError.file.value != "")
      ==> e.file == scope.fileDescription && e.filePath == Some(scope.file) && e.traitFilePath == TraitFilePath(scope)
    ensures ruleError.Plain? ==> e.tip == None && e.identifier == None && e.metadata == []
    ensures ruleError.Structured?
      ==> e.tip == ruleError.tip && e.identifier == ruleError.identifier && e.metadata == ruleError.metadata
  {
    var nodeLine := node.line;
    match ruleError
    case Plain(message) =>
      Error(message, scope.fileDescription, Some(nodeLine), true, Some(scope.file), TraitFilePath(scope),
            None, Some(nodeLine), Some(node.kind), None, [])
    case Structured(message, line, file, tip, identifier, metadata) =>
      var reportedLine := if line.Some? && line.value != -1 then line.value else nodeLine;
      var fileOverridden := file.Some? && file.value != "";
      Error(message,
            if fileOverridden then file.value else scope.fileDescription,
            Some(reportedLine),
            true,
            if fileOverridden then file else Some(scope.file),
            if fileOverridden then None else TraitFilePath(scope),
            tip, Some(nodeLine), Some(node.kind), identifier, metadata)
  }

  /**
   * The errors the exceptions thrown by rules on `node` become. An
   * `AnalysedCodeException` whose message is in `seen` (already reported
   * on this node) is skipped; `IdentifierNotFound` is never skipped.
   */
  function NodeFailureErrors(outcomes: seq<RuleOutcome>, file: string, node: Node, seen: set<string>): (errors: seq<Error>)
    ensures |errors| <= |outcomes|
    ensures forall e :: e in errors ==> !e.canBeIgnored && e.line == Some(node.line) && e.file == file && e.identifier == None
    decreases |outcomes|
  {
    if outcomes == [] then []
    else
      var rest := outcomes[1..];
      match outcomes[0]
      case Reported(_) => NodeFailureErrors(rest, file, node, seen)
      case Raised(failure) =>
        if failure.AnalysedCode? && failure.message in seen then NodeFailureErrors(rest, file, node, seen)
        else
          var seen' := if failure.AnalysedCode? then seen + {failure.message} else seen;
          [FailureError(failure, file, Some(node.line))] + NodeFailureErrors(rest, file, node, seen')
  }

  /** The messages of the `AnalysedCodeException`s among the outcomes. */
  function AnalysedCodeMessages(outcomes: seq<RuleOutcome>): set<string>
    decreases |outcomes|
  {
    if outcomes == [] then {}
    else
      (if outcomes[0].Raised? && outcomes[0].failure.AnalysedCode? then {outcomes[0].failure.message} else {})
      + AnalysedCodeMessages(outcomes[1..])
  }

  /** How many `IdentifierNotFound` outcomes produce `message`. */
  function NotFoundCount(outcomes: seq<RuleOutcome>, message: string): nat
    decreases |outcomes|
  {
    if outcomes == [] then 0
    else
      (if outcomes[0].Raised? && outcomes[0].failure.IdentifierNotFound? && FailureMessage(outcomes[0].failure) == message
       then 1 else 0)
      + NotFoundCount(outcomes[1..], message)
  }

  function Messages(errors: seq<Error>): seq<string>
    decreases |errors|
  {
    if errors == [] then [] else [errors[0].message] + Messages(errors[1..])
  }

  /**
   * Per-node deduplication: each `AnalysedCodeException` message not yet
   * seen yields exactly one error, however often it is thrown, while every
   * `IdentifierNotFound` yields one error of its own.
   */
  lemma {:induction false} FailureMessageCount(outcomes: seq<RuleOutcome>, file: string, node: Node,
                                               seen: set<string>, message: string)
    ensures multiset(Messages(NodeFailureErrors(outcomes, file, node, seen)))[message]
         == (if message in AnalysedCodeMessages(outcomes) && message !in seen then 1 else 0)
            + NotFoundCount(outcomes, message)
    decreases |outcomes|
  {
    if outcomes != [] {
      var rest := outcomes[1..];
      match outcomes[0]
      case Reported(_) =>
        FailureMessageCount(rest, file, node, seen, message);
      case Raised(failure) =>
        var e := FailureError(failure, file, Some(node.line));
        if failure.AnalysedCode? {
          assert AnalysedCodeMessages(outcomes) == {failure.message} + AnalysedCodeMessages(rest);
          assert NotFoundCount(outcomes, message) == NotFoundCount(rest, message);
          if failure.message in seen {
            FailureMessageCount(rest, file, node, seen, message);
          } else {
            FailureMessageCount(rest, file, node, seen + {failure.message}, message);
            MessagesCount(e, NodeFailureErrors(rest, file, node, seen + {failure.message}), message);
          }
        } else {
          assert AnalysedCodeMessages(outcomes) == AnalysedCodeMessages(rest);
          assert NotFoundCount(outcomes, message)
              == (if e.message == message then 1 else 0) + NotFoundCount(rest, message);
          FailureMessageCount(rest, file, node, seen, message);
          MessagesCount(e, NodeFailureErrors(rest, file, node, seen), message);
        }
    }
  }

  lemma MessagesCount(e: Error, tail: seq<Error>, message: string)
    ensures multiset(Messages([e] + tail))[message]
         == (if e.message == message then 1 else 0) + multiset(Messages(tail))[message]
  {
    assert ([e] + tail)[0] == e && ([e] + tail)[1..] == tail;
    assert Messages([e] + tail) == [e.message] + Messages(tail);
  }

  /** The rule errors returned by the rules that did not throw, in registration order. */
  function ReportedRuleErrors(outcomes: seq<RuleOutcome>): seq<RuleError>
    decreases |outcomes|
  {
    if outcomes == [] then []
    else (if outcomes[0].Reported? then outcomes[0].errors else []) + ReportedRuleErrors(outcomes[1..])
  }

  function NormaliseAll(ruleErrors: seq<RuleError>, node: Node, scope: Scope): seq<Error> {
    seq(|ruleErrors|, i requires 0 <= i < |ruleErrors| => RuleErrorToError(ruleErrors[i], node, scope))
  }

  lemma NormaliseAllConcat(a: seq<RuleError>, b: seq<RuleError>, node: Node, scope: Scope)
    ensures NormaliseAll(a + b, node, scope) == NormaliseAll(a, node, scope) + NormaliseAll(b, node, scope)
  {
    var x, y := NormaliseAll(a + b, node, scope), NormaliseAll(a, node, scope) + NormaliseAll(b, node, scope);
    assert |x| == |y|;
    forall i | 0 <= i < |x|
      ensures x[i] == y[i]
    {
      if i < |a| {
        assert (a + b)[i] == a[i];
      } else {
        assert (a + b)[i] == b[i - |a|];
      }
    }
  }

  /**
   * The temporary errors of one node: every rule error returned, in order,
   * normalised; a rule that throws contributes none and stops no other rule.
   */
  function NodeTemporaryErrors(outcomes: seq<RuleOutcome>, node: Node, scope: Scope): (errors: seq<Error>)
    ensures forall e :: e in errors ==> e.canBeIgnored && e.line.Some? && e.nodeLine == Some(node.line)
    decreases |outcomes|
  {
    if outcomes == [] then []
    else
      var first := if outcomes[0].Reported? then outcomes[0].errors else [];
      var tail := NodeTemporaryErrors(outcomes[1..], node, scope);
      NormaliseAll(first, node, scope) + tail
  }

  lemma {:induction false} ReportedRuleErrorsConcat(a: seq<RuleOutcome>, b: seq<RuleOutcome>)
    ensures ReportedRuleErrors(a + b) == ReportedRuleErrors(a) + ReportedRuleErrors(b)
    decreases |a|
  {
    if a == [] {
      assert a + b == b;
    } else {
      assert (a + b)[0] == a[0];
      assert (a + b)[1..] == a[1..] + b;
      ReportedRuleErrorsConcat(a[1..], b);
    }
  }

  /** The temporary errors of a node are its reported rule errors, in order, each normalised. */
  lemma {:induction false} NodeTemporaryErrorsNormalised(outcomes: seq<RuleOutcome>, node: Node, scope: Scope)
    ensures NodeTemporaryErrors(outcomes, node, scope) == NormaliseAll(ReportedRuleErrors(outcomes), node, scope)
    decreases |outcomes|
  {
    if outcomes != [] {
      var first := if outcomes[0].Reported? then outcomes[0].errors else [];
      NodeTemporaryErrorsNormalised(outcomes[1..], node, scope);
      NormaliseAllConcat(first, ReportedRuleErrors(outcomes[1..]), node, scope);
    }
  }

  lemma ReportedSkipsFailure(before: seq<RuleOutcome>, failure: Failure, after: seq<RuleOutcome>)
    ensures ReportedRuleErrors(before + [Raised(failure)] + after) == ReportedRuleErrors(before + after)
  {
    ReportedRuleErrorsConcat(before + [Raised(failure)], after);
    ReportedRuleErrorsConcat(before, [Raised(failure)]);
    ReportedRuleErrorsConcat(before, after);
    assert ReportedRuleErrors([Raised(failure)]) == [] by {
      assert [Raised(failure)][1..] == [];
    }
  }

  /** A rule that throws on a node leaves the temporary errors of the other rules unchanged. */
  lemma FailureSkipsOnlyItsRule(before: seq<RuleOutcome>, failure: Failure, after: seq<RuleOutcome>,
                                node: Node, scope: Scope)
    ensures NodeTemporaryErrors(before + [Raised(failure)] + after, node, scope)
         == NodeTemporaryErrors(before + after, node, scope)
  {
    ReportedSkipsFailure(before, failure, after);
    NodeTemporaryErrorsNormalised(before + [Raised(failure)] + after, node, scope);
    NodeTemporaryErrorsNormalised(before + after, node, scope);
  }
}
