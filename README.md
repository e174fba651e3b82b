# PHPStan `FileAnalyser` in Dafny

This project models PHPStan's per-file analysis step, `FileAnalyser::analyseFile`
(src/Analyser/FileAnalyser.php), and proves properties of it. The step works as follows:

- The parser reads a file and the node scope resolver walks its nodes.
- For every visited node, a closure runs the rules registered for the node's type.
  - An `AnalysedCodeException` or an `IdentifierNotFound` thrown by a rule becomes an error that cannot be ignored.
  - Each rule error returned becomes a *temporary* error, which can be ignored.
  - The closure also collects the lines that the node's `@phpstan-ignore-next-line` / `@phpstan-ignore-line` comments suppress.
  - It collects the analysed files the node depends on.
- After the walk, the temporary errors are reconciled with the ignored lines. Errors on an ignored line are dropped.
- Optionally, each ignore line that matched no error is reported as a notice with identifier `ignoredError.unmatchedOnLine`.
- Directories, missing paths, parse errors and exceptions that escape the walk each take their own branch.

The collaborators are inputs of the model:
- the parser, the scope factory, the node scope resolver, the rule registry with its rules, the dependency resolver and `FileHelper::normalizePath`;
- a `FileKind` says whether the path is a directory, is missing, or is a regular file;
- for a regular file, a `Run` gives what parsing and traversal produced:
  - each `Visit` holds a node, its scope, one outcome per registered rule (errors returned or exception thrown) and the dependency lookup's result;
  - the exception that escaped the walk, if any.
- A single `PhpParser\Error` and a `ParserErrorsException` are both given as a list of parse errors; the former is a list of one.

Modules:
- `Builtins`: PHP's `strpos`, and `array_unique` (first occurrence kept). It also has `%d` formatting.
- `AnalyserTypes`: comments, nodes, scopes, rule errors, rule outcomes, `Error`, `FileAnalyserResult`.
- `IgnoreComments`: `findLineToIgnoreComment` and `getLinesToIgnore`.
- `Dependencies`: `resolveDependencies`.
- `RuleDispatch`: the rule loop of the node callback: exception handling with per-node message deduplication, and rule-error normalisation.
- `Reconciliation`: the loop that matches temporary errors against ignored lines, and the unmatched-line notices.
- `FileAnalyser`:
  - the node callback as class `NodeCallback`, whose fields are the variables the closure captures by reference;
  - `analyseFile` as method `AnalyseFile`, proved equal to the function `Analyse`.
- `AnalyserProperties`: properties of whole runs.

Three points of `analyseFile` worth knowing:
- The result lists errors in this order:
  1. the errors written during the walk (rule exceptions);
  2. the temporary errors that were kept;
  3. the unmatched-ignore notices.
- The reconciliation loop *skips* a temporary error without a line or one that cannot be ignored; it does not keep it. Every temporary error is ignorable and has a line (`RuleDispatch.NodeTemporaryErrors`), so those branches never fire.
- An exception escaping the walk keeps the dependencies collected so far, as well as the errors.

## Model

| member | source | states |
|---|---|---|
| Builtins.StrPos | src/Analyser/FileAnalyser.php:275-285 | `strpos` finds no position exactly when the needle does not occur; it finds 0 exactly when the text starts with it; a found position is an occurrence |
| Builtins.Unique | src/Analyser/FileAnalyser.php:240 | `array_unique` keeps each element once and loses none |
| Builtins.UniqueOfUniqueSegment | src/Analyser/FileAnalyser.php:164-165 | deduplicating a segment before appending it to a list that is deduplicated later changes nothing |
| AnalyserTypes.FailureError | src/Analyser/FileAnalyser.php:84-94 | an exception becomes an error that cannot be ignored, with the given file and line, no identifier, the exception's message or "Reflection error: X not found.", and the tip of an `AnalysedCodeException` |
| AnalyserTypes.ParseErrorToError | src/Analyser/FileAnalyser.php:223-228 | a parse error becomes an error that cannot be ignored, on the analysed file, with its message; start line -1 becomes no line |
| IgnoreComments.OwnLine | src/Analyser/FileAnalyser.php:271-280 | a doc comment stands on its end line; a regular comment stands on its start line when its text has no newline or starts with `//`, otherwise on its end line |
| IgnoreComments.FindLineToIgnoreComment | src/Analyser/FileAnalyser.php:269-290 | a comment containing `@phpstan-ignore-next-line` suppresses the line after its own line, even when it also contains `@phpstan-ignore-line`; otherwise `@phpstan-ignore-line` suppresses its own line; otherwise nothing is suppressed |
| IgnoreComments.IgnoreLines | src/Analyser/FileAnalyser.php:247-267 | a line is collected exactly when one of the comments suppresses it; there are at most as many lines as comments |
| IgnoreComments.GetLinesToIgnore | src/Analyser/FileAnalyser.php:247-267 | the loop collects the suppressed lines of the doc comment, then of the comments (which may contain the doc comment again, so its line may be collected twice), in order; a line is collected exactly when one of the node's comments suppresses it |
| Dependencies.KeptDependencies | src/Analyser/FileAnalyser.php:306-322 | a dependency is kept exactly when some reflection has a file name that normalises to it, that file differs from the scope's file, and it is an analysed file |
| Dependencies.ResolveDependencies | src/Analyser/FileAnalyser.php:298-325 | the keyed array yields the kept dependencies once each, in first-seen order, with no duplicates, never the scope's file and never a file outside the analysed files |
| RuleDispatch.RuleErrorToError | src/Analyser/FileAnalyser.php:97-155 | a rule error becomes an ignorable error with the node's line and type as `nodeLine`/`nodeType`; its line is the node line unless a `LineRuleError` gives a line other than -1; a non-empty `FileRuleError` file replaces both file name and path and clears the trait file; otherwise the scope's file description, file and trait file are used; tip, identifier and metadata are copied |
| RuleDispatch.NodeFailureErrors | src/Analyser/FileAnalyser.php:79-95 | the exceptions of a node give at most one error per rule, each not ignorable, on the node's line and the analysed file, with no identifier |
| RuleDispatch.FailureMessageCount | src/Analyser/FileAnalyser.php:79-95 | on one node, a message appears once if some `AnalysedCodeException` carries it (and it has not been seen), plus once per `IdentifierNotFound` giving it |
| RuleDispatch.NodeTemporaryErrors | src/Analyser/FileAnalyser.php:81-157 | every temporary error of a node can be ignored, has a line, and has the node's line as `nodeLine` |
| RuleDispatch.NodeTemporaryErrorsNormalised | src/Analyser/FileAnalyser.php:97-156 | the temporary errors of a node are the rule errors returned, in rule order, each normalised |
| RuleDispatch.FailureSkipsOnlyItsRule | src/Analyser/FileAnalyser.php:82-95 | a rule that throws adds no temporary errors and does not stop the other rules on that node |
| Reconciliation.AcceptedErrors | src/Analyser/FileAnalyser.php:183-198 | an error is kept exactly when it can be ignored, has a line and that line is not ignored; at most as many are kept as there were |
| Reconciliation.UnmatchedLines | src/Analyser/FileAnalyser.php:181-195 | a line is unmatched exactly when it is an ignore line that no ignorable error is reported on; no line repeats when the keys do not |
| Reconciliation.RemoveLine | src/Analyser/FileAnalyser.php:193 | `unset` removes exactly that line |
| Reconciliation.UnmatchedLinesStep | src/Analyser/FileAnalyser.php:188-195 | one more temporary error removes its own line from the unmatched lines if it can be ignored, and otherwise changes nothing |
| Reconciliation.Reconcile | src/Analyser/FileAnalyser.php:181-198 | the loop keeps exactly the temporary errors on no ignored line, in order, and leaves, in first-collected order and without repeats, exactly the ignore lines that no error matched |
| Reconciliation.UnmatchedNotice | src/Analyser/FileAnalyser.php:202-220 | the notice for line N has the message `No error to ignore is reported on line N.`, line N, the root scope's file description, file and trait file, cannot be ignored, carries the identifier `ignoredError.unmatchedOnLine`, and has no tip, node line, node type or metadata |
| FileAnalyser.CollectAll | src/Analyser/FileAnalyser.php:75-180 | over a whole walk, every error written directly cannot be ignored and has no identifier; every temporary error can be ignored and has a line |
| FileAnalyser.NodeCallback.constructor | src/Analyser/FileAnalyser.php:68-74 | the captured lists start empty |
| FileAnalyser.NodeCallback.Invoke | src/Analyser/FileAnalyser.php:75-172 | one call appends the node's exception errors, its deduplicated dependencies (none when the lookup throws), its ignore lines and its temporary errors, and changes nothing else |
| FileAnalyser.RunRules | src/Analyser/FileAnalyser.php:79-157 | the rule loop yields the node's exception errors (each `AnalysedCodeException` message once) and its temporary errors |
| FileAnalyser.NormaliseRuleErrors | src/Analyser/FileAnalyser.php:97-156 | the loop over one rule's errors normalises each, in order |
| FileAnalyser.EscapeErrors | src/Analyser/FileAnalyser.php:223-233 | parse errors escaping the walk give one error per parse error, in order, each as `ParseErrorToError`; an `AnalysedCodeException` or `IdentifierNotFound` gives exactly one error without a line; none can be ignored, none has an identifier, all are on the analysed file |
| FileAnalyser.Analyse | src/Analyser/FileAnalyser.php:61-241 | a directory or missing path gives one non-ignorable error without a line and no dependencies; a parse failure gives one error per parse error and no dependencies; dependencies never repeat |
| FileAnalyser.AnalyseFile | src/Analyser/FileAnalyser.php:61-241 | the method returns what `Analyse` says |
| FileAnalyser.Traverse | src/Analyser/FileAnalyser.php:174-180 | the callback is called on the file node in the root scope, then on every visited node, and collects `CollectAll` of them |
| FileAnalyser.FinishTraversal | src/Analyser/FileAnalyser.php:181-233 | after the walk, the errors are those of the catch block taken, or those of reconciliation followed by the notices |
| FileAnalyser.AppendParseErrors | src/Analyser/FileAnalyser.php:225-228 | the loop appends one error per parse error |
| AnalyserProperties.EscapedTraversalResult | src/Analyser/FileAnalyser.php:223-233 | when an exception escapes the walk, the errors collected so far come first, followed by exactly the errors of the catch block that caught it; the dependencies are kept; no error of the result can be ignored and none is an unmatched-ignore notice, even with the flag set |
| AnalyserProperties.CompletedOutputOrder | src/Analyser/FileAnalyser.php:181-222 | after a completed walk, the result is the errors collected during the walk, then the kept temporary errors in their original order, then the unmatched-ignore notices (none when the flag is unset) |
| AnalyserProperties.CompletedTraversalResult | src/Analyser/FileAnalyser.php:181-198 | after a completed walk, every ignorable error of the result is a temporary error on no ignored line, every such temporary error is there, and every other error was collected during the walk or is a notice |
| AnalyserProperties.UnmatchedNoticesResult | src/Analyser/FileAnalyser.php:200-222 | with the flag set, there is exactly one notice per ignore line no error matched, in first-collected order, none repeated, all after every other error; with it unset, there are none |
| AnalyserProperties.NoticeLinesOfNotices | src/Analyser/FileAnalyser.php:201-220 | each unmatched line becomes one notice carrying that line |
| AnalyserProperties.CollectedDependenciesFirstSeen | src/Analyser/FileAnalyser.php:240 | deduplicating per node and then per file gives every dependency once, in the order it was first seen across the nodes |
| AnalyserProperties.TraversalDependencies | src/Analyser/FileAnalyser.php:163-171 | a traversed file's dependencies are exactly the ones some visited node yields, once each, first-seen order, all analysed files |

## Left out

- `is_file`, `is_dir` and `Parser::parseFile` are I/O. The input `FileKind` stands for them, and `Run` holds the parse errors or the traversal.
- `ScopeFactory::create`, `NodeScopeResolver::processNodes`, `Registry::getRules` and the rules are not part of this model. Their observable effect is an input: the visited nodes, each with its scope and one outcome per rule. An exception thrown while the root scope is created, before the file node is visited, is not modelled.
- `DependencyResolver::resolveDependencies` is an input per visit: the reflections' file names, or a lookup that threw. `FileHelper::normalizePath` is an uninterpreted function parameter.
- Exceptions other than `AnalysedCodeException`, `IdentifierNotFound`, `PhpParser\Error` and `ParserErrorsException` propagate out of `analyseFile`: from a rule (only the first two are caught at src/Analyser/FileAnalyser.php:84-95), from the dependency lookup (only the first two are swallowed at :167-171) or from the walk (:223-233). The model has no such outcome: a rule outcome, a dependency lookup and an escape can only be one of the caught kinds.
- The outer node callback is left out. It is called before the rules and does not affect the result.
- `sprintf` is modelled only for `%d` of a line number and `%s` of a string.
- Rule-error metadata values are strings; PHP allows mixed values.
- PHP strings are byte strings; the model uses Dafny's character strings. The `strpos` tests look only for ASCII markers (`\n`, `//`, the two ignore markers), which give the same answers either way.
- The class name of a node (`get_class`) is the node's `kind` string.
- Traits: a scope's trait reflection is given as an optional file name, standing for `isInTrait()` and `getFileName()`.
- The type algebra (`ObjectType`, `UnionType`, `TrinaryLogic`) and the ternary-operator rule test are not part of this model.
