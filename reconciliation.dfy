/**
 * Reconciliation after traversal: temporary errors on a line some ignore
 * comment suppresses are dropped, the others kept in order, and the ignore
 * lines no error matched are reported back.
 */
module Reconciliation {
  import opened Builtins
  import opened AnalyserTypes

  /** `error` can be matched against ignore line `line`: it is ignorable and reported on `line`. */
  predicate MatchesLine(error: Error, line: int) {
    error.canBeIgnored && error.line == Some(line)
  }

  /** Some error of `errors` is matched against ignore line `line`. */
  predicate Matched(errors: seq<Error>, line: int) {
    exists i :: 0 <= i < |errors| && MatchesLine(errors[i], line)
  }

  /** An error the reconciliation keeps: ignorable, with a line that no comment suppresses. */
  predicate Accepted(error: Error, ignoredLines: set<int>) {
    error.canBeIgnored && error.line.Some? && error.line.value !in ignoredLines
  }

  /** The errors reconciliation keeps, in their original order. */
  function AcceptedErrors(errors: seq<Error>, ignoredLines: set<int>): (accepted: seq<Error>)
    ensures |accepted| <= |errors|
    ensures forall e :: e in accepted <==> e in errors && Accepted(e, ignoredLines)
  {
    if errors == [] then []
    else
      var init, last := errors[..|errors| - 1], errors[|errors| - 1];
      assert errors == init + [last];
      AcceptedErrors(init, ignoredLines) + (if Accepted(last, ignoredLines) then [last] else [])
  }

  /** The ignore lines among `keys` that no error of `errors` matched, in key order. */
  function UnmatchedLines(keys: seq<int>, errors: seq<Error>): (unmatched: seq<int>)
    ensures forall l :: l in unmatched <==> l in keys && !Matched(errors, l)
    ensures NoDuplicates(keys) ==> NoDuplicates(unmatched)
    decreases |keys|
  {
    if keys == [] then []
    else
      var rest := UnmatchedLines(keys[1..], errors);
      assert forall l :: l in keys <==> l == keys[0] || l in keys[1..];
      (if Matched(errors, keys[0]) then [] else [keys[0]]) + rest
  }

  /** `unset($unmatchedLineIgnores[$line])`. */
  function RemoveLine(lines: seq<int>, line: int): (r: seq<int>)
    ensures forall l :: l in r <==> l in lines && l != line
    decreases |lines|
  {
    if lines == [] then []
    else (if lines[0] == line then [] else [lines[0]]) + RemoveLine(lines[1..], line)
  }

  lemma {:induction false} RemoveAbsentLine(lines: seq<int>, line: int)
    requires line !in lines
    ensures RemoveLine(lines, line) == lines
    decreases |lines|
  {
    if lines != [] {
      RemoveAbsentLine(lines[1..], line);
      assert [lines[0]] + lines[1..] == lines;
    }
  }

  lemma MatchedAppend(errors: seq<Error>, error: Error, line: int)
    ensures Matched(errors + [error], line) <==> Matched(errors, line) || MatchesLine(error, line)
  {
    var all := errors + [error];
    if Matched(all, line) {
      var i :| 0 <= i < |all| && MatchesLine(all[i], line);
      if i < |errors| { assert all[i] == errors[i]; }
    }
    if Matched(errors, line) {
      var i :| 0 <= i < |errors| && MatchesLine(errors[i], line);
      assert all[i] == errors[i];
    }
    if MatchesLine(error, line) { assert all[|errors|] == error; }
  }

  lemma {:induction false} RemoveLineConcat(a: seq<int>, b: seq<int>, line: int)
    ensures RemoveLine(a + b, line) == RemoveLine(a, line) + RemoveLine(b, line)
    decreases |a|
  {
    if a == [] {
      assert a + b == b;
    } else {
      assert (a + b)[0] == a[0] && (a + b)[1..] == a[1..] + b;
      RemoveLineConcat(a[1..], b, line);
    }
  }

  /** One more error: it removes its own line from the unmatched lines, if it can be matched at all. */
  lemma {:induction false} UnmatchedLinesStep(keys: seq<int>, errors: seq<Error>, error: Error)
    ensures UnmatchedLines(keys, errors + [error])
         == if error.canBeIgnored && error.line.Some?
            then RemoveLine(UnmatchedLines(keys, errors), error.line.value)
            else UnmatchedLines(keys, errors)
    decreases |keys|
  {
    if keys != [] {
      UnmatchedLinesStep(keys[1..], errors, error);
      var k := keys[0];
      MatchedAppend(errors, error, k);
      if error.canBeIgnored && error.line.Some? {
        var line := error.line.value;
        var head := if Matched(errors, k) then [] else [k];
        var rest := UnmatchedLines(keys[1..], errors);
        RemoveLineConcat(head, rest, line);
        assert RemoveLine(head, line) == if Matched(errors, k) || k == line then [] else [k] by {
          if head != [] { assert head[1..] == []; }
        }
      }
    }
  }

  /**
   * The reconciliation loop of `analyseFile`: keeps the temporary errors on
   * no ignored line, in order, and reports, in the order the lines were
   * first collected, each ignore line that matched no error.
   */
  method Reconcile(temporaryFileErrors: seq<Error>, linesToIgnore: seq<int>)
    returns (accepted: seq<Error>, unmatched: seq<int>)
    ensures accepted == AcceptedErrors(temporaryFileErrors, set l | l in linesToIgnore)
    ensures unmatched == UnmatchedLines(Unique(linesToIgnore), temporaryFileErrors)
    ensures forall e :: e in accepted ==> e.line.Some? && e.line.value !in linesToIgnore
    ensures NoDuplicates(unmatched)
    ensures forall l :: l in unmatched <==> l in linesToIgnore && !Matched(temporaryFileErrors, l)
  {
    var keys := Unique(linesToIgnore);
    ghost var ignored := set l | l in linesToIgnore;
    accepted, unmatched := [], keys;
    NoneMatched(keys);
    for i := 0 to |temporaryFileErrors|
      invariant accepted == AcceptedErrors(temporaryFileErrors[..i], ignored)
      invariant unmatched == UnmatchedLines(keys, temporaryFileErrors[..i])
    {
      var error := temporaryFileErrors[i];
      ghost var done := temporaryFileErrors[..i + 1];
      assert done[..i] == temporaryFileErrors[..i] && done[i] == error;
      assert done == temporaryFileErrors[..i] + [error];
      UnmatchedLinesStep(keys, temporaryFileErrors[..i], error);
      if error.line.None? {
        continue;
      }
      if !error.canBeIgnored {
        continue;
      }
      var line := error.line.value;
      if line in keys {
        unmatched := RemoveLine(unmatched, line);
        continue;
      }
      RemoveAbsentLine(unmatched, line);
      accepted := accepted + [error];
    }
    assert temporaryFileErrors[..|temporaryFileErrors|] == temporaryFileErrors;
  }

  lemma {:induction false} NoneMatched(keys: seq<int>)
    ensures UnmatchedLines(keys, []) == keys
    decreases |keys|
  {
    if keys != [] {
      NoneMatched(keys[1..]);
      assert [keys[0]] + keys[1..] == keys;
    }
  }

  /** `No error to ignore is reported on line N.`, reported in the top-level scope. */
  function UnmatchedNotice(line: int, scope: Scope): (e: Error)
    ensures !e.canBeIgnored && e.line == Some(line) && e.identifier == Some(UNMATCHED_IGNORE_IDENTIFIER)
    ensures e.file == scope.fileDescription && e.filePath == Some(scope.file) && e.traitFilePath == TraitFilePath(scope)
    ensures e.message == "No error to ignore is reported on line " + IntToString(line) + "."
    ensures e.tip.None? && e.nodeLine.None? && e.nodeType.None? && e.metadata == []
  {
    Error("No error to ignore is reported on line " + IntToString(line) + ".",
          scope.fileDescription, Some(line), false, Some(scope.file), TraitFilePath(scope),
          None, None, None, Some(UNMATCHED_IGNORE_IDENTIFIER), [])
  }

  function UnmatchedNotices(lines: seq<int>, scope: Scope): seq<Error> {
    seq(|lines|, i requires 0 <= i < |lines| => UnmatchedNotice(lines[i], scope))
  }

  lemma UnmatchedNoticesStep(lines: seq<int>, i: nat, scope: Scope)
    requires i < |lines|
    ensures UnmatchedNotices(lines[..i + 1], scope) == UnmatchedNotices(lines[..i], scope) + [UnmatchedNotice(lines[i], scope)]
  {
    var x, y := UnmatchedNotices(lines[..i + 1], scope), UnmatchedNotices(lines[..i], scope) + [UnmatchedNotice(lines[i], scope)];
    assert |x| == |y|;
    forall k | 0 <= k < |x|
      ensures x[k] == y[k]
    {
      assert lines[..i + 1][k] == lines[k];
      if k < i {
        assert lines[..i][k] == lines[k];
      }
    }
  }
}
