/**
 * Properties of a whole `analyseFile` run: what reaches the result when
 * the traversal completes or an exception escapes it, where the
 * unmatched-ignore notices come from, and what the dependencies are.
 */
module AnalyserProperties {
  import opened Builtins
  import opened AnalyserTypes
  import opened Dependencies
  import opened RuleDispatch
  import opened Reconciliation
  import opened FileAnalyser

  /** What the node callback collected during the traversal of `run`. */
  function Collection(run: Run, file: string, analysedFiles: set<string>, normalizePath: string -> string): Collected
    requires run.Traversed?
  {
    CollectAll(Visits(run.root, run.fileNode, run.visited), file, analysedFiles, normalizePath)
  }

  lemma TraversedResult(file: string, run: Run, analysedFiles: set<string>, report: bool,
                        normalizePath: string -> string)
    requires run.Traversed?
    ensures var state := Collection(run, file, analysedFiles, normalizePath);
            Analyse(file, RegularFile(run), analysedFiles, report, normalizePath)
            == FileAnalyserResult(TraversalErrors(state, run.root, run.escape, file, report), Unique(state.fileDependencies))
  {
  }

  /**
   * An exception escaping the traversal keeps the errors collected so far,
   * in front, followed by the errors of the catch block that caught it,
   * and keeps the dependencies. Every temporary error is lost and no ignore
   * line is reconciled: no error of the result can be ignored, and none is
   * an unmatched-ignore notice, whether or not they are reported.
   */
  lemma EscapedTraversalResult(file: string, run: Run, analysedFiles: set<string>, report: bool,
                               normalizePath: string -> string)
    requires run.Traversed? && run.escape.Some?
    ensures var state := Collection(run, file, analysedFiles, normalizePath);
            var r := Analyse(file, RegularFile(run), analysedFiles, report, normalizePath);
            && |state.fileErrors| <= |r.errors| && r.errors[..|state.fileErrors|] == state.fileErrors
            && r.errors[|state.fileErrors|..] == EscapeErrors(run.escape.value, file)
            && (forall e :: e in r.errors ==> !e.canBeIgnored && !IsNotice(e))
            && r.dependencies == Unique(state.fileDependencies)
  {
    TraversedResult(file, run, analysedFiles, report, normalizePath);
    EscapedErrors(Collection(run, file, analysedFiles, normalizePath), run.root, run.escape.value, file, report);
  }

  /** `EscapedTraversalResult` for any collection whose file errors cannot be ignored and carry no identifier. */
  lemma EscapedErrors(state: Collected, root: Scope, escape: Escape, file: string, report: bool)
    requires forall e :: e in state.fileErrors ==> !e.canBeIgnored && e.identifier.None?
    ensures var errors := TraversalErrors(state, root, Some(escape), file, report);
            && |state.fileErrors| <= |errors| && errors[..|state.fileErrors|] == state.fileErrors
            && errors[|state.fileErrors|..] == EscapeErrors(escape, file)
            && (forall e :: e in errors ==> !e.canBeIgnored && !IsNotice(e))
  {
    var errors := TraversalErrors(state, root, Some(escape), file, report);
    var escaped := EscapeErrors(escape, file);
    assert errors == state.fileErrors + escaped;
    assert errors[..|state.fileErrors|] == state.fileErrors;
    assert errors[|state.fileErrors|..] == escaped;
    assert forall e :: e in escaped ==> !e.canBeIgnored && e.identifier.None?;
  }

  /**
   * A completed traversal: every ignorable error of the result is a
   * temporary error on a line no comment suppresses, and every temporary
   * error on such a line is in the result; every other error was collected
   * during the traversal or is an unmatched-ignore notice.
   */
  lemma CompletedTraversalResult(file: string, run: Run, analysedFiles: set<string>, report: bool,
                                 normalizePath: string -> string)
    requires run.Traversed? && run.escape.None?
    ensures var state := Collection(run, file, analysedFiles, normalizePath);
            var r := Analyse(file, RegularFile(run), analysedFiles, report, normalizePath);
            forall e :: e in r.errors && e.canBeIgnored
              ==> e in state.temporaryFileErrors && e.line.Some? && e.line.value !in state.linesToIgnore
    ensures var state := Collection(run, file, analysedFiles, normalizePath);
            var r := Analyse(file, RegularFile(run), analysedFiles, report, normalizePath);
            forall e :: e in state.temporaryFileErrors && e.line.Some? && e.line.value !in state.linesToIgnore
              ==> e in r.errors
    ensures var state := Collection(run, file, analysedFiles, normalizePath);
            var r := Analyse(file, RegularFile(run), analysedFiles, report, normalizePath);
            forall e :: e in r.errors && !e.canBeIgnored ==> e in state.fileErrors || IsNotice(e)
  {
    TraversedResult(file, run, analysedFiles, report, normalizePath);
    CompletedErrors(Collection(run, file, analysedFiles, normalizePath), run.root, file, report);
  }

  /** `CompletedTraversalResult` for any collection whose file errors cannot be ignored. */
  lemma CompletedErrors(state: Collected, root: Scope, file: string, report: bool)
    requires forall e :: e in state.fileErrors ==> !e.canBeIgnored
    ensures var errors := TraversalErrors(state, root, None, file, report);
            && (forall e :: e in errors && e.canBeIgnored
                  ==> e in state.temporaryFileErrors && e.line.Some? && e.line.value !in state.linesToIgnore)
            && (forall e :: e in state.temporaryFileErrors && Accepted(e, set l | l in state.linesToIgnore) ==> e in errors)
            && (forall e :: e in errors && !e.canBeIgnored ==> e in state.fileErrors || IsNotice(e))
  {
    var ignored := set l | l in state.linesToIgnore;
    var accepted := AcceptedErrors(state.temporaryFileErrors, ignored);
    var notices := if report then UnmatchedNotices(UnmatchedLines(Unique(state.linesToIgnore), state.temporaryFileErrors), root)
                   else [];
    var errors := TraversalErrors(state, root, None, file, report);
    assert errors == state.fileErrors + accepted + notices;
    assert forall e :: e in notices ==> IsNotice(e);
  }

  /**
   * The order of the errors after a completed traversal: first the errors
   * collected during the traversal, then the kept temporary errors in their
   * original order, then the unmatched-ignore notices (none when the flag
   * is unset).
   */
  lemma CompletedOutputOrder(file: string, run: Run, analysedFiles: set<string>, report: bool,
                             normalizePath: string -> string)
    requires run.Traversed? && run.escape.None?
    ensures var state := Collection(run, file, analysedFiles, normalizePath);
            var r := Analyse(file, RegularFile(run), analysedFiles, report, normalizePath);
            var accepted := AcceptedErrors(state.temporaryFileErrors, set l | l in state.linesToIgnore);
            var n := |state.fileErrors| + |accepted|;
            && n <= |r.errors|
            && r.errors[..|state.fileErrors|] == state.fileErrors
            && r.errors[|state.fileErrors|..n] == accepted
            && r.errors[n..]
               == (if report
                   then UnmatchedNotices(UnmatchedLines(Unique(state.linesToIgnore), state.temporaryFileErrors), run.root)
                   else [])
  {
    TraversedResult(file, run, analysedFiles, report, normalizePath);
    CompletedOrder(Collection(run, file, analysedFiles, normalizePath), run.root, file, report);
  }

  /** `CompletedOutputOrder` for any collection. */
  lemma CompletedOrder(state: Collected, root: Scope, file: string, report: bool)
    ensures var errors := TraversalErrors(state, root, None, file, report);
            var accepted := AcceptedErrors(state.temporaryFileErrors, set l | l in state.linesToIgnore);
            var n := |state.fileErrors| + |accepted|;
            && n <= |errors|
            && errors[..|state.fileErrors|] == state.fileErrors
            && errors[|state.fileErrors|..n] == accepted
            && errors[n..]
               == (if report
                   then UnmatchedNotices(UnmatchedLines(Unique(state.linesToIgnore), state.temporaryFileErrors), root)
                   else [])
  {
    var accepted := AcceptedErrors(state.temporaryFileErrors, set l | l in state.linesToIgnore);
    var notices := if report then UnmatchedNotices(UnmatchedLines(Unique(state.linesToIgnore), state.temporaryFileErrors), root)
                   else [];
    var errors := TraversalErrors(state, root, None, file, report);
    var k, n := |state.fileErrors|, |state.fileErrors| + |accepted|;
    assert errors == state.fileErrors + accepted + notices;
    assert errors[..k] == state.fileErrors;
    assert errors[k..n] == accepted;
    assert errors[n..] == notices;
  }

  /** An unmatched-ignore notice: it cannot be ignored and carries the notice identifier. */
  predicate IsNotice(e: Error) {
    !e.canBeIgnored && e.identifier == Some(UNMATCHED_IGNORE_IDENTIFIER)
  }

  /** The lines of the unmatched-ignore notices among `errors`, in order. */
  function NoticeLines(errors: seq<Error>): seq<int>
    decreases |errors|
  {
    if errors == [] then []
    else (if IsNotice(errors[0]) && errors[0].line.Some? then [errors[0].line.value] else []) + NoticeLines(errors[1..])
  }

  lemma {:induction false} NoticeLinesConcat(a: seq<Error>, b: seq<Error>)
    ensures NoticeLines(a + b) == NoticeLines(a) + NoticeLines(b)
    decreases |a|
  {
    if a == [] {
      assert a + b == b;
    } else {
      assert (a + b)[0] == a[0] && (a + b)[1..] == a[1..] + b;
      NoticeLinesConcat(a[1..], b);
    }
  }

  lemma {:induction false} NoNoticeLines(errors: seq<Error>)
    requires forall e :: e in errors ==> !IsNotice(e)
    ensures NoticeLines(errors) == []
    decreases |errors|
  {
    if errors != [] {
      assert errors[0] in errors;
      assert forall e :: e in errors[1..] ==> e in errors;
      NoNoticeLines(errors[1..]);
    }
  }

  /** Each line passed to `UnmatchedNotices` comes back as the line of one notice, in order. */
  lemma {:induction false} NoticeLinesOfNotices(lines: seq<int>, scope: Scope)
    ensures NoticeLines(UnmatchedNotices(lines, scope)) == lines
    decreases |lines|
  {
    if lines != [] {
      var notices := UnmatchedNotices(lines, scope);
      assert notices[0] == UnmatchedNotice(lines[0], scope);
      assert notices[1..] == UnmatchedNotices(lines[1..], scope);
      NoticeLinesOfNotices(lines[1..], scope);
    }
  }

  /**
   * Unmatched-ignore notices after a completed traversal: with the flag
   * set, exactly one per ignore line that no error matched, in the order
   * the lines were first collected, all after every other error; with the
   * flag unset, none.
   */
  lemma UnmatchedNoticesResult(file: string, run: Run, analysedFiles: set<string>, report: bool,
                               normalizePath: string -> string)
    requires run.Traversed? && run.escape.None?
    ensures var state := Collection(run, file, analysedFiles, normalizePath);
            var r := Analyse(file, RegularFile(run), analysedFiles, report, normalizePath);
            && NoticeLines(r.errors)
               == (if report then UnmatchedLines(Unique(state.linesToIgnore), state.temporaryFileErrors) else [])
            && NoDuplicates(NoticeLines(r.errors))
            && (forall l :: l in NoticeLines(r.errors)
                  <==> report && l in state.linesToIgnore && !Matched(state.temporaryFileErrors, l))
    ensures var state := Collection(run, file, analysedFiles, normalizePath);
            var r := Analyse(file, RegularFile(run), analysedFiles, report, normalizePath);
            var others := |r.errors| - |NoticeLines(r.errors)|;
            && 0 <= others
            && (forall e :: e in r.errors[..others] ==> !IsNotice(e))
            && (forall e :: e in r.errors[others..] ==> IsNotice(e))
  {
    TraversedResult(file, run, analysedFiles, report, normalizePath);
    CompletedNotices(Collection(run, file, analysedFiles, normalizePath), run.root, file, report);
  }

  /** `UnmatchedNoticesResult` for any collection whose file errors carry no identifier. */
  lemma CompletedNotices(state: Collected, root: Scope, file: string, report: bool)
    requires forall e :: e in state.fileErrors ==> e.identifier == None
    ensures var errors := TraversalErrors(state, root, None, file, report);
            && NoticeLines(errors)
               == (if report then UnmatchedLines(Unique(state.linesToIgnore), state.temporaryFileErrors) else [])
            && |NoticeLines(errors)| <= |errors|
            && (forall e :: e in errors[..|errors| - |NoticeLines(errors)|] ==> !IsNotice(e))
            && (forall e :: e in errors[|errors| - |NoticeLines(errors)|..] ==> IsNotice(e))
  {
    var accepted := AcceptedErrors(state.temporaryFileErrors, set l | l in state.linesToIgnore);
    var unmatched := UnmatchedLines(Unique(state.linesToIgnore), state.temporaryFileErrors);
    var notices := if report then UnmatchedNotices(unmatched, root) else [];
    var before := state.fileErrors + accepted;
    var errors := TraversalErrors(state, root, None, file, report);
    assert errors == before + notices;
    assert forall e :: e in before ==> !IsNotice(e);
    NoNoticeLines(before);
    NoticeLinesConcat(before, notices);
    if report {
      NoticeLinesOfNotices(unmatched, root);
    }
    assert errors[..|before|] == before && errors[|before|..] == notices;
    assert forall e :: e in notices ==> IsNotice(e);
  }

  /** Every dependency any visit yields, visit after visit, repeats kept. */
  function AllKept(visits: seq<Visit>, analysedFiles: set<string>, normalizePath: string -> string): seq<string>
    decreases |visits|
  {
    if visits == [] then []
    else AllKept(visits[..|visits| - 1], analysedFiles, normalizePath) + NodeKept(visits[|visits| - 1], analysedFiles, normalizePath)
  }

  /**
   * Deduplicating per node and then per file gives the same list as
   * deduplicating every yielded dependency once: each dependency appears
   * once, at the place it was first seen across the nodes.
   */
  lemma {:induction false} CollectedDependenciesFirstSeen(visits: seq<Visit>, file: string, analysedFiles: set<string>,
                                                          normalizePath: string -> string)
    ensures Unique(CollectAll(visits, file, analysedFiles, normalizePath).fileDependencies)
         == Unique(AllKept(visits, analysedFiles, normalizePath))
    decreases |visits|
  {
    if visits != [] {
      var init, last := visits[..|visits| - 1], visits[|visits| - 1];
      CollectedDependenciesFirstSeen(init, file, analysedFiles, normalizePath);
      UniqueOfUniqueSegment(CollectAll(init, file, analysedFiles, normalizePath).fileDependencies,
                            AllKept(init, analysedFiles, normalizePath),
                            NodeKept(last, analysedFiles, normalizePath));
    }
  }

  lemma {:induction false} AllKeptMembers(visits: seq<Visit>, analysedFiles: set<string>, normalizePath: string -> string)
    ensures forall d :: d in AllKept(visits, analysedFiles, normalizePath)
                   <==> exists k :: 0 <= k < |visits| && d in NodeKept(visits[k], analysedFiles, normalizePath)
    decreases |visits|
  {
    if visits != [] {
      var init := visits[..|visits| - 1];
      AllKeptMembers(init, analysedFiles, normalizePath);
      assert forall k :: 0 <= k < |init| ==> init[k] == visits[k];
    }
  }

  /**
   * The dependencies of a traversed file, whether or not an exception
   * escaped: every dependency some visited node yields, each once, in the
   * order first seen; each is an analysed file other than the file of the
   * scope it was found in.
   */
  lemma TraversalDependencies(file: string, run: Run, analysedFiles: set<string>, report: bool,
                              normalizePath: string -> string)
    requires run.Traversed?
    ensures var visits := Visits(run.root, run.fileNode, run.visited);
            var r := Analyse(file, RegularFile(run), analysedFiles, report, normalizePath);
            && r.dependencies == Unique(AllKept(visits, analysedFiles, normalizePath))
            && NoDuplicates(r.dependencies)
            && (forall d :: d in r.dependencies
                  <==> exists k :: 0 <= k < |visits| && d in NodeKept(visits[k], analysedFiles, normalizePath))
            && (forall d :: d in r.dependencies ==> d in analysedFiles)
  {
    var visits := Visits(run.root, run.fileNode, run.visited);
    CollectedDependenciesFirstSeen(visits, file, analysedFiles, normalizePath);
    AllKeptMembers(visits, analysedFiles, normalizePath);
  }
}
