/**
 * Ignore comments: which source line a `@phpstan-ignore-next-line` or
 * `@phpstan-ignore-line` comment suppresses, and the lines a node's
 * comments suppress.
 */
module IgnoreComments {
  import opened Builtins
  import opened AnalyserTypes

  const IGNORE_NEXT_LINE := "@phpstan-ignore-next-line"
  const IGNORE_LINE := "@phpstan-ignore-line"

  /**
   * The line a comment stands on: the end line of a doc comment; for other
   * comments the start line when the text is one line or a `//` comment,
   * the end line otherwise.
   */
  function OwnLine(comment: Comment): (line: int)
    ensures comment.kind == Doc ==> line == comment.endLine
    ensures (comment.kind == Regular && (!Contains(comment.text, "\n") || StartsWith(comment.text, "//")))
      ==> line == comment.startLine
    ensures (comment.kind == Regular && Contains(comment.text, "\n") && !StartsWith(comment.text, "//"))
      ==> line == comment.endLine
  {
    if comment.kind == Doc then comment.endLine
    else if StrPos(comment.text, "\n").None? || StrPos(comment.text, "//") == Some(0) then comment.startLine
    else comment.endLine
  }

  /**
   * The line a comment suppresses, if any. The next-line marker is looked
   * for first, so it wins when both markers are present.
   */
  function FindLineToIgnoreComment(comment: Comment): (r: Option<int>)
    ensures Contains(comment.text, IGNORE_NEXT_LINE) ==> r == Some(OwnLine(comment) + 1)
    ensures (!Contains(comment.text, IGNORE_NEXT_LINE) && Contains(comment.text, IGNORE_LINE))
      ==> r == Some(OwnLine(comment))
    ensures !Contains(comment.text, IGNORE_NEXT_LINE) && !Contains(comment.text, IGNORE_LINE) ==> r == None
  {
    var line := OwnLine(comment);
    if StrPos(comment.text, IGNORE_NEXT_LINE).Some? then Some(line + 1)
    else if StrPos(comment.text, IGNORE_LINE).Some? then Some(line)
    else None
  }

  /** The comments the analyser looks at on a node: its doc comment, then its comments. */
  function CommentsOf(node: Node): seq<Comment> {
    (if node.docComment.Some? then [node.docComment.value] else []) + node.comments
  }

  /** The suppressed lines of a list of comments, in comment order. */
  function IgnoreLines(comments: seq<Comment>): (lines: seq<int>)
    ensures |lines| <= |comments|
    ensures forall l :: l in lines <==> exists c :: c in comments && FindLineToIgnoreComment(c) == Some(l)
  {
    if comments == [] then []
    else
      var init, last := comments[..|comments| - 1], comments[|comments| - 1];
      assert comments == init + [last];
      IgnoreLines(init) + (match FindLineToIgnoreComment(last) case Some(l) => [l] case None => [])
  }

  /** One more comment adds the line it suppresses, if any, at the end. */
  lemma IgnoreLinesStep(first: seq<Comment>, comments: seq<Comment>, i: nat)
    requires i < |comments|
    ensures IgnoreLines(first + comments[..i + 1])
         == IgnoreLines(first + comments[..i])
            + (match FindLineToIgnoreComment(comments[i]) case Some(l) => [l] case None => [])
  {
    var all := first + comments[..i + 1];
    assert all[..|all| - 1] == first + comments[..i] && all[|all| - 1] == comments[i];
  }

  /** `getLinesToIgnore`: the lines the comments attached to `node` suppress. */
  method GetLinesToIgnore(node: Node) returns (lines: seq<int>)
    ensures lines == IgnoreLines(CommentsOf(node))
    ensures forall l :: l in lines <==> exists c :: c in CommentsOf(node) && FindLineToIgnoreComment(c) == Some(l)
  {
    lines := [];
    var doc := if node.docComment.Some? then [node.docComment.value] else [];
    if node.docComment.Some? {
      var line := FindLineToIgnoreComment(node.docComment.value);
      if line.Some? {
        lines := lines + [line.value];
      }
    }
    assert [] + doc == doc;
    for i := 0 to |node.comments|
      invariant lines == IgnoreLines(doc + node.comments[..i])
    {
      var line := FindLineToIgnoreComment(node.comments[i]);
      IgnoreLinesStep(doc, node.comments, i);
      if line.None? {
        continue;
      }
      lines := lines + [line.value];
    }
    assert node.comments[..|node.comments|] == node.comments;
  }
}
