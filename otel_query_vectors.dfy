/**
 * The statements of the OpenTelemetry unit tests, each shown traced or not traced
 * by way of the general lemmas about leading whitespace, comments and keywords.
 * Each statement is written as the concatenation of the pieces the general lemma
 * names: comment bodies, whitespace runs, the keyword and the rest of the statement.
 */
module OtelQueryVectors {
  import opened OtelQuery

  /** A block comment, whitespace, a line comment and whitespace before a traced keyword. */
  lemma TracedAfterBlockAndLine(b1: string, w1: string, b2: string, w2: string, i: nat, rest: string)
    requires NoCloser(b1) && NoNewline(b2) && AllSpaces(w1) && AllSpaces(w2)
    requires i < |TracedKeywords|
    ensures ShouldTraceQuery("/*" + b1 + "*/" + (w1 + ("--" + b2 + "\n" + (w2 + (TracedKeywords[i] + rest)))),
                             HiveServer2, false)
  {
    var tail := TracedKeywords[i] + rest;
    TracedKeyword(i, rest);
    SkipSpaces(w2, tail);
    SkipLineComment(b2, w2 + tail);
    SkipSpaces(w1, "--" + b2 + "\n" + (w2 + tail));
    SkipBlockComment(b1, w1 + ("--" + b2 + "\n" + (w2 + tail)));
  }

  /** A line comment and whitespace before a traced keyword. */
  lemma TracedAfterLine(body: string, ws: string, i: nat, rest: string)
    requires NoNewline(body) && AllSpaces(ws) && i < |TracedKeywords|
    ensures ShouldTraceQuery("--" + body + "\n" + (ws + (TracedKeywords[i] + rest)), HiveServer2, false)
  {
    TracedKeyword(i, rest);
    SkipSpaces(ws, TracedKeywords[i] + rest);
    SkipLineComment(body, ws + (TracedKeywords[i] + rest));
  }

  /** A block comment and whitespace before a traced keyword. */
  lemma TracedAfterBlock(body: string, ws: string, i: nat, rest: string)
    requires NoCloser(body) && AllSpaces(ws) && i < |TracedKeywords|
    ensures ShouldTraceQuery("/*" + body + "*/" + (ws + (TracedKeywords[i] + rest)), HiveServer2, false)
  {
    TracedKeyword(i, rest);
    SkipSpaces(ws, TracedKeywords[i] + rest);
    SkipBlockComment(body, ws + (TracedKeywords[i] + rest));
  }

  /** A block comment and whitespace before an untraced keyword. */
  lemma UntracedAfterBlock(body: string, ws: string, i: nat, rest: string)
    requires NoCloser(body) && AllSpaces(ws) && i < |UntracedKeywords|
    ensures !ShouldTraceQuery("/*" + body + "*/" + (ws + (UntracedKeywords[i] + rest)), HiveServer2, false)
  {
    UntracedKeyword(i, rest, HiveServer2, false);
    SkipSpaces(ws, UntracedKeywords[i] + rest);
    SkipBlockComment(body, ws + (UntracedKeywords[i] + rest));
  }

  /** Two complete line comments and nothing else are not traced. */
  lemma TwoLineCommentsNotTraced(b1: string, b2: string)
    requires NoNewline(b1) && NoNewline(b2)
    ensures !ShouldTraceQuery("--" + b1 + "\n" + ("--" + b2 + "\n" + ""), HiveServer2, false)
  {
    SkipLineComment(b2, "");
    SkipLineComment(b1, "--" + b2 + "\n" + "");
  }

  /** A complete block comment and nothing else is not traced. */
  lemma BlockCommentOnlyNotTraced(body: string)
    requires NoCloser(body)
    ensures !ShouldTraceQuery("/*" + body + "*/" + "", HiveServer2, false)
  {
    SkipBlockComment(body, "");
  }

  /** A complete block comment followed by an unterminated one is not traced. */
  lemma SecondBlockUnterminatedNotTraced(b1: string, ws: string, b2: string)
    requires NoCloser(b1) && AllSpaces(ws) && NoCloser(b2)
    ensures !ShouldTraceQuery("/*" + b1 + "*/" + (ws + ("/*" + b2)), HiveServer2, false)
  {
    UnterminatedBlockNotTraced(b2, HiveServer2, false);
    SkipSpaces(ws, "/*" + b2);
    SkipBlockComment(b1, ws + ("/*" + b2));
  }

  /** A SELECT after a line comment is traced, whether or not the comment holds a block comment. */
  lemma TracedAfterLineComment()
    ensures ShouldTraceQuery("--" + " comment1" + "\n" + ("" + ("SELECT" + " 1")), HiveServer2, false)
    ensures ShouldTraceQuery("--" + " comment1/*comment2*/" + "\n" + ("" + ("SELECT" + " 1")), HiveServer2, false)
  {
    assert TracedKeywords[0] == "SELECT";
    TracedAfterLine(" comment1", "", 0, " 1");
    TracedAfterLine(" comment1/*comment2*/", "", 0, " 1");
  }

  lemma TracedAfterMixedComments(sql: string)
    requires sql == "/*" + "comment1" + "*/" + ("  " + ("--" + "comment2 " + "\n" + ("  " + ("SELECT" + " 1"))))
    ensures ShouldTraceQuery(sql, HiveServer2, false)
  {
    assert TracedKeywords[0] == "SELECT";
    StarFreeNoCloser("comment1");
    TracedAfterBlockAndLine("comment1", "  ", "comment2 ", "  ", 0, " 1");
  }

  lemma TracedAfterSelfOverlappingOpener(sql: string)
    requires sql == "/*" + "/ comment " + "*/" + ("" + ("SELECT" + "  \n  * FROM FOO"))
    ensures ShouldTraceQuery(sql, HiveServer2, false)
  {
    assert TracedKeywords[0] == "SELECT";
    StarFreeNoCloser("/ comment ");
    TracedAfterBlock("/ comment ", "", 0, "  \n  * FROM FOO");
  }

  lemma TracedWithAfterBlockAndLine(sql: string)
    requires sql == "/*" + "comment1" + "*/" + (" " + ("--" + "comment2" + "\n" + ("  " + ("WITH" + "\nT1 AS SELECT * FROM FOO"))))
    ensures ShouldTraceQuery(sql, HiveServer2, false)
  {
    assert TracedKeywords[1] == "WITH";
    StarFreeNoCloser("comment1");
    TracedAfterBlockAndLine("comment1", " ", "comment2", "  ", 1, "\nT1 AS SELECT * FROM FOO");
  }

  lemma TracedKeywordInLiteralIrrelevant(sql: string)
    requires sql == "SELECT" + " 'SELECT'"
    ensures ShouldTraceQuery(sql, HiveServer2, false)
  {
    assert TracedKeywords[0] == "SELECT";
    TracedKeyword(0, " 'SELECT'");
  }

  lemma BeeswaxVectors(sql: string)
    requires sql == "SELECT" + " * FROM foo"
    ensures ShouldTraceQuery(sql, Beeswax, true)
    ensures !ShouldTraceQuery(sql, Beeswax, false)
  {
    assert TracedKeywords[0] == "SELECT";
    TracedKeyword(0, " * FROM foo");
  }

  lemma ExplainSelectNotTraced(sql: string)
    requires sql == "EXPLAIN" + " SELECT * FROM {}"
    ensures !ShouldTraceQuery(sql, HiveServer2, false)
  {
    assert UntracedKeywords[2] == "EXPLAIN";
    UntracedKeyword(2, " SELECT * FROM {}", HiveServer2, false);
  }

  lemma RefreshAcrossNewlineNotTraced(sql: string)
    requires sql == "REFRESH" + "  \n  AUTHORIZATION"
    ensures !ShouldTraceQuery(sql, HiveServer2, false)
  {
    assert UntracedKeywords[3] == "REFRESH";
    UntracedKeyword(3, "  \n  AUTHORIZATION", HiveServer2, false);
  }

  /** A lower-case select after a block comment whose body starts with a slash is not traced. */
  lemma LowerCaseAfterSelfOverlappingOpenerNotTraced(sql: string)
    requires sql == "/*" + "/ comment " + "*/" + "select * from tbl"
    ensures !ShouldTraceQuery(sql, HiveServer2, false)
  {
    StarFreeNoCloser("/ comment ");
    SkipBlockComment("/ comment ", "select * from tbl");
    LowerCaseNotTraced("select * from tbl", HiveServer2, false);
  }

  lemma SetAfterBlockCommentNotTraced(sql: string)
    requires sql == "/*" + "comment1" + "*/" + ("   " + ("SET" + " EXPLAIN_LEVEL=0"))
    ensures !ShouldTraceQuery(sql, HiveServer2, false)
  {
    assert UntracedKeywords[4] == "SET";
    StarFreeNoCloser("comment1");
    UntracedAfterBlock("comment1", "   ", 4, " EXPLAIN_LEVEL=0");
  }

  lemma UnterminatedVectorNotTraced(sql: string)
    requires sql == "/*" + "comment not terminated select 1"
    ensures !ShouldTraceQuery(sql, HiveServer2, false)
  {
    StarFreeNoCloser("comment not terminated select 1");
    UnterminatedBlockNotTraced("comment not terminated select 1", HiveServer2, false);
  }

  lemma SecondBlockUnterminatedVectorNotTraced(sql: string)
    requires sql == "/*" + "comment1" + "*/" + (" " + ("/*" + "comment 2 not terminated select 1"))
    ensures !ShouldTraceQuery(sql, HiveServer2, false)
  {
    StarFreeNoCloser("comment1");
    StarFreeNoCloser("comment 2 not terminated select 1");
    SecondBlockUnterminatedNotTraced("comment1", " ", "comment 2 not terminated select 1");
  }

  lemma BlockCommentOnlyVectorNotTraced(sql: string)
    requires sql == "/*" + "comment only" + "*/" + ""
    ensures !ShouldTraceQuery(sql, HiveServer2, false)
  {
    StarFreeNoCloser("comment only");
    BlockCommentOnlyNotTraced("comment only");
  }

  lemma LineCommentOnlyNotTraced(sql: string)
    requires sql == "--" + "comment only"
    ensures !ShouldTraceQuery(sql, HiveServer2, false)
  {
    TrailingLineCommentNotTraced("comment only", HiveServer2, false);
  }

  lemma LineCommentsOnlyNotTraced(sql: string)
    requires sql == "--" + "comment only" + "\n" + ("--" + "comment only 2" + "\n" + "")
    ensures !ShouldTraceQuery(sql, HiveServer2, false)
  {
    TwoLineCommentsNotTraced("comment only", "comment only 2");
  }
}
