/**
 * Which SQL statements the coordinator traces with OpenTelemetry.
 *
 * A statement is traced when, after any mix of leading whitespace, `--` line
 * comments and block comments, it starts with one of the traced keywords.
 * Beeswax sessions are traced only when the `otel_trace_beeswax` flag is set;
 * the flag is a parameter here.
 */
module OtelQuery {
  import opened Wrappers
  import opened Strings

  /** The client protocol of the session that submitted the statement. */
  datatype SessionType = Beeswax | HiveServer2

  /** First keywords of the statements that are traced. */
  const TracedKeywords: seq<string> :=
    ["SELECT", "WITH", "INSERT", "CREATE", "UPDATE", "ALTER", "DELETE", "COMPUTE",
     "INVALIDATE", "DROP"]

  /** First keywords of statements that the tests require not to be traced. */
  const UntracedKeywords: seq<string> :=
    ["COMMENT", "DESCRIBE", "EXPLAIN", "REFRESH", "SET", "SHOW", "TRUNCATE", "USE",
     "VALUES", "KILL"]

  /** A block comment's terminator `*` `/` starts at index `k` of `s`. */
  predicate ClosesAt(s: string, k: int) {
    0 <= k && k + 1 < |s| && s[k] == '*' && s[k + 1] == '/'
  }

  /** `c` contains no block-comment terminator. */
  predicate NoCloser(c: string) {
    forall k :: 0 <= k < |c| ==> !ClosesAt(c, k)
  }

  /** A comment body without any `*` cannot terminate the comment. */
  lemma StarFreeNoCloser(c: string)
    requires '*' !in c
    ensures NoCloser(c)
  {
    forall k | 0 <= k < |c|
      ensures !ClosesAt(c, k)
    {
      assert c[k] in c;
    }
  }

  /** `c` contains no newline. */
  predicate NoNewline(c: string) {
    '\n' !in c
  }

  /** The first index at or after `from` where a block comment terminator starts. */
  function FindCloser(s: string, from: nat): (r: Option<nat>)
    requires from <= |s|
    ensures r.Some? ==> from <= r.value && r.value + 1 < |s|
    decreases |s| - from
  {
    if from + 1 >= |s| then None
    else if s[from] == '*' && s[from + 1] == '/' then Some(from)
    else FindCloser(s, from + 1)
  }

  /** FindCloser finds the first terminator at or after `from`, and finds none only when there is none. */
  lemma {:induction false} FindCloserSpec(s: string, from: nat)
    requires from <= |s|
    ensures FindCloser(s, from).Some? ==>
      from <= FindCloser(s, from).value && ClosesAt(s, FindCloser(s, from).value)
    ensures FindCloser(s, from).Some? ==>
      forall k :: from <= k < FindCloser(s, from).value ==> !ClosesAt(s, k)
    ensures FindCloser(s, from).None? ==> forall k :: from <= k ==> !ClosesAt(s, k)
    decreases |s| - from
  {
    if from + 1 < |s| && !(s[from] == '*' && s[from + 1] == '/') {
      FindCloserSpec(s, from + 1);
    }
  }

  /** The first index at or after `from` holding a newline. */
  function FindNewline(s: string, from: nat): (r: Option<nat>)
    requires from <= |s|
    ensures r.Some? ==> from <= r.value < |s|
    decreases |s| - from
  {
    if from == |s| then None
    else if s[from] == '\n' then Some(from)
    else FindNewline(s, from + 1)
  }

  /** FindNewline finds the first newline at or after `from`, and finds none only when there is none. */
  lemma {:induction false} FindNewlineSpec(s: string, from: nat)
    requires from <= |s|
    ensures FindNewline(s, from).Some? ==>
      from <= FindNewline(s, from).value < |s| && s[FindNewline(s, from).value] == '\n'
    ensures FindNewline(s, from).Some? ==>
      forall k :: from <= k < FindNewline(s, from).value ==> s[k] != '\n'
    ensures FindNewline(s, from).None? ==> forall k :: from <= k < |s| ==> s[k] != '\n'
    decreases |s| - from
  {
    if from < |s| && s[from] != '\n' {
      FindNewlineSpec(s, from + 1);
    }
  }

  /** `s` starts with the statement text proper: not whitespace and not a comment. */
  predicate Significant(s: string) {
    s == [] || (!IsSpace(s[0]) && !StartsWith(s, "--") && !StartsWith(s, "/*"))
  }

  /**
   * Drops leading whitespace and comments. A line comment runs to the next newline
   * or to the end; a block comment's terminator is searched for after its two
   * opening characters, so `/` `*` `/` does not close itself. An unterminated
   * block comment gives None.
   */
  function SkipIgnorable(s: string): Option<string>
    decreases |s|
  {
    if |s| == 0 then Some(s)
    else if IsSpace(s[0]) then SkipIgnorable(s[1..])
    else if StartsWith(s, "--") then
      match FindNewline(s, 2)
      case None => Some([])
      case Some(k) => SkipIgnorable(s[k + 1..])
    else if StartsWith(s, "/*") then
      match FindCloser(s, 2)
      case None => None
      case Some(k) => SkipIgnorable(s[k + 2..])
    else Some(s)
  }

  /** What is left after skipping is a suffix of the input and starts with statement text. */
  lemma {:induction false} SkipIgnorableSound(s: string)
    ensures SkipIgnorable(s).Some? ==>
      EndsWith(s, SkipIgnorable(s).value) && Significant(SkipIgnorable(s).value)
    decreases |s|
  {
    if |s| == 0 {
    } else if IsSpace(s[0]) {
      SkipSoundAfter(s, 1);
    } else if StartsWith(s, "--") {
      match FindNewline(s, 2)
      case None =>
      case Some(k) =>
        assert SkipIgnorable(s) == SkipIgnorable(s[k + 1..]);
        SkipSoundAfter(s, k + 1);
    } else if StartsWith(s, "/*") {
      match FindCloser(s, 2)
      case None =>
      case Some(k) =>
        assert SkipIgnorable(s) == SkipIgnorable(s[k + 2..]);
        SkipSoundAfter(s, k + 2);
    }
  }

  /** When skipping `s` is skipping its suffix from `i`, soundness carries over from that suffix. */
  lemma {:induction false} SkipSoundAfter(s: string, i: nat)
    requires 0 < i <= |s| && SkipIgnorable(s) == SkipIgnorable(s[i..])
    ensures SkipIgnorable(s).Some? ==>
      EndsWith(s, SkipIgnorable(s).value) && Significant(SkipIgnorable(s).value)
    decreases |s|, 0
  {
    SkipIgnorableSound(s[i..]);
    SuffixOfSuffix(s, i, SkipIgnorable(s));
  }

  /** A suffix of the suffix from `i` is a suffix of `s`. */
  lemma SuffixOfSuffix(s: string, i: nat, r: Option<string>)
    requires i <= |s|
    requires r.Some? ==> EndsWith(s[i..], r.value)
    ensures r.Some? ==> EndsWith(s, r.value)
  {
    if r.Some? {
      var t := r.value;
      assert s[i..][|s[i..]| - |t|..] == s[|s| - |t|..];
    }
  }

  /** `s` starts with one of `keywords`. */
  predicate StartsWithAny(s: string, keywords: seq<string>) {
    exists i :: 0 <= i < |keywords| && StartsWith(s, keywords[i])
  }

  /** The statement, once leading whitespace and comments are dropped, starts with a traced keyword. */
  predicate StatementTraced(sql: string) {
    match SkipIgnorable(sql)
    case None => false
    case Some(rest) => StartsWithAny(rest, TracedKeywords)
  }

  /** The model of `should_otel_trace_query(sql, session_type)`; `traceBeeswax` is the flag. */
  function ShouldTraceQuery(sql: string, session: SessionType, traceBeeswax: bool): (r: bool)
    ensures session == HiveServer2 ==> (r <==> StatementTraced(sql))
    ensures session == Beeswax ==> (r <==> traceBeeswax && StatementTraced(sql))
  {
    if session == Beeswax && !traceBeeswax then false else StatementTraced(sql)
  }

  // ---------------------------------------------------------------------------
  // Leading whitespace and comments
  // ---------------------------------------------------------------------------

  /** One piece of the text that may precede a statement. */
  datatype Ignorable =
    | Space(c: char)
    | LineComment(body: string)
    | BlockComment(body: string)

  predicate WellFormed(p: Ignorable) {
    match p
    case Space(c) => IsSpace(c)
    case LineComment(body) => NoNewline(body)
    case BlockComment(body) => NoCloser(body)
  }

  /** Every piece of `ps` is well formed. */
  predicate AllWellFormed(ps: seq<Ignorable>)
    decreases |ps|
  {
    ps == [] || (WellFormed(ps[0]) && AllWellFormed(ps[1..]))
  }

  function Render(p: Ignorable): string {
    match p
    case Space(c) => [c]
    case LineComment(body) => "--" + body + "\n"
    case BlockComment(body) => "/*" + body + "*/"
  }

  function RenderAll(ps: seq<Ignorable>): string
    decreases |ps|
  {
    if ps == [] then "" else Render(ps[0]) + RenderAll(ps[1..])
  }

  lemma RenderCons(p: Ignorable, ps: seq<Ignorable>)
    ensures RenderAll([p] + ps) == Render(p) + RenderAll(ps)
    ensures AllWellFormed([p] + ps) <==> WellFormed(p) && AllWellFormed(ps)
  {
    assert ([p] + ps)[0] == p;
    assert ([p] + ps)[1..] == ps;
  }

  lemma SkipLineComment(body: string, s: string)
    requires NoNewline(body)
    ensures SkipIgnorable("--" + body + "\n" + s) == SkipIgnorable(s)
  {
    var t := "--" + body + "\n" + s;
    var n := |body| + 2;
    assert t[..2] == "--";
    assert t[n] == '\n';
    forall k | 2 <= k < n
      ensures t[k] != '\n'
    {
      assert t[k] == body[k - 2];
      assert body[k - 2] in body;
    }
    FindNewlineSpec(t, 2);
    assert FindNewline(t, 2) == Some(n);
    assert t[n + 1..] == s;
  }

  lemma SkipBlockComment(body: string, s: string)
    requires NoCloser(body)
    ensures SkipIgnorable("/*" + body + "*/" + s) == SkipIgnorable(s)
  {
    var t := "/*" + body + "*/" + s;
    var n := |body| + 2;
    assert t[..2] == "/*";
    assert ClosesAt(t, n);
    forall k | 2 <= k < n
      ensures !ClosesAt(t, k)
    {
      if k + 1 < n {
        assert t[k] == body[k - 2] && t[k + 1] == body[k - 1];
        assert !ClosesAt(body, k - 2);
      } else {
        assert t[k + 1] == '*';
      }
    }
    FindCloserSpec(t, 2);
    assert FindCloser(t, 2) == Some(n);
    assert t[n + 2..] == s;
  }

  /** Dropping one well-formed piece leaves the rest of the scan unchanged. */
  lemma SkipOne(p: Ignorable, s: string)
    requires WellFormed(p)
    ensures SkipIgnorable(Render(p) + s) == SkipIgnorable(s)
  {
    match p
    case Space(c) =>
      assert (Render(p) + s)[1..] == s;
    case LineComment(body) =>
      SkipLineComment(body, s);
    case BlockComment(body) =>
      SkipBlockComment(body, s);
  }

  /** Every character of `ws` is whitespace. */
  predicate AllSpaces(ws: string) {
    forall i :: 0 <= i < |ws| ==> IsSpace(ws[i])
  }

  /** A run of whitespace before a statement is skipped. */
  lemma {:induction false} SkipSpaces(ws: string, s: string)
    requires AllSpaces(ws)
    ensures SkipIgnorable(ws + s) == SkipIgnorable(s)
    decreases |ws|
  {
    if ws != [] {
      assert ws + s == Render(Space(ws[0])) + (ws[1..] + s);
      SkipOne(Space(ws[0]), ws[1..] + s);
      SkipSpaces(ws[1..], s);
    } else {
      assert ws + s == s;
    }
  }

  /** Any sequence of well-formed pieces before a statement is skipped. */
  lemma {:induction false} SkipAll(ps: seq<Ignorable>, s: string)
    requires AllWellFormed(ps)
    ensures SkipIgnorable(RenderAll(ps) + s) == SkipIgnorable(s)
    decreases |ps|
  {
    if ps != [] {
      var rest := RenderAll(ps[1..]) + s;
      RenderAllSplit(ps, s);
      SkipOne(ps[0], rest);
      SkipAll(ps[1..], s);
    } else {
      assert RenderAll(ps) + s == s;
    }
  }

  lemma RenderAllSplit(ps: seq<Ignorable>, s: string)
    requires ps != []
    ensures RenderAll(ps) + s == Render(ps[0]) + (RenderAll(ps[1..]) + s)
  {
  }

  /** Leading whitespace and comments, in any sequence, do not change whether a statement is traced. */
  lemma PrefixIrrelevant(ps: seq<Ignorable>, sql: string, session: SessionType, traceBeeswax: bool)
    requires AllWellFormed(ps)
    ensures ShouldTraceQuery(RenderAll(ps) + sql, session, traceBeeswax)
         == ShouldTraceQuery(sql, session, traceBeeswax)
  {
    SkipAll(ps, sql);
  }

  /** Text made only of well-formed whitespace and comments is never traced. */
  lemma {:induction false} OnlyIgnorableNotTraced(ps: seq<Ignorable>, session: SessionType, traceBeeswax: bool)
    requires AllWellFormed(ps)
    ensures !ShouldTraceQuery(RenderAll(ps), session, traceBeeswax)
  {
    SkipAll(ps, "");
    assert RenderAll(ps) + "" == RenderAll(ps);
  }

  /** A line comment that reaches the end of the text swallows it: nothing is traced. */
  lemma TrailingLineCommentNotTraced(body: string, session: SessionType, traceBeeswax: bool)
    requires NoNewline(body)
    ensures !ShouldTraceQuery("--" + body, session, traceBeeswax)
  {
    var t := "--" + body;
    forall k | 2 <= k < |t|
      ensures t[k] != '\n'
    {
      assert t[k] == body[k - 2];
      assert body[k - 2] in body;
    }
    FindNewlineSpec(t, 2);
    assert FindNewline(t, 2) == None;
  }

  /** A block comment that is never terminated means the statement is not traced. */
  lemma UnterminatedBlockNotTraced(body: string, session: SessionType, traceBeeswax: bool)
    requires NoCloser(body)
    ensures !ShouldTraceQuery("/*" + body, session, traceBeeswax)
  {
    var t := "/*" + body;
    forall k | 2 <= k
      ensures !ClosesAt(t, k)
    {
      if k + 1 < |t| {
        assert t[k] == body[k - 2] && t[k + 1] == body[k - 1];
        assert !ClosesAt(body, k - 2);
      }
    }
    FindCloserSpec(t, 2);
    assert FindCloser(t, 2) == None;
  }

  // ---------------------------------------------------------------------------
  // Keywords
  // ---------------------------------------------------------------------------

  /** Every keyword, traced or not, starts with an upper-case letter. */
  lemma KeywordsStartWithLetter()
    ensures forall i :: 0 <= i < |TracedKeywords| ==>
      |TracedKeywords[i]| > 0 && 'A' <= TracedKeywords[i][0] <= 'Z'
    ensures forall i :: 0 <= i < |UntracedKeywords| ==>
      |UntracedKeywords[i]| > 0 && 'A' <= UntracedKeywords[i][0] <= 'Z'
  {
  }

  /** Text that starts with an upper-case letter is its own significant part. */
  lemma LetterIsSignificant(s: string)
    requires |s| > 0 && 'A' <= s[0] <= 'Z'
    ensures SkipIgnorable(s) == Some(s)
  {
    assert !StartsWith(s, "--") && !StartsWith(s, "/*") by {
      if |s| >= 2 {
        assert s[..2][0] == s[0];
      }
    }
  }

  /** A statement that starts with a traced keyword is traced, whatever follows it. */
  lemma TracedKeyword(i: nat, rest: string)
    requires i < |TracedKeywords|
    ensures ShouldTraceQuery(TracedKeywords[i] + rest, HiveServer2, false)
  {
    var s := TracedKeywords[i] + rest;
    assert s[..|TracedKeywords[i]|] == TracedKeywords[i];
    KeywordsStartWithLetter();
    assert s[0] == TracedKeywords[i][0];
    LetterIsSignificant(s);
  }

  /**
   * Neither string is a prefix of the other: they differ at some position both
   * have. Computed character by character so that it evaluates on literals.
   */
  predicate Unrelated(a: string, b: string)
    decreases |a|
  {
    |a| > 0 && |b| > 0 && (a[0] != b[0] || Unrelated(a[1..], b[1..]))
  }

  lemma {:induction false} PrefixRelated(a: string, rest: string, b: string)
    requires StartsWith(a + rest, b)
    ensures !Unrelated(a, b)
    decreases |a|
  {
    if |a| > 0 && |b| > 0 {
      assert (a + rest)[0] == b[0];
      assert StartsWith(a[1..] + rest, b[1..]) by {
        assert (a + rest)[1..] == a[1..] + rest;
        assert (a + rest)[..|b|][1..] == (a + rest)[1..][..|b| - 1];
      }
      PrefixRelated(a[1..], rest, b[1..]);
    }
  }

  /** Every untraced keyword differs from every traced one within their common length. */
  predicate UnrelatedToAll(k: string, ws: seq<string>) {
    forall j :: 0 <= j < |ws| ==> Unrelated(k, ws[j])
  }

  lemma KeywordTablesDisjoint()
    ensures forall i :: 0 <= i < |UntracedKeywords| ==> UnrelatedToAll(UntracedKeywords[i], TracedKeywords)
  {
    forall i | 0 <= i < |UntracedKeywords|
      ensures UnrelatedToAll(UntracedKeywords[i], TracedKeywords)
    {
      if i == 0 {
        UnrelatedRow0();
      } else if i == 1 {
        UnrelatedRow1();
      } else if i == 2 {
        UnrelatedRow2();
      } else if i == 3 {
        UnrelatedRow3();
      } else if i == 4 {
        UnrelatedRow4();
      } else if i == 5 {
        UnrelatedRow5();
      } else if i == 6 {
        UnrelatedRow6();
      } else if i == 7 {
        UnrelatedRow7();
      } else if i == 8 {
        UnrelatedRow8();
      } else {
        UnrelatedRow9();
      }
    }
  }

  lemma UnrelatedRow0()
    ensures UnrelatedToAll(UntracedKeywords[0], TracedKeywords)
  {
    assert UntracedKeywords[0] == "COMMENT";
  }

  lemma UnrelatedRow1()
    ensures UnrelatedToAll(UntracedKeywords[1], TracedKeywords)
  {
    assert UntracedKeywords[1] == "DESCRIBE";
  }

  lemma UnrelatedRow2()
    ensures UnrelatedToAll(UntracedKeywords[2], TracedKeywords)
  {
    assert UntracedKeywords[2] == "EXPLAIN";
  }

  lemma UnrelatedRow3()
    ensures UnrelatedToAll(UntracedKeywords[3], TracedKeywords)
  {
    assert UntracedKeywords[3] == "REFRESH";
  }

  lemma UnrelatedRow4()
    ensures UnrelatedToAll(UntracedKeywords[4], TracedKeywords)
  {
    assert UntracedKeywords[4] == "SET";
  }

  lemma UnrelatedRow5()
    ensures UnrelatedToAll(UntracedKeywords[5], TracedKeywords)
  {
    assert UntracedKeywords[5] == "SHOW";
  }

  lemma UnrelatedRow6()
    ensures UnrelatedToAll(UntracedKeywords[6], TracedKeywords)
  {
    assert UntracedKeywords[6] == "TRUNCATE";
  }

  lemma UnrelatedRow7()
    ensures UnrelatedToAll(UntracedKeywords[7], TracedKeywords)
  {
    assert UntracedKeywords[7] == "USE";
  }

  lemma UnrelatedRow8()
    ensures UnrelatedToAll(UntracedKeywords[8], TracedKeywords)
  {
    assert UntracedKeywords[8] == "VALUES";
  }

  lemma UnrelatedRow9()
    ensures UnrelatedToAll(UntracedKeywords[9], TracedKeywords)
  {
    assert UntracedKeywords[9] == "KILL";
  }

  /** A statement that starts with an untraced keyword is not traced, whatever follows it. */
  lemma UntracedKeyword(i: nat, rest: string, session: SessionType, traceBeeswax: bool)
    requires i < |UntracedKeywords|
    ensures !ShouldTraceQuery(UntracedKeywords[i] + rest, session, traceBeeswax)
  {
    var k := UntracedKeywords[i];
    var s := k + rest;
    assert s[..|k|] == k;
    KeywordsStartWithLetter();
    assert s[0] == k[0];
    LetterIsSignificant(s);
    KeywordTablesDisjoint();
    forall j | 0 <= j < |TracedKeywords|
      ensures !StartsWith(s, TracedKeywords[j])
    {
      if StartsWith(s, TracedKeywords[j]) {
        PrefixRelated(k, rest, TracedKeywords[j]);
      }
    }
  }

  /** A Beeswax session is traced exactly when the flag is set (for a traced statement). */
  lemma BeeswaxGatedByFlag(sql: string, traceBeeswax: bool)
    requires StatementTraced(sql)
    ensures ShouldTraceQuery(sql, Beeswax, traceBeeswax) == traceBeeswax
    ensures ShouldTraceQuery(sql, HiveServer2, traceBeeswax)
  {
  }

  /**
   * Keywords match as written: a statement that starts with a lower-case
   * letter is not traced.
   */
  lemma LowerCaseNotTraced(s: string, session: SessionType, traceBeeswax: bool)
    requires |s| > 0 && 'a' <= s[0] <= 'z'
    ensures !ShouldTraceQuery(s, session, traceBeeswax)
  {
    assert !StartsWith(s, "--") && !StartsWith(s, "/*") by {
      if |s| >= 2 {
        assert s[..2][0] == s[0];
      }
    }
    assert SkipIgnorable(s) == Some(s);
    KeywordsStartWithLetter();
  }

  // ---------------------------------------------------------------------------
  // Leading text before a keyword
  // ---------------------------------------------------------------------------

  /** A traced keyword after any well-formed whitespace and comments is traced. */
  lemma TracedAfter(ps: seq<Ignorable>, i: nat, rest: string)
    requires AllWellFormed(ps) && i < |TracedKeywords|
    ensures ShouldTraceQuery(RenderAll(ps) + (TracedKeywords[i] + rest), HiveServer2, false)
  {
    TracedKeyword(i, rest);
    PrefixIrrelevant(ps, TracedKeywords[i] + rest, HiveServer2, false);
  }

  /** An untraced keyword after any well-formed whitespace and comments is not traced. */
  lemma UntracedAfter(ps: seq<Ignorable>, i: nat, rest: string)
    requires AllWellFormed(ps) && i < |UntracedKeywords|
    ensures !ShouldTraceQuery(RenderAll(ps) + (UntracedKeywords[i] + rest), HiveServer2, false)
  {
    UntracedKeyword(i, rest, HiveServer2, false);
    PrefixIrrelevant(ps, UntracedKeywords[i] + rest, HiveServer2, false);
  }

}
