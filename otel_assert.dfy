/**
 * What the end-to-end trace assertions expect of a query's trace.
 *
 * A query's trace has a root span and up to six child spans, one per stage.
 * Once the stage named as the failing one has been reached, every later stage
 * that is present is expected to carry the query's status as its error
 * message; Planning and AdmissionControl then also expect the ERROR status.
 * The Init and Submitted spans are asserted with an empty error message
 * whatever the error state, because their assertion helpers take none.
 */
module OtelAssert {
  import opened Wrappers
  import opened Strings
  import opened OtelValues
  import opened OtelSpans

  /** The child stages, in the order the assertions visit them. */
  const Stages: seq<string> :=
    ["Init", "Submitted", "Planning", "AdmissionControl", "QueryExecution", "Close"]

  /** The status value a stage's span is expected to carry. */
  datatype ExpectedStatus =
    | Initialized                  // the INITIALIZED query state
    | Pending                      // the PENDING query state
    | ErrorState                   // the ERROR query state
    | ProfileState(state: string)  // the state read from the query profile

  /** What the assertions check of one present stage. */
  datatype StageCheck = StageCheck(stage: string, errMsg: string, status: ExpectedStatus)

  /** The profile's status line, with "OK" read as no error. */
  function NormalizeStatus(queryStatus: string): (r: string)
    ensures r == "" <==> queryStatus == "OK" || queryStatus == ""
    ensures queryStatus != "OK" ==> r == queryStatus
  {
    if queryStatus == "OK" then "" else queryStatus
  }

  // ---------------------------------------------------------------------------
  // The error chain
  // ---------------------------------------------------------------------------

  /** Stage `k` is present and is the one named as failing. */
  predicate FailsAt(k: nat, errSpan: string, missing: seq<string>)
    requires k < |Stages|
  {
    Stages[k] !in missing && Stages[k] == errSpan
  }

  /** The error flag after stage `k`: that stage, or an earlier one, is the failing one. */
  predicate ErroredBy(k: nat, errSpan: string, missing: seq<string>)
    requires k < |Stages|
  {
    FailsAt(k, errSpan, missing) || (k > 0 && ErroredBy(k - 1, errSpan, missing))
  }

  /** The flag is set after stage `k` exactly when a present stage at or before `k` failed. */
  lemma {:induction false} ErroredByMeansEarlierFailure(k: nat, errSpan: string, missing: seq<string>)
    requires k < |Stages|
    ensures ErroredBy(k, errSpan, missing) <==> exists j :: 0 <= j <= k && FailsAt(j, errSpan, missing)
  {
    if k > 0 {
      ErroredByMeansEarlierFailure(k - 1, errSpan, missing);
      if !FailsAt(k, errSpan, missing) && exists j :: 0 <= j <= k && FailsAt(j, errSpan, missing) {
        var j :| 0 <= j <= k && FailsAt(j, errSpan, missing);
        assert j <= k - 1;
      }
    } else if exists j :: 0 <= j <= k && FailsAt(j, errSpan, missing) {
      var j :| 0 <= j <= k && FailsAt(j, errSpan, missing);
      assert j == 0;
    }
  }

  /** The check of present stage `k`. */
  function CheckOf(k: nat, errSpan: string, missing: seq<string>, status: string, state: string): StageCheck
    requires k < |Stages|
  {
    var errored := ErroredBy(k, errSpan, missing);
    var msg := if k >= 2 && errored then status else "";
    var st :=
      if k <= 1 then Initialized
      else if k == 2 then (if errored then ErrorState else Initialized)
      else if k == 3 then (if errored then ErrorState else Pending)
      else ProfileState(state);
    StageCheck(Stages[k], msg, st)
  }

  /** The check of stage `k` if it is present, else nothing. */
  function Opt(k: nat, errSpan: string, missing: seq<string>, status: string, state: string): seq<StageCheck>
    requires k < |Stages|
  {
    if Stages[k] in missing then [] else [CheckOf(k, errSpan, missing, status, state)]
  }

  /** The checks of the present stages before `k`, in stage order. */
  function ChecksThrough(k: nat, errSpan: string, missing: seq<string>, status: string, state: string): seq<StageCheck>
    requires k <= |Stages|
  {
    if k == 0 then [] else ChecksThrough(k - 1, errSpan, missing, status, state) + Opt(k - 1, errSpan, missing, status, state)
  }

  /** The checks of every present stage. */
  function ExpectedChecks(errSpan: string, missing: seq<string>, status: string, state: string): seq<StageCheck> {
    ChecksThrough(|Stages|, errSpan, missing, status, state)
  }

  /**
   * The stage part of `assert_trace`: one check per present stage, with the
   * error flag threaded from stage to stage. `status` is the normalized query
   * status and `state` the query state from the profile.
   */
  method StageChecks(errSpan: string, missing: seq<string>, status: string, state: string)
    returns (checks: seq<StageCheck>)
    ensures checks == ExpectedChecks(errSpan, missing, status, state)
  {
    var inError := false;
    checks := [];
    checks, inError := StageStep(0, errSpan, missing, status, state, checks, inError);  // Init
    checks, inError := StageStep(1, errSpan, missing, status, state, checks, inError);  // Submitted
    checks, inError := StageStep(2, errSpan, missing, status, state, checks, inError);  // Planning
    checks, inError := StageStep(3, errSpan, missing, status, state, checks, inError);  // AdmissionControl
    checks, inError := StageStep(4, errSpan, missing, status, state, checks, inError);  // QueryExecution
    checks, inError := StageStep(5, errSpan, missing, status, state, checks, inError);  // Close
  }

  /**
   * One stage of `assert_trace`: nothing when the stage is missing, else its
   * check; the stage puts the trace in error when it is the failing one or an
   * earlier stage already did. Init and Submitted carry no error message, and
   * only Planning and AdmissionControl switch their status to ERROR.
   */
  method StageStep(k: nat, errSpan: string, missing: seq<string>, status: string, state: string,
                   done: seq<StageCheck>, inError: bool)
    returns (checks: seq<StageCheck>, errored: bool)
    requires k < |Stages|
    requires done == ChecksThrough(k, errSpan, missing, status, state)
    requires inError <==> k > 0 && ErroredBy(k - 1, errSpan, missing)
    ensures checks == ChecksThrough(k + 1, errSpan, missing, status, state)
    ensures errored <==> ErroredBy(k, errSpan, missing)
  {
    errored := inError;
    checks := done;
    if Stages[k] !in missing {
      var msg := "";
      var st := if k <= 2 then Initialized else if k == 3 then Pending else ProfileState(state);
      if errSpan == Stages[k] || inError {
        errored := true;
        if k >= 2 {
          msg := status;
        }
        if k == 2 || k == 3 {
          st := ErrorState;
        }
      }
      checks := checks + [StageCheck(Stages[k], msg, st)];
    }
  }

  /**
   * The error message follows on from the failing stage `j`: every present
   * stage from Planning on, at or after it, expects the query status; every
   * stage before it, and Init and Submitted always, expect none, and no stage
   * before it expects the ERROR status.
   */
  lemma ErrorFollowsOn(k: nat, j: nat, errSpan: string, missing: seq<string>, status: string, state: string)
    requires j < |Stages| && k < |Stages|
    requires FailsAt(j, errSpan, missing)
    ensures j <= k && 2 <= k ==> CheckOf(k, errSpan, missing, status, state).errMsg == status
    ensures j <= k && (k == 2 || k == 3) ==> CheckOf(k, errSpan, missing, status, state).status == ErrorState
    ensures k < j || k < 2 ==> CheckOf(k, errSpan, missing, status, state).errMsg == ""
    ensures k < j ==> CheckOf(k, errSpan, missing, status, state).status != ErrorState
  {
    ErroredByMeansEarlierFailure(k, errSpan, missing);
    if k < j {
      StagesDistinct();
      assert forall i :: 0 <= i <= k ==> !FailsAt(i, errSpan, missing);
    }
  }

  /** Without a present failing stage no stage expects an error. */
  lemma NoErrorWithoutFailingStage(k: nat, errSpan: string, missing: seq<string>, status: string, state: string)
    requires k < |Stages|
    requires errSpan !in Stages || errSpan in missing
    ensures CheckOf(k, errSpan, missing, status, state).errMsg == ""
    ensures CheckOf(k, errSpan, missing, status, state).status != ErrorState
  {
    ErroredByMeansEarlierFailure(k, errSpan, missing);
  }

  /** The child span count `assert_trace` expects. */
  function ExpectedChildCount(missing: seq<string>): int {
    6 - |missing|
  }

  /**
   * When the missing stages are distinct stage names, the expected child count is
   * the number of stages that get checked.
   */
  lemma ChildCountMatchesChecks(errSpan: string, missing: seq<string>, status: string, state: string)
    requires forall i :: 0 <= i < |missing| ==> missing[i] in Stages
    requires forall i, j :: 0 <= i < j < |missing| ==> missing[i] != missing[j]
    ensures |ExpectedChecks(errSpan, missing, status, state)| == ExpectedChildCount(missing)
  {
    ChecksCount(|Stages|, errSpan, missing, status, state);
    MissingCount(missing);
  }

  const ScopeName := "org.apache.impala.impalad.query"
  const ScopeVersion := "1.0.0"

  /** `__assert_trace_common`: the expected number of child spans, and every span in the query's scope. */
  predicate TraceCommonMatches(root: SpanHeader, children: seq<SpanHeader>, expectedChildCount: int) {
    |children| == expectedChildCount
    && root.scopeName == ScopeName && root.scopeVersion == ScopeVersion
    && forall i :: 0 <= i < |children| ==> children[i].scopeName == ScopeName && children[i].scopeVersion == ScopeVersion
  }

  /** A trace that passes the common checks has exactly one child span per stage that gets checked. */
  lemma ChildSpanPerCheck(root: SpanHeader, children: seq<SpanHeader>, errSpan: string, missing: seq<string>,
                          status: string, state: string)
    requires forall i :: 0 <= i < |missing| ==> missing[i] in Stages
    requires forall i, j :: 0 <= i < j < |missing| ==> missing[i] != missing[j]
    requires TraceCommonMatches(root, children, ExpectedChildCount(missing))
    ensures |children| == |ExpectedChecks(errSpan, missing, status, state)|
  {
    ChildCountMatchesChecks(errSpan, missing, status, state);
  }

  /** How many of the stages before `k` are missing. */
  function MissingBefore(k: nat, missing: seq<string>): nat
    requires k <= |Stages|
  {
    if k == 0 then 0 else MissingBefore(k - 1, missing) + (if Stages[k - 1] in missing then 1 else 0)
  }

  /** The checks before stage `k` and the missing stages before `k` add up to `k`. */
  lemma {:induction false} ChecksCount(k: nat, errSpan: string, missing: seq<string>, status: string, state: string)
    requires k <= |Stages|
    ensures |ChecksThrough(k, errSpan, missing, status, state)| + MissingBefore(k, missing) == k
  {
    if k > 0 {
      ChecksCount(k - 1, errSpan, missing, status, state);
    }
  }

  /** Distinct stage names name as many stages. */
  lemma {:induction false} MissingCount(missing: seq<string>)
    requires forall i :: 0 <= i < |missing| ==> missing[i] in Stages
    requires forall i, j :: 0 <= i < j < |missing| ==> missing[i] != missing[j]
    ensures MissingBefore(|Stages|, missing) == |missing|
  {
    if missing == [] {
      MissingBeforeNone(|Stages|, missing);
    } else {
      var init := missing[..|missing| - 1];
      var last := missing[|missing| - 1];
      MissingCount(init);
      assert last in Stages;
      var k0 :| 0 <= k0 < |Stages| && Stages[k0] == last;
      assert missing == init + [last];
      assert last !in init;
      StagesDistinct();
      MissingBeforeAppend(|Stages|, init, k0);
    }
  }

  /** With nothing missing no stage is counted. */
  lemma {:induction false} MissingBeforeNone(k: nat, missing: seq<string>)
    requires k <= |Stages| && missing == []
    ensures MissingBefore(k, missing) == 0
  {
    if k > 0 {
      MissingBeforeNone(k - 1, missing);
    }
  }

  /** Adding one more, new, stage name to the missing ones counts it once. */
  lemma {:induction false} MissingBeforeAppend(k: nat, missing: seq<string>, k0: nat)
    requires k <= |Stages| && k0 < |Stages| && Stages[k0] !in missing
    requires forall i, j :: 0 <= i < j < |Stages| ==> Stages[i] != Stages[j]
    ensures MissingBefore(k, missing + [Stages[k0]]) == MissingBefore(k, missing) + (if k0 < k then 1 else 0)
  {
    if k > 0 {
      MissingBeforeAppend(k - 1, missing, k0);
      assert Stages[k - 1] in missing + [Stages[k0]] <==> Stages[k - 1] in missing || k - 1 == k0;
    }
  }

  /** No stage name occurs twice. */
  lemma StagesDistinct()
    ensures forall i, j :: 0 <= i < j < |Stages| ==> Stages[i] != Stages[j]
  {
  }

  // ---------------------------------------------------------------------------
  // Names and counts
  // ---------------------------------------------------------------------------

  /** The span name expected: the query id for the root, "<query id> - <stage>" else. */
  function ExpectedName(queryId: string, isRoot: bool, stage: string): string {
    if isRoot then queryId else queryId + " - " + stage
  }

  /** Attributes expected: the stage's own, plus seven common to every child span. */
  function ExpectedAttributeCount(isRoot: bool, own: nat): nat {
    if isRoot then own else 7 + own
  }

  /** The attributes each span carries beyond the common ones. */
  function OwnAttributeCount(stage: string): nat {
    if stage == "Root" then 14
    else if stage == "Init" then 9
    else if stage == "Planning" then 1
    else if stage == "AdmissionControl" || stage == "QueryExecution" then 3
    else 0
  }

  /** The "Running" attribute of a child is true exactly on the QueryExecution span. */
  function ExpectedRunning(stage: string): bool {
    stage == "QueryExecution"
  }

  /** Whether admission control is expected to report the query as queued. */
  function Queued(admissionResult: string): bool {
    !(admissionResult == "Admitted immediately" || admissionResult == "Admitted as a trivial query")
  }

  /** Events the AdmissionControl span must have: one "Queued" event when queued. */
  function AdmissionEvents(admissionResult: string): (r: seq<string>)
    ensures |r| <= 1
    ensures r == ["Queued"] <==> Queued(admissionResult)
  {
    if Queued(admissionResult) then ["Queued"] else []
  }

  /**
   * A child span's expected name ends with its own stage and with no other
   * stage, so a search by stage suffix tells the child spans apart.
   */
  lemma ChildNameIdentifiesStage(queryId: string, a: nat, b: nat)
    requires a < |Stages| && b < |Stages|
    ensures EndsWith(ExpectedName(queryId, false, Stages[a]), Stages[b]) <==> a == b
  {
    var n := ExpectedName(queryId, false, Stages[a]);
    if a == b {
      assert n[|n| - |Stages[a]|..] == Stages[a];
    } else if EndsWith(n, Stages[b]) {
      LastCharactersDistinct();
      assert false;
    }
  }

  /** The stage names all end in different letters. */
  lemma LastCharactersDistinct()
    ensures forall i, j :: 0 <= i < j < |Stages| ==> Stages[i][|Stages[i]| - 1] != Stages[j][|Stages[j]| - 1]
  {
    assert Stages[0][3] == 't' && Stages[1][8] == 'd' && Stages[2][7] == 'g';
    assert Stages[3][15] == 'l' && Stages[4][13] == 'n' && Stages[5][4] == 'e';
  }

  // ---------------------------------------------------------------------------
  // Attribute assertions
  // ---------------------------------------------------------------------------

  /** The type name an expected value is checked against. */
  function TypeOf(v: PyValue): ValType {
    GetType(AttributeValue(v))
  }

  /** `__assert_attr`: the key is present, the values compare equal and the types agree. */
  predicate AttrMatches(attributes: map<string, AttributeValue>, key: string, expected: PyValue, expectedType: ValType) {
    key in attributes && PyEq(attributes[key].value, expected) && GetType(attributes[key]) == expectedType
  }

  /**
   * The type check makes up for Python's `True == 1`: with the expected value's
   * own type, the assertion holds exactly when the stored value is that value.
   */
  lemma AttrMatchesExactly(attributes: map<string, AttributeValue>, key: string, expected: PyValue)
    ensures AttrMatches(attributes, key, expected, TypeOf(expected)) <==>
      key in attributes && attributes[key].value == expected
  {
  }

  /** Without the type check an integer 1 would pass for the boolean True. */
  lemma EqualityAloneConfusesBoolAndInt()
    ensures PyEq(PyInt(1), PyBool(true))
    ensures !AttrMatches(map["Running" := AttributeValue(PyInt(1))], "Running", PyBool(true), BoolType)
  {
  }

  // ---------------------------------------------------------------------------
  // Span assertions
  // ---------------------------------------------------------------------------

  /**
   * The value of the "Status" attribute a status stands for. The three query
   * states are the names the client library gives them.
   */
  function StatusText(st: ExpectedStatus): string {
    match st
    case Initialized => "INITIALIZED"
    case Pending => "PENDING"
    case ErrorState => "ERROR"
    case ProfileState(state) => state
  }

  /** The span and trace id the log line of a span's start reports. */
  datatype LoggedIds = LoggedIds(spanId: string, traceId: string)

  /**
   * `__assert_scopespan_common`: a root has no parent and kind 2, a child
   * has the root as parent and kind 1; the span has the expected name, the
   * ids its log line reports, flags 1, the stage's own attributes plus
   * the common ones, and the error message. A child span also names itself,
   * says whether it is the running stage and carries the expected status.
   */
  predicate ScopeSpanMatches(h: SpanHeader, attributes: map<string, AttributeValue>, queryId: string, isRoot: bool,
                             stage: string, own: nat, status: string, errMsg: string,
                             rootSpanId: string, logged: LoggedIds) {
    (if isRoot then h.parentSpanId.None? && h.kind == 2 else h.parentSpanId == Some(rootSpanId) && h.kind == 1)
    && h.name == ExpectedName(queryId, isRoot, stage)
    && h.traceId == logged.traceId && h.spanId == logged.spanId && h.flags == 1
    && |attributes| == ExpectedAttributeCount(isRoot, own)
    && (if isRoot then AttrMatches(attributes, "ErrorMessage", PyStr(errMsg), StringType)
        else ChildAttrsMatch(attributes, ExpectedName(queryId, false, stage), stage, status, errMsg))
  }

  /** The four attributes every child span is asserted to carry. */
  predicate ChildAttrsMatch(attributes: map<string, AttributeValue>, expectedName: string, stage: string,
                            status: string, errMsg: string) {
    AttrMatches(attributes, "ErrorMsg", PyStr(errMsg), StringType)
    && AttrMatches(attributes, "Name", PyStr(expectedName), StringType)
    && AttrMatches(attributes, "Running", PyBool(ExpectedRunning(stage)), BoolType)
    && AttrMatches(attributes, "Status", PyStr(status), StringType)
  }

  /** `__assert_span_events`: as many events as expected, and each expected one present. */
  predicate EventsMatch(events: map<string, int>, expected: seq<string>) {
    |events| == |expected| && forall i :: 0 <= i < |expected| ==> expected[i] in events
  }

  /**
   * The events asserted on a stage's span: none on Init, Submitted and
   * Planning, the admission events on AdmissionControl; the events of
   * QueryExecution and Close are not asserted.
   */
  function ExpectedEvents(stage: string, admissionResult: string): Option<seq<string>> {
    if stage == "Init" || stage == "Submitted" || stage == "Planning" then Some([])
    else if stage == "AdmissionControl" then Some(AdmissionEvents(admissionResult))
    else None
  }

  /** What a stage's assertion helper checks of the span it found for check `c`. */
  predicate ChildSpanMatches(h: SpanHeader, attributes: map<string, AttributeValue>, events: map<string, int>,
                             queryId: string, rootSpanId: string, logged: LoggedIds, c: StageCheck, admissionResult: string) {
    ScopeSpanMatches(h, attributes, queryId, false, c.stage, OwnAttributeCount(c.stage), StatusText(c.status), c.errMsg,
                     rootSpanId, logged)
    && (ExpectedEvents(c.stage, admissionResult).Some? ==>
          EventsMatch(events, ExpectedEvents(c.stage, admissionResult).value))
  }

  /** What `__assert_rootspan_attrs` checks in common with the child spans. */
  predicate RootSpanMatches(h: SpanHeader, attributes: map<string, AttributeValue>, queryId: string, errMsg: string,
                            logged: LoggedIds) {
    ScopeSpanMatches(h, attributes, queryId, true, "Root", OwnAttributeCount("Root"), "", errMsg, "", logged)
  }

  /**
   * `assert_trace` checks the root span and passes the span id its log line
   * reports on to the check of each child span.
   */
  predicate RootAndChildMatch(root: SpanHeader, rootAttributes: map<string, AttributeValue>, rootLogged: LoggedIds,
                              errMsg: string, h: SpanHeader, attributes: map<string, AttributeValue>,
                              events: map<string, int>, queryId: string, logged: LoggedIds, c: StageCheck,
                              admissionResult: string) {
    RootSpanMatches(root, rootAttributes, queryId, errMsg, rootLogged)
    && ChildSpanMatches(h, attributes, events, queryId, rootLogged.spanId, logged, c, admissionResult)
  }

  /** A checked child span's parent is the root span of the trace. */
  lemma ChildParentIsRoot(root: SpanHeader, rootAttributes: map<string, AttributeValue>, rootLogged: LoggedIds,
                          errMsg: string, h: SpanHeader, attributes: map<string, AttributeValue>,
                          events: map<string, int>, queryId: string, logged: LoggedIds, c: StageCheck,
                          admissionResult: string)
    requires RootAndChildMatch(root, rootAttributes, rootLogged, errMsg, h, attributes, events, queryId, logged, c,
                               admissionResult)
    ensures h.parentSpanId == Some(root.spanId) && root.parentSpanId.None?
    ensures h.kind == 1 && root.kind == 2
  {
  }

  /**
   * The checks `assert_trace` makes are those of the present stages, each
   * once: a check is expected exactly when it is the check of a present stage.
   */
  lemma ExpectedChecksMembers(errSpan: string, missing: seq<string>, status: string, state: string)
    ensures forall c :: c in ExpectedChecks(errSpan, missing, status, state) ==>
      exists m :: 0 <= m < |Stages| && Stages[m] !in missing && c == CheckOf(m, errSpan, missing, status, state)
    ensures forall m :: 0 <= m < |Stages| ==>
      (CheckOf(m, errSpan, missing, status, state) in ExpectedChecks(errSpan, missing, status, state) <==> Stages[m] !in missing)
  {
    ChecksThroughMembers(|Stages|, errSpan, missing, status, state);
    StagesDistinct();
    forall m | 0 <= m < |Stages| && CheckOf(m, errSpan, missing, status, state) in ExpectedChecks(errSpan, missing, status, state)
      ensures Stages[m] !in missing
    {
      var m' :| 0 <= m' < |Stages| && Stages[m'] !in missing
        && CheckOf(m, errSpan, missing, status, state) == CheckOf(m', errSpan, missing, status, state);
      assert Stages[m] == Stages[m'];
    }
  }

  /** The checks before stage `k` are the checks of the present stages before `k`. */
  lemma {:induction false} ChecksThroughMembers(k: nat, errSpan: string, missing: seq<string>, status: string, state: string)
    requires k <= |Stages|
    ensures forall c :: c in ChecksThrough(k, errSpan, missing, status, state) <==>
      exists m :: 0 <= m < k && Stages[m] !in missing && c == CheckOf(m, errSpan, missing, status, state)
  {
    if k > 0 {
      ChecksThroughMembers(k - 1, errSpan, missing, status, state);
      var last := CheckOf(k - 1, errSpan, missing, status, state);
      forall c ensures c in ChecksThrough(k, errSpan, missing, status, state) <==>
        exists m :: 0 <= m < k && Stages[m] !in missing && c == CheckOf(m, errSpan, missing, status, state)
      {
        if c in ChecksThrough(k, errSpan, missing, status, state) && c !in ChecksThrough(k - 1, errSpan, missing, status, state) {
          assert Stages[k - 1] !in missing && c == last;
        }
        if exists m :: 0 <= m < k && Stages[m] !in missing && c == CheckOf(m, errSpan, missing, status, state) {
          var m :| 0 <= m < k && Stages[m] !in missing && c == CheckOf(m, errSpan, missing, status, state);
          if m == k - 1 {
            assert c in Opt(k - 1, errSpan, missing, status, state);
          }
        }
      }
    }
  }

  /**
   * On the span found for stage `k`, the error message attribute is the
   * query status from the failing stage `j` on (Planning onwards) and empty
   * everywhere else; Planning and AdmissionControl report ERROR from `j` on,
   * and before `j` only a profile state can read ERROR.
   */
  lemma ErrorMessageOnSpan(k: nat, j: nat, errSpan: string, missing: seq<string>, status: string, state: string,
                           h: SpanHeader, attributes: map<string, AttributeValue>, events: map<string, int>,
                           queryId: string, rootSpanId: string, logged: LoggedIds, admissionResult: string)
    requires j < |Stages| && k < |Stages| && FailsAt(j, errSpan, missing)
    requires ChildSpanMatches(h, attributes, events, queryId, rootSpanId, logged, CheckOf(k, errSpan, missing, status, state), admissionResult)
    ensures "ErrorMsg" in attributes
    ensures attributes["ErrorMsg"].value == PyStr(if j <= k && 2 <= k then status else "")
    ensures "Status" in attributes
    ensures j <= k && (k == 2 || k == 3) ==> attributes["Status"].value == PyStr("ERROR")
    ensures k < j ==> attributes["Status"].value != PyStr("ERROR") || (4 <= k && state == "ERROR")
  {
    var c := CheckOf(k, errSpan, missing, status, state);
    ErrorFollowsOn(k, j, errSpan, missing, status, state);
    AttrMatchesExactly(attributes, "ErrorMsg", PyStr(c.errMsg));
    AttrMatchesExactly(attributes, "Status", PyStr(StatusText(c.status)));
  }

  /** Only the QueryExecution span may report itself as running. */
  lemma RunningOnlyOnExecution(k: nat, errSpan: string, missing: seq<string>, status: string, state: string,
                               h: SpanHeader, attributes: map<string, AttributeValue>, events: map<string, int>,
                               queryId: string, rootSpanId: string, logged: LoggedIds, admissionResult: string)
    requires k < |Stages|
    requires ChildSpanMatches(h, attributes, events, queryId, rootSpanId, logged, CheckOf(k, errSpan, missing, status, state), admissionResult)
    ensures "Running" in attributes && attributes["Running"].value == PyBool(k == 4)
  {
    StagesDistinct();
    AttrMatchesExactly(attributes, "Running", PyBool(ExpectedRunning(Stages[k])));
  }

  /**
   * The attribute count of each stage's span: seven common attributes plus
   * its own, 16 for Init, 7 for Submitted and Close, 8 for Planning and 10
   * for AdmissionControl and QueryExecution. A child span's parent is the root.
   */
  lemma AttributeCounts(k: nat, c: StageCheck, h: SpanHeader, attributes: map<string, AttributeValue>,
                        events: map<string, int>, queryId: string, rootSpanId: string, logged: LoggedIds,
                        admissionResult: string)
    requires k < |Stages| && c.stage == Stages[k]
    requires ChildSpanMatches(h, attributes, events, queryId, rootSpanId, logged, c, admissionResult)
    ensures |attributes| == [16, 7, 8, 10, 10, 7][k]
    ensures h.parentSpanId == Some(rootSpanId) && h.kind == 1 && h.name == queryId + " - " + Stages[k]
  {
  }

  /** The root span is named by the query id alone, has no parent, and reports the query status as its error. */
  lemma RootSpanFacts(h: SpanHeader, attributes: map<string, AttributeValue>, queryId: string, errMsg: string,
                      logged: LoggedIds)
    requires RootSpanMatches(h, attributes, queryId, errMsg, logged)
    ensures |attributes| == 14 && h.name == queryId && h.parentSpanId.None?
    ensures "ErrorMessage" in attributes && attributes["ErrorMessage"].value == PyStr(errMsg)
  {
    AttrMatchesExactly(attributes, "ErrorMessage", PyStr(errMsg));
  }

  /**
   * The spans of Init, Submitted and Planning carry no event; the span of
   * AdmissionControl carries exactly the "Queued" event when the query was
   * queued, and none otherwise.
   */
  lemma CheckedSpanEvents(k: nat, c: StageCheck, h: SpanHeader, attributes: map<string, AttributeValue>,
                          events: map<string, int>, queryId: string, rootSpanId: string, logged: LoggedIds,
                          admissionResult: string)
    requires k < |Stages| && c.stage == Stages[k]
    requires ChildSpanMatches(h, attributes, events, queryId, rootSpanId, logged, c, admissionResult)
    ensures k <= 2 ==> events == map[]
    ensures k == 3 && Queued(admissionResult) ==> events.Keys == {"Queued"}
    ensures k == 3 && !Queued(admissionResult) ==> events == map[]
  {
    if k == 3 && Queued(admissionResult) {
      assert ExpectedEvents(c.stage, admissionResult) == Some(["Queued"]);
      assert ["Queued"][0] in events;
      assert |events.Keys - {"Queued"}| == 0;
    }
  }

  // ---------------------------------------------------------------------------
  // Finding a span
  // ---------------------------------------------------------------------------

  /** The first span whose name ends with `suffix`. */
  function FirstEndingWith(spans: seq<OtelSpan>, suffix: string): Option<OtelSpan>
    reads spans
    decreases |spans|
  {
    if spans == [] then None
    else if EndsWith(spans[0].name, suffix) then Some(spans[0])
    else FirstEndingWith(spans[1..], suffix)
  }

  /** `__find_span`: the first span whose name ends with `suffix`, or a failure. */
  method FindSpan(spans: seq<OtelSpan>, suffix: string) returns (r: Result<OtelSpan, string>)
    ensures r.Success? <==> FirstEndingWith(spans, suffix).Some?
    ensures r.Success? ==> r.value == FirstEndingWith(spans, suffix).value
  {
    for i := 0 to |spans|
      invariant FirstEndingWith(spans, suffix) == FirstEndingWith(spans[i..], suffix)
    {
      if EndsWith(spans[i].name, suffix) {
        return Success(spans[i]);
      }
      assert spans[i..][1..] == spans[i + 1..];
    }
    return Failure("Span '" + suffix + "' not found");
  }

  /** The span found is one of the spans, its name ends with the suffix, and no earlier one does. */
  lemma {:induction false} FirstEndingWithSpec(spans: seq<OtelSpan>, suffix: string)
    ensures FirstEndingWith(spans, suffix).None? <==>
      forall i :: 0 <= i < |spans| ==> !EndsWith(spans[i].name, suffix)
    ensures FirstEndingWith(spans, suffix).Some? ==> exists k :: (0 <= k < |spans|
      && FirstEndingWith(spans, suffix).value == spans[k] && EndsWith(spans[k].name, suffix)
      && forall i :: 0 <= i < k ==> !EndsWith(spans[i].name, suffix))
    decreases |spans|
  {
    if spans != [] && !EndsWith(spans[0].name, suffix) {
      FirstEndingWithSpec(spans[1..], suffix);
      if FirstEndingWith(spans, suffix).Some? {
        var k :| 0 <= k < |spans[1..]| && FirstEndingWith(spans[1..], suffix).value == spans[1..][k]
          && EndsWith(spans[1..][k].name, suffix) && forall i :: 0 <= i < k ==> !EndsWith(spans[1..][i].name, suffix);
        assert forall i :: 0 <= i < k + 1 ==> !EndsWith(spans[i].name, suffix) by {
          forall i | 0 <= i < k + 1 ensures !EndsWith(spans[i].name, suffix) {
            if i > 0 {
              assert spans[i] == spans[1..][i - 1];
            }
          }
        }
      } else {
        forall i | 0 <= i < |spans| ensures !EndsWith(spans[i].name, suffix) {
          if i > 0 {
            assert spans[i] == spans[1..][i - 1];
          }
        }
      }
    }
  }

  /** The search returns the span at `k` when it is the first whose name ends with the suffix. */
  lemma {:induction false} FirstEndingWithAt(spans: seq<OtelSpan>, suffix: string, k: nat)
    requires k < |spans| && EndsWith(spans[k].name, suffix)
    requires forall i :: 0 <= i < k ==> !EndsWith(spans[i].name, suffix)
    ensures FirstEndingWith(spans, suffix) == Some(spans[k])
    decreases k
  {
    if k > 0 {
      assert !EndsWith(spans[0].name, suffix);
      assert spans[1..][k - 1] == spans[k];
      forall i | 0 <= i < k - 1 ensures !EndsWith(spans[1..][i].name, suffix) {
        assert spans[1..][i] == spans[i + 1];
      }
      FirstEndingWithAt(spans[1..], suffix, k - 1);
    }
  }

  /**
   * Among child spans named as expected for distinct stages, the search for a
   * stage finds that stage's span whatever order the spans come in.
   */
  lemma FindsStageSpan(spans: seq<OtelSpan>, stageOf: seq<nat>, queryId: string, k: nat)
    requires |stageOf| == |spans| && k < |spans|
    requires forall i :: 0 <= i < |spans| ==> (stageOf[i] < |Stages|
      && spans[i].name == ExpectedName(queryId, false, Stages[stageOf[i]]))
    requires forall i, j :: 0 <= i < j < |spans| ==> stageOf[i] != stageOf[j]
    ensures FirstEndingWith(spans, Stages[stageOf[k]]) == Some(spans[k])
  {
    var suffix := Stages[stageOf[k]];
    ChildNameIdentifiesStage(queryId, stageOf[k], stageOf[k]);
    forall i | 0 <= i < k ensures !EndsWith(spans[i].name, suffix) {
      ChildNameIdentifiesStage(queryId, stageOf[i], stageOf[k]);
    }
    FirstEndingWithAt(spans, suffix, k);
  }
}
