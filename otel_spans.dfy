/**
 * Span records of the OpenTelemetry trace reader and their grouping into traces.
 *
 * A span's attribute and event dictionaries are filled one entry at a time; the
 * spans of a trace file are then grouped by trace id, a span without a parent
 * being the root of its trace and every other span a child, and each trace is
 * indexed by the query id of its root. The index by query id refers to the same
 * trace object as the index by trace id; here it holds the trace id, so a later
 * change to the trace is seen through both.
 */
module OtelSpans {
  import opened Wrappers
  import opened OtelValues

  /** The fields of a span that adding attributes and events leaves alone. */
  datatype SpanHeader = SpanHeader(
    scopeName: string, scopeVersion: string, startTime: int, endTime: int,
    flags: int, kind: int, name: string, parentSpanId: Option<string>,
    spanId: string, traceId: string)

  class OtelSpan {
    var scopeName: string
    var scopeVersion: string
    var attributes: map<string, AttributeValue>
    var events: map<string, int>
    var startTime: int
    var endTime: int
    var flags: int
    var kind: int
    var name: string
    var parentSpanId: Option<string>
    var spanId: string
    var traceId: string
    /** The value of the "QueryId" attribute, or "" until one is added. */
    var queryId: PyValue

    function Header(): SpanHeader
      reads this
    {
      SpanHeader(scopeName, scopeVersion, startTime, endTime, flags, kind, name,
                 parentSpanId, spanId, traceId)
    }

    constructor ()
      ensures Header() == SpanHeader("", "", 0, 0, -1, -1, "", None, "", "")
      ensures attributes == map[] && events == map[]
      ensures queryId == PyStr("")
    {
      scopeName := "";
      scopeVersion := "";
      attributes := map[];
      events := map[];
      startTime := 0;
      endTime := 0;
      flags := -1;
      kind := -1;
      name := "";
      parentSpanId := None;
      spanId := "";
      traceId := "";
      queryId := PyStr("");
    }

    /** A root span is one without a parent. */
    predicate IsRoot()
      reads this
    {
      parentSpanId.None?
    }

    /** Stores or replaces one attribute; the "QueryId" attribute also sets the query id. */
    method AddAttribute(key: string, value: AttributeValue)
      modifies this
      ensures attributes == old(attributes)[key := value]
      ensures queryId == (if key == "QueryId" then value.value else old(queryId))
      ensures events == old(events) && Header() == old(Header())
    {
      attributes := attributes[key := value];
      if key == "QueryId" {
        queryId := value.value;
      }
    }

    /**
     * Records an event at `timeUnixNano`, a decimal string; a later event with the
     * same name replaces the earlier one. Text that is not an integer fails and
     * leaves the span as it was.
     */
    method AddEvent(eventName: string, timeUnixNano: string) returns (r: Outcome<string>)
      modifies this
      ensures r.Pass? <==> ParseInt(timeUnixNano).Some?
      ensures r.Pass? ==> events == old(events)[eventName := ParseInt(timeUnixNano).value]
      ensures r.Fail? ==> events == old(events)
      ensures attributes == old(attributes) && queryId == old(queryId)
      ensures Header() == old(Header())
    {
      match ParseInt(timeUnixNano)
      case None =>
        r := Fail("Could not convert time_unix_nano '" + timeUnixNano + "' to an integer");
      case Some(t) =>
        events := events[eventName := t];
        r := Pass;
    }

    /**
     * Adds a span's events in order, as the parser does for each span; the
     * first time that is not an integer fails.
     */
    method AddEvents(run: seq<(string, string)>) returns (r: Outcome<string>)
      modifies this
      ensures r.Pass? <==> AllTimesParse(run)
      ensures r.Pass? ==> events == EventsAfter(old(events), ParsedEvents(run))
      ensures attributes == old(attributes) && queryId == old(queryId)
      ensures Header() == old(Header())
    {
      var i := 0;
      while i < |run|
        invariant 0 <= i <= |run|
        invariant AllTimesParse(run[..i])
        invariant events == EventsAfter(old(events), ParsedEvents(run[..i]))
        invariant attributes == old(attributes) && queryId == old(queryId)
        invariant Header() == old(Header())
      {
        r := AddEvent(run[i].0, run[i].1);
        if r.Fail? {
          return;
        }
        assert run[..i + 1] == run[..i] + [run[i]];
        assert ParsedEvents(run[..i + 1]) == ParsedEvents(run[..i]) + [(run[i].0, ParseInt(run[i].1).value)];
        i := i + 1;
      }
      assert run[..i] == run;
      r := Pass;
    }
  }

  /** Every event time of a run parses as an integer. */
  predicate AllTimesParse(run: seq<(string, string)>) {
    forall i :: 0 <= i < |run| ==> ParseInt(run[i].1).Some?
  }

  /** A run of events with their times read as integers. */
  function ParsedEvents(run: seq<(string, string)>): seq<(string, int)>
    requires AllTimesParse(run)
  {
    seq(|run|, i requires 0 <= i < |run| => (run[i].0, ParseInt(run[i].1).value))
  }

  /** One event per name with its last time: what a run of AddEvent calls leaves. */
  function EventsAfter(events: map<string, int>, added: seq<(string, int)>): (r: map<string, int>)
    ensures forall e :: e in r <==> e in events || exists i :: 0 <= i < |added| && added[i].0 == e
    decreases |added|
  {
    if added == [] then events
    else EventsAfter(events, added[..|added| - 1])[added[|added| - 1].0 := added[|added| - 1].1]
  }

  lemma {:induction false} EventsAfterKeepsLast(events: map<string, int>, added: seq<(string, int)>, k: nat)
    requires k < |added|
    requires forall j :: k < j < |added| ==> added[j].0 != added[k].0
    ensures EventsAfter(events, added)[added[k].0] == added[k].1
    decreases |added|
  {
    if k < |added| - 1 {
      EventsAfterKeepsLast(events, added[..|added| - 1], k);
    }
  }

  // ---------------------------------------------------------------------------
  // Grouping
  // ---------------------------------------------------------------------------

  /** A trace: its root span once one is seen, and its other spans in input order. */
  datatype Trace = Trace(traceId: string, root: Option<OtelSpan>, children: seq<OtelSpan>)

  /** The two dictionaries the grouping builds; `byQuery` maps a query id key to a trace id. */
  datatype TraceIndex = TraceIndex(byTrace: map<string, Trace>, byQuery: map<PyValue, string>)

  /** One step of the grouping loop. */
  function AddSpan(ix: TraceIndex, s: OtelSpan): TraceIndex
    reads s
  {
    var t := if s.traceId in ix.byTrace then ix.byTrace[s.traceId] else Trace(s.traceId, None, []);
    if s.parentSpanId.None? then
      TraceIndex(ix.byTrace[s.traceId := t.(root := Some(s))], ix.byQuery[DictKey(s.queryId) := s.traceId])
    else
      TraceIndex(ix.byTrace[s.traceId := t.(children := t.children + [s])], ix.byQuery)
  }

  /** The dictionaries after the grouping loop has seen `spans`. */
  function Grouped(spans: seq<OtelSpan>): TraceIndex
    reads spans
    decreases |spans|
  {
    if spans == [] then TraceIndex(map[], map[])
    else AddSpan(Grouped(spans[..|spans| - 1]), spans[|spans| - 1])
  }

  /** The grouping loop of `parse_trace_file`. */
  method GroupSpans(spans: seq<OtelSpan>) returns (ix: TraceIndex)
    ensures ix == Grouped(spans)
  {
    ix := TraceIndex(map[], map[]);
    for i := 0 to |spans|
      invariant ix == Grouped(spans[..i])
    {
      var s := spans[i];
      if s.traceId !in ix.byTrace {
        ix := ix.(byTrace := ix.byTrace[s.traceId := Trace(s.traceId, None, [])]);
      }
      if s.IsRoot() {
        var t := ix.byTrace[s.traceId];
        ix := TraceIndex(ix.byTrace[s.traceId := t.(root := Some(s))],
                         ix.byQuery[DictKey(s.queryId) := s.traceId]);
      } else {
        var t := ix.byTrace[s.traceId];
        ix := ix.(byTrace := ix.byTrace[s.traceId := t.(children := t.children + [s])]);
      }
      assert spans[..i + 1][..i] == spans[..i];
    }
    assert spans[..|spans|] == spans;
  }

  /** The non-root spans of trace `tid`, in input order. */
  function ChildrenOf(spans: seq<OtelSpan>, tid: string): seq<OtelSpan>
    reads spans
    decreases |spans|
  {
    if spans == [] then []
    else
      var last := spans[|spans| - 1];
      ChildrenOf(spans[..|spans| - 1], tid)
        + (if last.traceId == tid && last.parentSpanId.Some? then [last] else [])
  }

  /** The last root span of trace `tid`: later roots replace earlier ones. */
  function LastRootOf(spans: seq<OtelSpan>, tid: string): Option<OtelSpan>
    reads spans
    decreases |spans|
  {
    if spans == [] then None
    else
      var last := spans[|spans| - 1];
      if last.traceId == tid && last.parentSpanId.None? then Some(last)
      else LastRootOf(spans[..|spans| - 1], tid)
  }

  /** The trace id of the last root span whose query id is the key `q`. */
  function LastTraceForQuery(spans: seq<OtelSpan>, q: PyValue): Option<string>
    reads spans
    decreases |spans|
  {
    if spans == [] then None
    else
      var last := spans[|spans| - 1];
      if last.parentSpanId.None? && DictKey(last.queryId) == q then Some(last.traceId)
      else LastTraceForQuery(spans[..|spans| - 1], q)
  }

  /**
   * What the grouping builds: one trace per trace id that occurs, holding the
   * last root span of that id and all its other spans in input order; and, for
   * every query id of a root span, the trace of the last such root.
   */
  lemma GroupedContents(spans: seq<OtelSpan>)
    ensures forall tid :: tid in Grouped(spans).byTrace <==> exists s :: s in spans && s.traceId == tid
    ensures forall tid :: tid in Grouped(spans).byTrace ==>
      Grouped(spans).byTrace[tid] == Trace(tid, LastRootOf(spans, tid), ChildrenOf(spans, tid))
    ensures forall q :: q in Grouped(spans).byQuery <==> LastTraceForQuery(spans, q).Some?
    ensures forall q :: q in Grouped(spans).byQuery ==>
      Grouped(spans).byQuery[q] == LastTraceForQuery(spans, q).value
  {
    GroupedTraceIds(spans);
    GroupedTraces(spans);
    GroupedQueries(spans);
  }

  lemma {:induction false} GroupedTraceIds(spans: seq<OtelSpan>)
    ensures forall tid :: tid in Grouped(spans).byTrace <==> exists s :: s in spans && s.traceId == tid
    decreases |spans|
  {
    if spans != [] {
      var init := spans[..|spans| - 1];
      GroupedTraceIds(init);
      var s := spans[|spans| - 1];
      assert s in spans;
      forall tid ensures tid in Grouped(spans).byTrace <==> exists x :: x in spans && x.traceId == tid {
        if tid in Grouped(spans).byTrace && tid != s.traceId {
          var x :| x in init && x.traceId == tid;
          assert x in spans;
        }
        if tid != s.traceId && (exists x :: x in spans && x.traceId == tid) {
          var x :| x in spans && x.traceId == tid;
          assert x in init;
        }
      }
    }
  }

  lemma {:induction false} GroupedTraces(spans: seq<OtelSpan>)
    ensures forall tid :: tid in Grouped(spans).byTrace ==>
      Grouped(spans).byTrace[tid] == Trace(tid, LastRootOf(spans, tid), ChildrenOf(spans, tid))
    decreases |spans|
  {
    if spans != [] {
      var init := spans[..|spans| - 1];
      GroupedTraces(init);
      GroupedTraceIds(init);
      var s := spans[|spans| - 1];
      if s.traceId !in Grouped(init).byTrace {
        NoSpansOfTrace(init, s.traceId);
      }
    }
  }

  /** A trace id that no span carries has no root and no children. */
  lemma {:induction false} NoSpansOfTrace(spans: seq<OtelSpan>, tid: string)
    requires forall s :: s in spans ==> s.traceId != tid
    ensures LastRootOf(spans, tid) == None && ChildrenOf(spans, tid) == []
    decreases |spans|
  {
    if spans != [] {
      assert spans[|spans| - 1] in spans;
      var init := spans[..|spans| - 1];
      forall s | s in init ensures s.traceId != tid {
        var i :| 0 <= i < |init| && init[i] == s;
        assert spans[i] == s;
      }
      NoSpansOfTrace(init, tid);
    }
  }

  lemma {:induction false} GroupedQueries(spans: seq<OtelSpan>)
    ensures forall q :: q in Grouped(spans).byQuery <==> LastTraceForQuery(spans, q).Some?
    ensures forall q :: q in Grouped(spans).byQuery ==>
      Grouped(spans).byQuery[q] == LastTraceForQuery(spans, q).value
    decreases |spans|
  {
    if spans != [] {
      GroupedQueries(spans[..|spans| - 1]);
    }
  }

  /** Every span ends up in the trace of its trace id, as the root or as a child. */
  lemma {:induction false} EverySpanPlaced(spans: seq<OtelSpan>, k: nat)
    requires k < |spans|
    ensures spans[k].traceId in Grouped(spans).byTrace
    ensures spans[k].parentSpanId.Some? ==> spans[k] in Grouped(spans).byTrace[spans[k].traceId].children
    ensures spans[k].parentSpanId.None? ==> Grouped(spans).byTrace[spans[k].traceId].root.Some?
  {
    GroupedContents(spans);
    assert spans[k] in spans;
    if spans[k].parentSpanId.Some? {
      ChildInChildren(spans, k);
    } else {
      RootFound(spans, k);
    }
  }

  lemma {:induction false} ChildInChildren(spans: seq<OtelSpan>, k: nat)
    requires k < |spans| && spans[k].parentSpanId.Some?
    ensures spans[k] in ChildrenOf(spans, spans[k].traceId)
    decreases |spans|
  {
    if k < |spans| - 1 {
      ChildInChildren(spans[..|spans| - 1], k);
    }
  }

  lemma {:induction false} RootFound(spans: seq<OtelSpan>, k: nat)
    requires k < |spans| && spans[k].parentSpanId.None?
    ensures LastRootOf(spans, spans[k].traceId).Some?
    decreases |spans|
  {
    if k < |spans| - 1 {
      RootFound(spans[..|spans| - 1], k);
    }
  }

  /** A query id always leads to a trace that exists and has a root span. */
  lemma {:induction false} IndexedTracesHaveRoots(spans: seq<OtelSpan>, q: PyValue)
    requires q in Grouped(spans).byQuery
    ensures Grouped(spans).byQuery[q] in Grouped(spans).byTrace
    ensures Grouped(spans).byTrace[Grouped(spans).byQuery[q]].root.Some?
    decreases |spans|
  {
    var init := spans[..|spans| - 1];
    var s := spans[|spans| - 1];
    if !(s.parentSpanId.None? && DictKey(s.queryId) == q) {
      GroupedContents(spans);
      IndexedTracesHaveRoots(init, q);
    }
  }

  // ---------------------------------------------------------------------------
  // Lookup
  // ---------------------------------------------------------------------------

  datatype LookupError =
    | NoRootSpans           // no span of the file is a root
    | NoTraceForQuery       // no root span carries the query id
    | TraceWasNone          // the query index names no trace
    | NoRootSpan            // the trace found has no root span

  /** The checks at the end of `parse_trace_file`, in their order. */
  function FindTrace(ix: TraceIndex, queryId: string): (r: Result<Trace, LookupError>)
    ensures r.Success? <==>
      PyStr(queryId) in ix.byQuery && ix.byQuery[PyStr(queryId)] in ix.byTrace
      && ix.byTrace[ix.byQuery[PyStr(queryId)]].root.Some?
    ensures r == Failure(NoRootSpans) <==> ix.byQuery == map[]
    ensures r.Success? ==> r.value == ix.byTrace[ix.byQuery[PyStr(queryId)]]
  {
    if |ix.byQuery| == 0 then Failure(NoRootSpans)
    else if PyStr(queryId) !in ix.byQuery then Failure(NoTraceForQuery)
    else if ix.byQuery[PyStr(queryId)] !in ix.byTrace then Failure(TraceWasNone)
    else
      var t := ix.byTrace[ix.byQuery[PyStr(queryId)]];
      if t.root.None? then Failure(NoRootSpan) else Success(t)
  }

  /**
   * On what the grouping builds, the two later checks never fail: the lookup
   * succeeds exactly when some root span carries the query id.
   */
  lemma LookupAfterGrouping(spans: seq<OtelSpan>, queryId: string)
    ensures FindTrace(Grouped(spans), queryId) != Failure(TraceWasNone)
    ensures FindTrace(Grouped(spans), queryId) != Failure(NoRootSpan)
    ensures FindTrace(Grouped(spans), queryId).Success? <==>
      LastTraceForQuery(spans, PyStr(queryId)).Some?
  {
    GroupedContents(spans);
    if PyStr(queryId) in Grouped(spans).byQuery {
      IndexedTracesHaveRoots(spans, PyStr(queryId));
    }
  }
}
