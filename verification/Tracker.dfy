/** In-memory telemetry totals (tracker.go): a session, the totals restored from the last
    run, and a revision that counts the calls recorded. */
module Tracker {
  import opened CallCounters
  import opened Text

  /** What a tool handler reports; any integer may come in. */
  datatype Record = Record(tool: string, request: int, response: int, inputSaved: int, outputSaved: int,
                           logicalCalls: int)

  /** `normalizeCallRecord` */
  function NormalizeCall(r: Record): Call {
    var request, response := NonNegativeOr0(r.request), NonNegativeOr0(r.response);
    var inputSaved, outputSaved := NonNegativeOr0(r.inputSaved), NonNegativeOr0(r.outputSaved);
    Call(NormalizeToolName(r.tool),
         Counters(AtLeastOneCall(r.logicalCalls), request, response, request + response,
                  inputSaved, outputSaved, inputSaved + outputSaved))
  }

  /** Of a recorded call, values that are in range are kept; the others become 0 tokens or one
      call. Totals are the sums of their parts. */
  lemma NormalizedCall(r: Record)
    ensures var c := NormalizeCall(r).counters;
      c.request == (if r.request >= 0 then r.request else 0) && c.response == (if r.response >= 0 then r.response else 0)
      && c.inputSaved == (if r.inputSaved >= 0 then r.inputSaved else 0)
      && c.outputSaved == (if r.outputSaved >= 0 then r.outputSaved else 0)
      && c.calls == (if r.logicalCalls >= 1 then r.logicalCalls else 1)
      && c.total == c.request + c.response && c.saved == c.inputSaved + c.outputSaved
  {
    hide NormalizeToolName;
  }

  lemma NormalizedBalances(r: Record)
    ensures var c := NormalizeCall(r).counters; Balanced(c) && NonNegative(c) && c.calls >= 1
  {
    hide NormalizeToolName;
  }

  /** Every recorded call has a tool. */
  lemma NormalizedTool(r: Record)
    ensures NormalizeCall(r).tool == if TrimSpace(r.tool) != "" then TrimSpace(r.tool) else "unknown"
  {
    hide TrimSpace;
  }

  datatype Session = Session(counters: Counters, tools: Tools)

  datatype Cumulative = Cumulative(sessions: int, counters: Counters, tools: Tools)

  datatype State = State(session: Session, cumulative: Cumulative, revision: nat)

  /** The shared rule of `normalizeCumulativeSnapshot` and `normalizeToolBreakdown`: a missing
      total is rebuilt from its parts, then nothing stays negative. */
  function NormalizeCounters(c: Counters): Counters {
    var request, response := NonNegativeOr0(c.request), NonNegativeOr0(c.response);
    var inputSaved, outputSaved := NonNegativeOr0(c.inputSaved), NonNegativeOr0(c.outputSaved);
    var total := if c.total == 0 && (request > 0 || response > 0) then request + response else c.total;
    var saved := if c.saved == 0 && (inputSaved > 0 || outputSaved > 0) then inputSaved + outputSaved else c.saved;
    Counters(NonNegativeOr0(c.calls), request, response, NonNegativeOr0(total),
             inputSaved, outputSaved, NonNegativeOr0(saved))
  }

  function NormalizeTools(tools: Tools): Tools {
    map t | t in tools :: NormalizeCounters(tools[t])
  }

  function NormalizeCumulative(c: Cumulative): Cumulative {
    Cumulative(NonNegativeOr0(c.sessions), NormalizeCounters(c.counters), NormalizeTools(c.tools))
  }

  /** What is restored of stored counters: a total of zero is the sum of its parts, any other is
      kept, and nothing is below zero. */
  lemma RestoredCounters(c: Counters)
    ensures var n := NormalizeCounters(c);
      (c.total > 0 ==> n.total == c.total) && (c.total < 0 ==> n.total == 0) && (c.total == 0 ==> n.total == n.request + n.response)
      && (c.saved > 0 ==> n.saved == c.saved) && (c.saved < 0 ==> n.saved == 0)
      && (c.saved == 0 ==> n.saved == n.inputSaved + n.outputSaved)
      && n.request == (if c.request > 0 then c.request else 0) && n.response == (if c.response > 0 then c.response else 0)
      && n.inputSaved == (if c.inputSaved > 0 then c.inputSaved else 0)
      && n.outputSaved == (if c.outputSaved > 0 then c.outputSaved else 0)
      && n.calls == (if c.calls > 0 then c.calls else 0)
  {}

  /** What is restored of a stored snapshot, in total and for every tool. */
  lemma RestoredExact(stored: Cumulative)
    ensures var c := Restored(stored).cumulative;
      c.sessions == (if stored.sessions > 0 then stored.sessions else 0)
      && c.counters == NormalizeCounters(stored.counters)
      && c.tools.Keys == stored.tools.Keys && forall t :: t in stored.tools ==> c.tools[t] == NormalizeCounters(stored.tools[t])
  {
    hide NormalizeCounters;
  }

  const FRESH := Session(ZERO, map[])

  /** A tracker at startup, after restoring what the store held. */
  function Restored(stored: Cumulative): State {
    State(FRESH, NormalizeCumulative(stored), 0)
  }

  function RecordStep(s: State, call: Call): State {
    State(
      Session(Add(s.session.counters, call.counters), MergeTool(s.session.tools, call)),
      Cumulative(s.cumulative.sessions + (if s.session.counters.calls == 0 then 1 else 0),
                 Add(s.cumulative.counters, call.counters), MergeTool(s.cumulative.tools, call)),
      s.revision + 1)
  }

  class Tracker {
    var session: Session
    var cumulative: Cumulative
    var revision: nat

    ghost function Contents(): State
      reads this
    {
      State(session, cumulative, revision)
    }

    constructor ()
      ensures Contents() == State(FRESH, Cumulative(0, ZERO, map[]), 0)
    {
      session, cumulative, revision := FRESH, Cumulative(0, ZERO, map[]), 0;
    }

    /** Called once, before the first call is recorded. */
    method RestoreCumulative(stored: Cumulative)
      modifies this
      ensures Contents() == old(Contents()).(cumulative := NormalizeCumulative(stored))
    {
      cumulative := NormalizeCumulative(stored);
    }

    method RecordCall(record: Record) returns (call: Call)
      modifies this
      ensures call == NormalizeCall(record)
      ensures Contents() == RecordStep(old(Contents()), call)
    {
      call := NormalizeCall(record);
      if session.counters.calls == 0 {
        cumulative := cumulative.(sessions := cumulative.sessions + 1);
      }
      session := session.(counters := Add(session.counters, call.counters));
      session := session.(tools := MergeTool(session.tools, call));
      cumulative := cumulative.(counters := Add(cumulative.counters, call.counters));
      cumulative := cumulative.(tools := MergeTool(cumulative.tools, call));
      revision := revision + 1;
    }

    /** `CumulativeSnapshot`: a copy whose tool entries are normalized once more. */
    method CumulativeSnapshot() returns (snapshot: Cumulative)
      ensures snapshot == Reported(cumulative)
    {
      snapshot := cumulative.(tools := NormalizeTools(cumulative.tools));
    }

    method SessionSnapshot() returns (snapshot: Session)
      ensures snapshot == session.(tools := NormalizeTools(session.tools))
    {
      snapshot := session.(tools := NormalizeTools(session.tools));
    }
  }

  function Reported(c: Cumulative): Cumulative {
    c.(tools := NormalizeTools(c.tools))
  }

  // ----- whole runs -----

  /** The state after recording the calls in order. */
  ghost function RunCalls(s: State, calls: seq<Call>): State {
    if calls == [] then s else RecordStep(RunCalls(s, calls[..|calls| - 1]), calls[|calls| - 1])
  }

  ghost predicate Normal(calls: seq<Call>) {
    forall i :: 0 <= i < |calls| ==>
      Balanced(calls[i].counters) && NonNegative(calls[i].counters) && calls[i].counters.calls >= 1
  }

  lemma RunStep(s: State, calls: seq<Call>)
    requires calls != []
    ensures RunCalls(s, calls) == RecordStep(RunCalls(s, calls[..|calls| - 1]), calls[|calls| - 1])
  {}

  /** The session's counters and tool breakdown are the sums over the recorded calls. */
  ghost predicate Sums(session: Session, calls: seq<Call>) {
    session.counters == SumAll(calls) == SumTools(session.tools)
    && forall t :: ToolAt(session.tools, t) == SumOfTool(calls, t)
  }

  lemma SumsStep(session: Session, calls: seq<Call>)
    requires calls != [] && Sums(session, calls[..|calls| - 1])
    ensures var call := calls[|calls| - 1];
      Sums(Session(Add(session.counters, call.counters), MergeTool(session.tools, call)), calls)
  {
    hide SumAll, SumOfTool, SumTools;
    var n := |calls| - 1;
    SumToolsMerge(session.tools, calls[n]);
    SumStep(calls, "");
    forall t ensures ToolAt(MergeTool(session.tools, calls[n]), t) == SumOfTool(calls, t) {
      SumStep(calls, t);
      assert ToolAt(session.tools, t) == SumOfTool(calls[..n], t);
    }
  }

  lemma SumsStart()
    ensures Sums(FRESH, [])
  {}

  /** The session shows every recorded call once: in total, and under its tool. */
  lemma {:induction false} SessionTotals(s: State, calls: seq<Call>)
    requires s.session == FRESH
    ensures Sums(RunCalls(s, calls).session, calls)
  {
    hide Sums;
    if calls == [] {
      SumsStart();
    } else {
      SessionTotals(s, calls[..|calls| - 1]);
      SumsStep(RunCalls(s, calls[..|calls| - 1]).session, calls);
      RunStep(s, calls);
    }
  }

  /** Cumulative totals are the restored ones plus the session's, for every counter and tool. */
  ghost predicate Extends(r: State, restored: Cumulative) {
    r.cumulative.counters == Add(restored.counters, r.session.counters)
    && forall t :: ToolAt(r.cumulative.tools, t) == Add(ToolAt(restored.tools, t), ToolAt(r.session.tools, t))
  }

  lemma ExtendsStep(r: State, restored: Cumulative, call: Call)
    requires Extends(r, restored)
    ensures Extends(RecordStep(r, call), restored)
  {
    hide Add, ToolAt, MergeTool;
    AddSwaps(restored.counters, r.session.counters, call.counters);
    forall t ensures ToolAt(MergeTool(r.cumulative.tools, call), t)
                  == Add(ToolAt(restored.tools, t), ToolAt(MergeTool(r.session.tools, call), t)) {
      ToolAfterMerge(r.cumulative.tools, call, t);
      ToolAfterMerge(r.session.tools, call, t);
      AddSwaps(ToolAt(restored.tools, t), ToolAt(r.session.tools, t), call.counters);
      assert ToolAt(r.cumulative.tools, t) == Add(ToolAt(restored.tools, t), ToolAt(r.session.tools, t));
    }
  }

  /** Over any run, cumulative totals are what was restored plus the session, and the session
      count rises once if and only if something was recorded. */
  lemma {:induction false} CumulativeTotals(s: State, calls: seq<Call>)
    requires s.session == FRESH && Normal(calls)
    ensures var r := RunCalls(s, calls);
      Extends(r, s.cumulative) && r.revision == s.revision + |calls|
      && r.cumulative.sessions == s.cumulative.sessions + (if calls == [] then 0 else 1)
      && r.session.counters.calls >= |calls|
  {
    hide Extends;
    if calls == [] {
      ExtendsStart(s);
    } else {
      var n := |calls| - 1;
      assert forall i :: 0 <= i < n ==> calls[..n][i] == calls[i];
      CumulativeTotals(s, calls[..n]);
      CallsGrow(s, calls[..n]);
      ExtendsStep(RunCalls(s, calls[..n]), s.cumulative, calls[n]);
      RunStep(s, calls);
    }
  }

  lemma AddNothing(a: Counters)
    ensures Add(a, ZERO) == a
  {}

  lemma ExtendsStart(s: State)
    requires s.session == FRESH
    ensures Extends(s, s.cumulative)
  {
    hide Add, ToolAt;
    AddNothing(s.cumulative.counters);
    forall t ensures Add(ToolAt(s.cumulative.tools, t), ToolAt(s.session.tools, t)) == ToolAt(s.cumulative.tools, t) {
      NoTool(t);
      AddNothing(ToolAt(s.cumulative.tools, t));
    }
  }

  lemma NoTool(t: string)
    ensures ToolAt(map[], t) == ZERO
  {}

  lemma CallsGrow(s: State, calls: seq<Call>)
    requires s.session == FRESH && RunCalls(s, calls).session.counters.calls >= |calls|
    ensures RunCalls(s, calls).session.counters.calls == 0 ==> calls == []
  {}

  /** Session totals balance, for the session and for each of its tools. */
  lemma {:induction false} SessionBalances(s: State, calls: seq<Call>)
    requires s.session == FRESH && Normal(calls)
    ensures var r := RunCalls(s, calls).session;
      Balanced(r.counters) && forall t :: Balanced(ToolAt(r.tools, t))
  {
    hide RunCalls, SumWhere, SumTools;
    SessionTotals(s, calls);
    SumWhereBalanced(calls, (c: Call) => true);
    forall t ensures Balanced(ToolAt(RunCalls(s, calls).session.tools, t)) {
      SumWhereBalanced(calls, (c: Call) => c.tool == t);
      assert ToolAt(RunCalls(s, calls).session.tools, t) == SumOfTool(calls, t);
    }
  }

  /** So reporting them changes nothing. */
  lemma {:induction false} SessionIsReported(s: State, calls: seq<Call>)
    requires s.session == FRESH && Normal(calls)
    ensures NormalizeTools(RunCalls(s, calls).session.tools) == RunCalls(s, calls).session.tools
  {
    hide RunCalls, SumWhere, SumTools;
    SessionTotals(s, calls);
    var tools := RunCalls(s, calls).session.tools;
    forall t | t in tools ensures NormalizeCounters(tools[t]) == tools[t] {
      SumWhereBalanced(calls, (c: Call) => c.tool == t);
      assert ToolAt(tools, t) == tools[t] == SumOfTool(calls, t);
    }
  }

  /** A stored entry that hides its own parts: a total below zero over parts above it. */
  predicate NegativeTotal(c: Counters) {
    (c.total < 0 && (c.request > 0 || c.response > 0)) || (c.saved < 0 && (c.inputSaved > 0 || c.outputSaved > 0))
  }

  /** Normalizing is idempotent exactly on entries without a negative total: the first pass
      turns such a total into zero, and a second pass takes the zero for a missing one. */
  lemma NormalizeTwice(c: Counters)
    ensures NormalizeCounters(NormalizeCounters(c)) == NormalizeCounters(c) <==> !NegativeTotal(c)
    ensures NonNegative(NormalizeCounters(c))
  {}

  /** So a restored snapshot is reported unchanged until the next call exactly when none of
      its tool entries has a negative total. */
  lemma RestoredIsReported(stored: Cumulative)
    ensures Reported(Restored(stored).cumulative) == Restored(stored).cumulative
       <==> forall t :: t in stored.tools ==> !NegativeTotal(stored.tools[t])
  {
    var once := NormalizeTools(stored.tools);
    forall t | t in stored.tools
      ensures NormalizeTools(once)[t] == once[t] <==> !NegativeTotal(stored.tools[t])
    {
      NormalizeTwice(stored.tools[t]);
    }
    assert NormalizeTools(once).Keys == once.Keys == stored.tools.Keys;
    if Reported(Restored(stored).cumulative) == Restored(stored).cumulative {
      assert NormalizeTools(once) == once;
    }
  }
}
