/** The integer counters that telemetry keeps of tool calls, per call, per tool and in total
    (tracker.go). Counters are unbounded integers; costs and timestamps are not kept here. */
module CallCounters {
  import opened Text

  datatype Counters = Counters(calls: int, request: int, response: int, total: int,
                               inputSaved: int, outputSaved: int, saved: int)

  const ZERO := Counters(0, 0, 0, 0, 0, 0, 0)

  function Add(a: Counters, b: Counters): Counters {
    Counters(a.calls + b.calls, a.request + b.request, a.response + b.response, a.total + b.total,
             a.inputSaved + b.inputSaved, a.outputSaved + b.outputSaved, a.saved + b.saved)
  }

  predicate AtMost(a: Counters, b: Counters) {
    a.calls <= b.calls && a.request <= b.request && a.response <= b.response && a.total <= b.total
    && a.inputSaved <= b.inputSaved && a.outputSaved <= b.outputSaved && a.saved <= b.saved
  }

  /** Every call counts once or more and its totals are the sums of their parts. */
  predicate Balanced(c: Counters) {
    c.total == c.request + c.response && c.saved == c.inputSaved + c.outputSaved
  }

  predicate NonNegative(c: Counters) {
    AtMost(ZERO, c)
  }

  type Tools = map<string, Counters>

  /** One finished call, attributed to a tool. */
  datatype Call = Call(tool: string, counters: Counters)

  function ToolAt(tools: Tools, tool: string): Counters {
    if tool in tools then tools[tool] else ZERO
  }

  /** `mergeToolSnapshot` */
  function MergeTool(tools: Tools, call: Call): Tools {
    tools[call.tool := Add(ToolAt(tools, call.tool), call.counters)]
  }

  lemma ToolAfterMerge(tools: Tools, call: Call, t: string)
    ensures ToolAt(MergeTool(tools, call), t)
         == if t == call.tool then Add(ToolAt(tools, t), call.counters) else ToolAt(tools, t)
  {}

  // ----- sums -----

  ghost function SumTools(tools: Tools): Counters {
    if tools == map[] then ZERO
    else
      var t :| t in tools;
      Add(tools[t], SumTools(tools - {t}))
  }

  /** The sum over a tool map may take any tool out first. */
  lemma {:induction false} SumToolsAny(tools: Tools, t: string)
    requires t in tools
    ensures SumTools(tools) == Add(tools[t], SumTools(tools - {t}))
    decreases |tools|
  {
    var u :| u in tools && SumTools(tools) == Add(tools[u], SumTools(tools - {u}));
    if u != t {
      SumToolsAny(tools - {u}, t);
      SumToolsAny(tools - {t}, u);
      assert tools - {u} - {t} == tools - {t} - {u};
      AddSwaps(tools[u], tools[t], SumTools(tools - {u} - {t}));
    }
  }

  lemma AddSwaps(a: Counters, b: Counters, c: Counters)
    ensures Add(a, Add(b, c)) == Add(b, Add(a, c))
    ensures Add(Add(a, b), c) == Add(a, Add(b, c)) == Add(Add(a, c), b)
  {}

  lemma SumToolsMerge(tools: Tools, call: Call)
    ensures SumTools(MergeTool(tools, call)) == Add(SumTools(tools), call.counters)
  {
    var merged := MergeTool(tools, call);
    hide SumTools;
    EmptySum();
    SumToolsAny(merged, call.tool);
    assert merged - {call.tool} == tools - {call.tool};
    if call.tool in tools {
      SumToolsAny(tools, call.tool);
    } else {
      assert tools - {call.tool} == tools;
    }
  }

  lemma EmptySum()
    ensures SumTools(map[]) == ZERO
  {}

  /** The counters of the calls that pass the filter, added up. */
  ghost function SumWhere(calls: seq<Call>, keep: Call -> bool): Counters {
    if calls == [] then ZERO
    else
      var last := calls[|calls| - 1];
      Add(SumWhere(calls[..|calls| - 1], keep), if keep(last) then last.counters else ZERO)
  }

  ghost function SumAll(calls: seq<Call>): Counters {
    SumWhere(calls, (c: Call) => true)
  }

  ghost function SumOfTool(calls: seq<Call>, tool: string): Counters {
    SumWhere(calls, (c: Call) => c.tool == tool)
  }

  lemma SumStep(calls: seq<Call>, tool: string)
    requires calls != []
    ensures var n := |calls| - 1;
      SumAll(calls) == Add(SumAll(calls[..n]), calls[n].counters)
      && SumOfTool(calls, tool)
         == if calls[n].tool == tool then Add(SumOfTool(calls[..n], tool), calls[n].counters)
            else SumOfTool(calls[..n], tool)
  {}

  lemma {:induction false} SumWhereBalanced(calls: seq<Call>, keep: Call -> bool)
    requires forall i :: 0 <= i < |calls| ==> Balanced(calls[i].counters) && NonNegative(calls[i].counters)
    ensures Balanced(SumWhere(calls, keep)) && NonNegative(SumWhere(calls, keep))
  {
    if calls != [] {
      SumWhereBalanced(calls[..|calls| - 1], keep);
    }
  }

  ghost function SumOf(calls: seq<Call>, keep: Call -> bool, field: Counters -> int): int {
    if calls == [] then 0
    else
      var last := calls[|calls| - 1];
      SumOf(calls[..|calls| - 1], keep, field) + if keep(last) then field(last.counters) else 0
  }

  /** Adding up counters adds up each of them. */
  lemma {:induction false} SumFields(calls: seq<Call>, keep: Call -> bool)
    ensures var c := SumWhere(calls, keep);
      c.calls == SumOf(calls, keep, (k: Counters) => k.calls)
      && c.request == SumOf(calls, keep, (k: Counters) => k.request)
      && c.response == SumOf(calls, keep, (k: Counters) => k.response)
      && c.total == SumOf(calls, keep, (k: Counters) => k.total)
      && c.inputSaved == SumOf(calls, keep, (k: Counters) => k.inputSaved)
      && c.outputSaved == SumOf(calls, keep, (k: Counters) => k.outputSaved)
      && c.saved == SumOf(calls, keep, (k: Counters) => k.saved)
  {
    if calls != [] { SumFields(calls[..|calls| - 1], keep); }
  }

  // ----- sanitizing -----

  function NonNegativeOr0(v: int): int {
    if v < 0 then 0 else v
  }

  function AtLeastOneCall(v: int): int {
    if v <= 0 then 1 else v
  }

  function NormalizeToolName(name: string): string {
    var trimmed := TrimSpace(name);
    if trimmed == "" then "unknown" else trimmed
  }
}
