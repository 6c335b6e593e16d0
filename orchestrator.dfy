/**
 * The glue of memchat/orchestrator.py around the agent run: the tool-call
 * event record and its dictionary form, the events built from the runner's
 * items, the fallbacks that turn a failing run into text, the memory root a
 * run uses, and the fixed list of models offered.
 */
module Orchestrator {
  import opened Paths
  import opened Tools

  /** An attribute read from an object of the agents library: its value, or the message of the exception reading it raised. */
  datatype Attr<T> = Present(value: T) | Missing(error: string)

  // ---------------------------------------------------------------- events

  /** `ToolCallEvent`: its four fields are set by the constructor and never changed. */
  datatype ToolCallEvent = ToolCallEvent(timestamp: string, toolName: Json, arguments: Json, result: Json)

  /** `to_dict()`. */
  function ToDict(e: ToolCallEvent): (d: map<string, Json>)
    ensures d.Keys == {"timestamp", "tool_name", "arguments", "result"}
  {
    map["timestamp" := JString(e.timestamp), "tool_name" := e.toolName,
        "arguments" := e.arguments, "result" := e.result]
  }

  /** Reading an event back from its dictionary form: the partner of ToDict. */
  function EventFromDict(d: map<string, Json>): Option<ToolCallEvent>
  {
    if "timestamp" in d && d["timestamp"].JString? && "tool_name" in d && "arguments" in d && "result" in d
    then Some(ToolCallEvent(d["timestamp"].s, d["tool_name"], d["arguments"], d["result"]))
    else None
  }

  /** The dictionary form of an event keeps every field: reading it back gives the same event. */
  lemma EventDictRoundTrip(e: ToolCallEvent)
    ensures EventFromDict(ToDict(e)) == Some(e)
  {
  }

  /** Two events with the same dictionary form are the same event. */
  lemma ToDictInjective(e1: ToolCallEvent, e2: ToolCallEvent)
    requires ToDict(e1) == ToDict(e2)
    ensures e1 == e2
  {
    EventDictRoundTrip(e1);
    EventDictRoundTrip(e2);
  }

  // ---------------------------------------------------------------- runner items

  /** An item of the runner's `new_items`: a tool-call item, whose attributes may fail to read, or any other item. */
  datatype RunItem =
    | ToolCallItem(toolName: Attr<Json>, arguments: Attr<Json>, result: Attr<Json>)
    | OtherItem

  /** What the runner hands back, as far as the orchestrator reads it. */
  datatype RunResult = RunResult(finalOutput: Attr<string>, newItems: Attr<seq<RunItem>>)

  /** `[i for i in new_items if isinstance(i, ToolCallItem)]`. */
  function ToolCallItems(items: seq<RunItem>): (r: seq<RunItem>)
    ensures forall i :: 0 <= i < |r| ==> r[i].ToolCallItem? && r[i] in items
    ensures |r| <= |items|
  {
    if items == [] then []
    else if items[0].ToolCallItem? then [items[0]] + ToolCallItems(items[1..])
    else ToolCallItems(items[1..])
  }

  /** The number of tool-call items before position `j`. */
  function ToolRank(items: seq<RunItem>, j: nat): nat
    requires j <= |items|
  {
    if j == 0 then 0 else ToolRank(items, j - 1) + (if items[j - 1].ToolCallItem? then 1 else 0)
  }

  lemma {:induction false} ToolRankBound(items: seq<RunItem>, j: nat)
    requires j <= |items|
    ensures |ToolCallItems(items[..j])| == ToolRank(items, j)
  {
    if j > 0 {
      ToolRankBound(items, j - 1);
      ToolCallItemsAppend(items[..j - 1], items[j - 1]);
      assert items[..j] == items[..j - 1] + [items[j - 1]];
    }
  }

  lemma {:induction false} ToolCallItemsAppend(items: seq<RunItem>, x: RunItem)
    ensures ToolCallItems(items + [x]) == ToolCallItems(items) + (if x.ToolCallItem? then [x] else [])
  {
    if items == [] {
      assert [] + [x] == [x];
    } else {
      assert (items + [x])[1..] == items[1..] + [x];
      ToolCallItemsAppend(items[1..], x);
    }
  }

  /**
   * The filter keeps every tool-call item, at the position given by the
   * number of tool-call items before it: it neither drops, reorders nor
   * merges them.
   */
  lemma {:induction false} ToolCallItemsKeepOrder(items: seq<RunItem>, j: nat)
    requires j < |items| && items[j].ToolCallItem?
    ensures ToolRank(items, j) < |ToolCallItems(items)|
    ensures ToolCallItems(items)[ToolRank(items, j)] == items[j]
  {
    ToolRankBound(items, j);
    ToolRankBound(items, j + 1);
    ToolCallItemsPrefix(items, j + 1);
    assert items[..j + 1] == items[..j] + [items[j]];
    ToolCallItemsAppend(items[..j], items[j]);
  }

  /** Filtering a longer list extends the filtered prefix. */
  lemma {:induction false} ToolCallItemsPrefix(items: seq<RunItem>, j: nat)
    requires j <= |items|
    ensures ToolCallItems(items[..j]) <= ToolCallItems(items)
    decreases |items| - j
  {
    if j < |items| {
      ToolCallItemsPrefix(items, j + 1);
      assert items[..j + 1] == items[..j] + [items[j]];
      ToolCallItemsAppend(items[..j], items[j]);
    } else {
      assert items[..j] == items;
    }
  }

  /** Tool-call items further along the list come further along the filtered list. */
  lemma ToolRankIncreasing(items: seq<RunItem>, i: nat, j: nat)
    requires i < j <= |items| && items[i].ToolCallItem?
    ensures ToolRank(items, i) < ToolRank(items, j)
    decreases j
  {
    if j > i + 1 {
      ToolRankIncreasing(items, i, j - 1);
    }
  }

  // ---------------------------------------------------------------- augmented run

  /**
   * The message of the first attribute of a tool-call item that fails to
   * read, taking `tool_name`, `arguments` and `result` in the order the
   * constructor call names them; nothing for any other item.
   */
  function ItemError(item: RunItem): Option<string>
  {
    if !item.ToolCallItem? then None
    else if item.toolName.Missing? then Some(item.toolName.error)
    else if item.arguments.Missing? then Some(item.arguments.error)
    else if item.result.Missing? then Some(item.result.error)
    else None
  }

  /** The first error any item of the runner's list raises when read, in list order. */
  function FirstItemError(items: seq<RunItem>): (e: Option<string>)
    ensures e.None? <==> forall i :: 0 <= i < |items| ==> ItemError(items[i]).None?
  {
    if items == [] then None
    else if ItemError(items[0]).Some? then ItemError(items[0])
    else FirstItemError(items[1..])
  }

  /** The exception `_run_augmented_chat` catches first: `final_output`, then `new_items`, then the items in order. */
  function FirstReadError(response: RunResult): Option<string>
  {
    match response.finalOutput
    case Missing(e) => Some(e)
    case Present(_) =>
      match response.newItems
      case Missing(e) => Some(e)
      case Present(items) => FirstItemError(items)
  }

  /** Filtering out the other items does not change which read fails first: they read nothing. */
  lemma {:induction false} FirstErrorAmongToolCalls(items: seq<RunItem>)
    ensures FirstItemError(ToolCallItems(items)) == FirstItemError(items)
  {
    if items != [] {
      FirstErrorAmongToolCalls(items[1..]);
      if items[0].ToolCallItem? {
        assert ([items[0]] + ToolCallItems(items[1..]))[1..] == ToolCallItems(items[1..]);
      }
    }
  }

  /**
   * One event: the timestamp is taken first, then `tool_name`,
   * `arguments` and `result` are read in that order, and the first that
   * fails to read ends the run.
   */
  function EventOf(item: RunItem, timestamp: string): (r: Attr<ToolCallEvent>)
    requires item.ToolCallItem?
    ensures r.Present? <==> item.toolName.Present? && item.arguments.Present? && item.result.Present?
    ensures r.Present? ==> r.value == ToolCallEvent(timestamp, item.toolName.value, item.arguments.value, item.result.value)
    ensures r.Missing? <==> ItemError(item).Some?
    ensures r.Missing? ==> r.error == ItemError(item).value
  {
    match item.toolName
    case Missing(e) => Missing(e)
    case Present(name) =>
      match item.arguments
      case Missing(e) => Missing(e)
      case Present(args) =>
        match item.result
        case Missing(e) => Missing(e)
        case Present(result) => Present(ToolCallEvent(timestamp, name, args, result))
  }

  predicate Readable(item: RunItem) {
    item.ToolCallItem? ==> item.toolName.Present? && item.arguments.Present? && item.result.Present?
  }

  /**
   * The comprehension over the tool-call items `tools[from..]`; the clock
   * gives the timestamp `datetime.now().isoformat()` returns for the n-th
   * event.
   */
  function Events(tools: seq<RunItem>, from: nat, clock: nat -> string): (r: Attr<seq<ToolCallEvent>>)
    requires from <= |tools|
    requires forall i :: 0 <= i < |tools| ==> tools[i].ToolCallItem?
    ensures r.Present? <==> forall i :: from <= i < |tools| ==> Readable(tools[i])
    ensures r.Present? ==> |r.value| == |tools| - from && forall i :: from <= i < |tools| ==>
      r.value[i - from] == ToolCallEvent(clock(i), tools[i].toolName.value, tools[i].arguments.value, tools[i].result.value)
    ensures r.Missing? ==> FirstItemError(tools[from..]) == Some(r.error)
    decreases |tools| - from
  {
    if from == |tools| then Present([])
    else
      assert tools[from..][1..] == tools[from + 1..];
      match EventOf(tools[from], clock(from))
      case Missing(e) => Missing(e)
      case Present(event) =>
        match Events(tools, from + 1, clock)
        case Missing(e) => Missing(e)
        case Present(rest) => Present([event] + rest)
  }

  const AugmentedErrorPrefix := "Error in augmented chat: "
  const BaselineErrorPrefix := "Error in baseline chat: "

  /** `_run_augmented_chat` once the runner has answered: the output text and the events, or the error text and no events. */
  function RunAugmentedChat(response: RunResult, clock: nat -> string): (string, seq<ToolCallEvent>)
  {
    match response.finalOutput
    case Missing(e) => (AugmentedErrorPrefix + e, [])
    case Present(text) =>
      match response.newItems
      case Missing(e) => (AugmentedErrorPrefix + e, [])
      case Present(items) =>
        match Events(ToolCallItems(items), 0, clock)
        case Missing(e) => (AugmentedErrorPrefix + e, [])
        case Present(events) => (text, events)
  }

  /** Every attribute the augmented run reads can be read. */
  predicate RunReadable(response: RunResult) {
    && response.finalOutput.Present? && response.newItems.Present?
    && forall i :: 0 <= i < |response.newItems.value| ==> Readable(response.newItems.value[i])
  }

  /**
   * When every attribute reads, the augmented run returns the runner's
   * final output and one event per tool-call item, in item order, each
   * holding that item's name, arguments and result.
   */
  lemma AugmentedEventsFollowItems(response: RunResult, clock: nat -> string)
    requires RunReadable(response)
    ensures var (text, events) := RunAugmentedChat(response, clock);
      var items := response.newItems.value;
      && FirstReadError(response) == None
      && text == response.finalOutput.value
      && |events| == |ToolCallItems(items)|
      && forall j :: 0 <= j < |items| && items[j].ToolCallItem? ==>
           var n := ToolRank(items, j);
           n < |events| && events[n] == ToolCallEvent(clock(n), items[j].toolName.value, items[j].arguments.value, items[j].result.value)
  {
    var items := response.newItems.value;
    var tools := ToolCallItems(items);
    forall i | 0 <= i < |tools| ensures Readable(tools[i]) {
      var k :| 0 <= k < |items| && items[k] == tools[i];
    }
    forall j | 0 <= j < |items| && items[j].ToolCallItem?
      ensures ToolRank(items, j) < |tools| && tools[ToolRank(items, j)] == items[j]
    {
      ToolCallItemsKeepOrder(items, j);
    }
  }

  /**
   * When any attribute fails to read, the augmented run answers with the
   * prefix followed by the message of the first read that failed, and no
   * events.
   */
  lemma AugmentedFailureHasNoEvents(response: RunResult, clock: nat -> string)
    requires !RunReadable(response)
    ensures FirstReadError(response).Some?
    ensures RunAugmentedChat(response, clock).0 == AugmentedErrorPrefix + FirstReadError(response).value
    ensures RunAugmentedChat(response, clock).1 == []
  {
    if response.finalOutput.Present? && response.newItems.Present? {
      var items := response.newItems.value;
      var j :| 0 <= j < |items| && !Readable(items[j]);
      assert ItemError(items[j]).Some?;
      FirstErrorAmongToolCalls(items);
      assert ToolCallItems(items)[0..] == ToolCallItems(items);
    }
  }

  /** A run in which the model called no tool logs no event and returns its final output unchanged. */
  lemma NoToolCallsNoEvents(response: RunResult, clock: nat -> string)
    requires response.finalOutput.Present? && response.newItems.Present?
    requires forall i :: 0 <= i < |response.newItems.value| ==> !response.newItems.value[i].ToolCallItem?
    ensures RunAugmentedChat(response, clock) == (response.finalOutput.value, [])
  {
  }

  // ---------------------------------------------------------------- baseline run and chat_run

  /** `_run_baseline_chat` once the backend has answered: its text, or the error text when the call raised. */
  function RunBaselineChat(reply: Attr<string>): (text: string)
  {
    match reply
    case Present(t) => t
    case Missing(e) => BaselineErrorPrefix + e
  }

  /** A failing baseline call is reported as text that carries the exception's message after the prefix. */
  lemma BaselineFailureIsText(reply: Attr<string>)
    ensures reply.Missing? ==>
      BaselineErrorPrefix <= RunBaselineChat(reply) && RunBaselineChat(reply)[|BaselineErrorPrefix|..] == reply.error
    ensures reply.Present? ==> RunBaselineChat(reply) == reply.value
  {
  }

  /**
   * The memory root a run uses: a non-empty `memory_dir` replaces the
   * current one (a relative one is taken from the working directory, and
   * its ".." pieces are folded); an absent or empty one keeps whatever root
   * an earlier run left behind.
   */
  function ConfiguredRoot(memoryDir: Option<string>, current: Path, cwd: Path): (root: Path)
  {
    if memoryDir.Some? && memoryDir.value != "" then Locate(cwd, memoryDir.value) else current
  }

  lemma ConfiguredRootChoice(memoryDir: Option<string>, current: Path, cwd: Path)
    ensures memoryDir == None || memoryDir == Some("") ==> ConfiguredRoot(memoryDir, current, cwd) == current
    ensures memoryDir.Some? && memoryDir.value != "" ==>
      ConfiguredRoot(memoryDir, current, cwd) == Locate(cwd, memoryDir.value)
    ensures forall names: seq<Name> :: names != [] ==>
      ConfiguredRoot(Some("/" + JoinWith(names, '/')), current, cwd) == names
  {
    forall names: seq<Name> | names != [] ensures ConfiguredRoot(Some("/" + JoinWith(names, '/')), current, cwd) == names {
      LocateAbsoluteNames(cwd, names);
    }
  }

  /** `chat_run`'s result, with the memory root left for the next run. */
  datatype ChatRunResult = ChatRunResult(baseline: string, augmented: string, events: seq<ToolCallEvent>, root: Path)

  /**
   * `chat_run(prompt, model, memory_dir)`: the root is set first; the
   * backend's baseline reply and the runner's result stand for the two
   * calls made for the prompt and model.
   */
  function ChatRun(memoryDir: Option<string>, current: Path, cwd: Path,
                   baselineReply: Attr<string>, response: RunResult, clock: nat -> string): (r: ChatRunResult)
  {
    var root := ConfiguredRoot(memoryDir, current, cwd);
    var (augmented, events) := RunAugmentedChat(response, clock);
    ChatRunResult(RunBaselineChat(baselineReply), augmented, events, root)
  }

  /**
   * `chat_run` returns the baseline text, then the augmented text and
   * events, and leaves the configured root behind. `_run_baseline_chat`
   * catches every exception of its call, so a failing baseline cannot cut
   * the augmented run short.
   */
  lemma ChatRunIndependence(memoryDir: Option<string>, current: Path, cwd: Path,
                            b1: Attr<string>, b2: Attr<string>, r1: RunResult, r2: RunResult, clock: nat -> string)
    ensures ChatRun(memoryDir, current, cwd, b1, r1, clock).augmented == ChatRun(memoryDir, current, cwd, b2, r1, clock).augmented
    ensures ChatRun(memoryDir, current, cwd, b1, r1, clock).events == ChatRun(memoryDir, current, cwd, b2, r1, clock).events
    ensures ChatRun(memoryDir, current, cwd, b1, r1, clock).baseline == ChatRun(memoryDir, current, cwd, b1, r2, clock).baseline
    ensures ChatRun(memoryDir, current, cwd, b1, r1, clock).baseline == RunBaselineChat(b1)
    ensures ChatRun(memoryDir, current, cwd, b1, r1, clock).root == ConfiguredRoot(memoryDir, current, cwd)
  {
  }

  // ---------------------------------------------------------------- models

  const DefaultModel := "gpt-4o-mini"

  /** `get_available_models()`: a fixed list, whatever the backend says. */
  function AvailableModels(): (models: seq<string>)
    ensures |models| == 6
  {
    ["gpt-4o", "gpt-4o-mini", "o3", "o4-mini", "gpt-4.1", "gpt-4.1-mini"]
  }

  /** The model list names six distinct models, among them the default of `chat_run`. */
  lemma AvailableModelsDistinct()
    ensures forall i, j :: 0 <= i < j < |AvailableModels()| ==> AvailableModels()[i] != AvailableModels()[j]
    ensures DefaultModel in AvailableModels()
  {
    var m := AvailableModels();
    assert m[1] == DefaultModel;
    forall i, j | 0 <= i < j < |m| ensures m[i] != m[j] {
      assert |m[0]| == 6 && |m[1]| == 11 && |m[2]| == 2 && |m[3]| == 7 && |m[4]| == 7 && |m[5]| == 12;
      if i == 3 && j == 4 {
        assert m[3][1] != m[4][1];
      }
    }
  }
}
