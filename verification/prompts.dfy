/** The chat agent's mode-dependent system prompt and tool list. The prompt texts
    themselves are prose and are represented by which prompt is chosen. */
module Prompts {
  import opened Wrappers
  import Assoc
  import ToolCalls

  datatype Prompt = PlanningPrompt | FastPrompt

  /** The mode table: the two recognised modes. */
  const PromptTable: Assoc.Record<Prompt> := [("planning", PlanningPrompt), ("fast", FastPrompt)]

  /** A parameter of a tool: its name and JSON-schema type. */
  datatype Param = Param(name: string, schemaType: string)

  datatype Tool = Tool(name: string, properties: seq<Param>, required: seq<string>)

  /** The single tool: `execute_command`, with two string parameters, both required. */
  const ExecuteCommand := Tool("execute_command",
    [Param("command", "string"), Param("reason", "string")], ["command", "reason"])

  const ToolDefinitions: seq<Tool> := [ExecuteCommand]

  /** `get_system_prompt`: the table's prompt, planning for an unknown mode. */
  function SystemPrompt(mode: string): (p: Prompt)
    ensures p == FastPrompt <==> mode == "fast"
  {
    TableLookup(mode);
    Assoc.Get(PromptTable, mode).GetOr(PlanningPrompt)
  }

  lemma TableLookup(mode: string)
    ensures Assoc.Get(PromptTable, mode) ==
      if mode == "planning" then Some(PlanningPrompt)
      else if mode == "fast" then Some(FastPrompt)
      else None
  {
    assert PromptTable == [("planning", PlanningPrompt)] + [("fast", FastPrompt)];
    Assoc.GetHead("planning", PlanningPrompt, [("fast", FastPrompt)]);
    if mode != "planning" {
      Assoc.GetSkip(("planning", PlanningPrompt), [("fast", FastPrompt)], mode);
      Assoc.GetHead("fast", FastPrompt, []);
      if mode != "fast" {
        Assoc.GetSkip(("fast", FastPrompt), [], mode);
      }
    }
  }

  /** `get_tools`: the tool list in planning mode only. */
  function Tools(mode: string): (r: Option<seq<Tool>>)
    ensures r.Some? <==> mode == "planning"
    ensures r.Some? ==> r.value == ToolDefinitions
  {
    if mode == "planning" then Some(ToolDefinitions) else None
  }

  /** Whenever tools are offered the planning prompt is in force, and the fast
      prompt, which tells the model not to use tools, never comes with any. */
  lemma ToolsOnlyWithPlanning(mode: string)
    ensures Tools(mode).Some? ==> SystemPrompt(mode) == PlanningPrompt
    ensures SystemPrompt(mode) == FastPrompt ==> Tools(mode).None?
  {
  }

  /** An unknown mode gets the planning prompt but no tools. */
  lemma UnknownModeFallsBack(mode: string)
    requires mode != "planning" && mode != "fast"
    ensures SystemPrompt(mode) == PlanningPrompt && Tools(mode).None?
  {
  }

  /** Every parameter the tool declares is required, and a call in the bare shape
      the fallback parser reads carries exactly the required parameters as keys. */
  lemma ToolMatchesParser(call: ToolCalls.ToolCall)
    ensures forall p :: p in ExecuteCommand.properties ==> p.name in ExecuteCommand.required
    ensures Assoc.Keys(ToolCalls.Encode(call, ToolCalls.Bare)) == set n | n in ExecuteCommand.required
    ensures ExecuteCommand.name == "execute_command"
  {
    var d := ToolCalls.Encode(call, ToolCalls.Bare);
    assert d[0].0 == "command" && d[1].0 == "reason";
    assert Assoc.Keys(d) == {"command", "reason"};
  }
}
