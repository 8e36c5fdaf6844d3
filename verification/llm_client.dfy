/** The LLM client's pure parts: cleaning a model reply of a Markdown code fence
    before it is read as JSON, and choosing the backend from the configuration and
    the environment. The JSON parser is an oracle: `loads(s)` is whether `s` parses. */
module LlmClient {
  import opened Wrappers
  import Assoc
  import Text
  import opened Json

  const Fence := "```"

  /** `_extract_json` before validation: the stripped reply; a fenced reply loses its
      first line, and its last line too when that line is a closing fence. */
  function CleanReply(text: string): (r: string)
    ensures !Text.StartsWith(Text.Strip(text), Fence) ==> r == Text.Strip(text)
  {
    var s := Text.Strip(text);
    if !Text.StartsWith(s, Fence) then s
    else
      var lines := Text.Split(s, '\n')[1..];
      var kept := if |lines| > 0 && Text.Strip(lines[|lines| - 1]) == Fence then lines[..|lines| - 1] else lines;
      Text.Join(kept, '\n')
  }

  /** `_extract_json`: the cleaned reply, or a decoding error when it does not parse. */
  function ExtractJson(text: string, loads: string -> bool): (r: Result<string, string>)
    ensures r.Err? <==> !loads(CleanReply(text))
    ensures r.Ok? ==> r.value == CleanReply(text)
  {
    var s := CleanReply(text);
    if loads(s) then Ok(s) else Err("JSONDecodeError")
  }

  /** The lines of a reply fenced as ```tag … ```: the opening line, the body lines,
      the closing fence. */
  function Fenced(tag: string, body: seq<string>): string {
    Text.Join([Fence + tag] + body + [Fence], '\n')
  }

  predicate NoNewline(s: string) {
    '\n' !in s
  }

  /** A fenced reply gives back exactly its body, whatever the language tag. */
  lemma FencedRoundTrip(tag: string, body: seq<string>)
    requires NoNewline(tag) && forall l :: l in body ==> NoNewline(l)
    ensures CleanReply(Fenced(tag, body)) == Text.Join(body, '\n')
  {
    var lines := [Fence + tag] + body + [Fence];
    var s := Fenced(tag, body);
    FencedIsStripped(tag, body);
    FencedLines(tag, body);
    var rest := Text.Split(s, '\n')[1..];
    assert rest == body + [Fence];
    assert Text.Strip(Fence) == Fence by { Text.StripEnds(Fence); }
    assert rest[..|rest| - 1] == body;
  }

  /** The fenced reply splits back into its lines. */
  lemma FencedLines(tag: string, body: seq<string>)
    requires NoNewline(tag) && forall l :: l in body ==> NoNewline(l)
    ensures Text.Split(Fenced(tag, body), '\n') == [Fence + tag] + body + [Fence]
  {
    var lines := [Fence + tag] + body + [Fence];
    forall l | l in lines ensures '\n' !in l {
      if l == Fence + tag {
        assert forall i :: 0 <= i < |l| ==> l[i] in Fence || l[i] in tag;
      } else if l != Fence {
        assert l in body;
      }
    }
    Text.SplitJoin(lines, '\n');
  }

  /** The fenced reply starts and ends with a backtick, so stripping keeps it whole. */
  lemma FencedIsStripped(tag: string, body: seq<string>)
    ensures Text.Strip(Fenced(tag, body)) == Fenced(tag, body)
    ensures Text.StartsWith(Fenced(tag, body), Fence)
  {
    var lines := [Fence + tag] + body + [Fence];
    var s := Fenced(tag, body);
    assert (Fence + tag)[..3] == Fence;
    JoinStart(lines);
    JoinLast(lines);
    assert s[0] == Fence[0];
    assert s[|s| - 1] == s[|s| - 3..][2];
    Text.StripEnds(s);
  }

  lemma {:induction false} JoinLast(lines: seq<string>)
    requires |lines| >= 2 && lines[|lines| - 1] == Fence
    ensures Text.EndsWith(Text.Join(lines, '\n'), Fence)
    decreases |lines|
  {
    var s := Text.Join(lines, '\n');
    if |lines| > 2 {
      JoinLast(lines[1..]);
    }
    var t := Text.Join(lines[1..], '\n');
    assert s == lines[0] + ['\n'] + t;
    assert s[|s| - 3..] == t[|t| - 3..];
  }

  lemma JoinStart(lines: seq<string>)
    requires |lines| >= 2 && Text.StartsWith(lines[0], Fence)
    ensures Text.StartsWith(Text.Join(lines, '\n'), Fence)
  {
    var s := Text.Join(lines, '\n');
    assert s == lines[0] + ['\n'] + Text.Join(lines[1..], '\n');
    assert s[..3] == lines[0][..3];
  }

  // ---------------------------------------------------------------------------
  // Backend choice (`create_llm_client`)

  datatype Backend = Claude | Gemini

  /** The client built: its backend, key and model. */
  datatype Client = Client(backend: Backend, apiKey: string, model: Json)

  const ClaudeDefaultModel := "claude-sonnet-4-20250514"
  const GeminiDefaultModel := "gemini-2.0-flash"

  function KeyVariable(b: Backend): string {
    match b
    case Claude => "CLAUDE_API_KEY"
    case Gemini => "GEMINI_API_KEY"
  }

  function DefaultModel(b: Backend): string {
    match b
    case Claude => ClaudeDefaultModel
    case Gemini => GeminiDefaultModel
  }

  /** The `backend` value of the `llm` section, "claude" when absent. */
  function BackendName(llm: Assoc.Record<Json>): Json {
    GetOr(llm, "backend", JStr("claude"))
  }

  /** `create_llm_client`: the `llm` section (empty when absent; anything but a dict
      makes `.get` fail), the backend named there, the key from that backend's
      variable (an unset or empty variable is an error), and the configured model
      when it is set and true to Python, the backend's default otherwise. */
  function CreateClient(config: Assoc.Record<Json>, env: Assoc.Record<string>): (r: Result<Client, string>)
    ensures r.Ok? ==> r.value.apiKey != "" && Assoc.Get(env, KeyVariable(r.value.backend)) == Some(r.value.apiKey)
    ensures r.Ok? ==> GetOr(config, "llm", JObj([])).JObj?
    ensures r.Ok? ==> BackendName(GetOr(config, "llm", JObj([])).fields)
                      == JStr(if r.value.backend == Claude then "claude" else "gemini")
    ensures r.Ok? ==> Truthy(r.value.model) || r.value.model == JStr(DefaultModel(r.value.backend))
    ensures r.Ok? <==>
      && GetOr(config, "llm", JObj([])).JObj?
      && ((BackendName(GetOr(config, "llm", JObj([])).fields) == JStr("claude")
           && Assoc.Get(env, KeyVariable(Claude)).GetOr("") != "")
          || (BackendName(GetOr(config, "llm", JObj([])).fields) == JStr("gemini")
              && Assoc.Get(env, KeyVariable(Gemini)).GetOr("") != ""))
    ensures r.Ok? ==>
      var model := GetOr(GetOr(config, "llm", JObj([])).fields, "model", JNull);
      r.value.model == if Truthy(model) then model else JStr(DefaultModel(r.value.backend))
  {
    var llm := GetOr(config, "llm", JObj([]));
    if !llm.JObj? then Err("AttributeError")
    else
      var backend := BackendName(llm.fields);
      var model := GetOr(llm.fields, "model", JNull);
      if backend == JStr("claude") then Build(Claude, env, model)
      else if backend == JStr("gemini") then Build(Gemini, env, model)
      else Err("ValueError: unknown backend")
  }

  /** One backend's branch: the key must be set and not empty. */
  function Build(b: Backend, env: Assoc.Record<string>, model: Json): (r: Result<Client, string>)
    ensures r.Ok? <==> Assoc.Get(env, KeyVariable(b)).GetOr("") != ""
    ensures r.Ok? ==> r.value.backend == b && r.value.apiKey == Assoc.Get(env, KeyVariable(b)).value
    ensures r.Ok? ==> r.value.model == if Truthy(model) then model else JStr(DefaultModel(b))
  {
    var key := Assoc.Get(env, KeyVariable(b)).GetOr("");
    if key == "" then Err("ValueError: " + KeyVariable(b) + " is not set")
    else Ok(Client(b, key, if Truthy(model) then model else JStr(DefaultModel(b))))
  }

  /** A configuration without an `llm` section asks for Claude: it succeeds exactly
      when the Claude key is set, with the default Claude model. */
  lemma DefaultsToClaude(config: Assoc.Record<Json>, env: Assoc.Record<string>)
    requires !Assoc.HasKey(config, "llm")
    ensures CreateClient(config, env).Ok? <==> Assoc.Get(env, "CLAUDE_API_KEY").GetOr("") != ""
    ensures CreateClient(config, env).Ok? ==>
      CreateClient(config, env).value == Client(Claude, Assoc.Get(env, "CLAUDE_API_KEY").value, JStr(ClaudeDefaultModel))
  {
    var empty: Assoc.Record<Json> := [];
    assert GetOr(config, "llm", JObj([])) == JObj(empty);
    assert !Assoc.HasKey(empty, "backend") && !Assoc.HasKey(empty, "model");
  }

  /** A backend other than the two known ones is refused, keys or no keys. */
  lemma UnknownBackendRefused(config: Assoc.Record<Json>, env: Assoc.Record<string>)
    requires GetOr(config, "llm", JObj([])).JObj?
    requires BackendName(GetOr(config, "llm", JObj([])).fields) !in {JStr("claude"), JStr("gemini")}
    ensures CreateClient(config, env).Err?
  {
  }
}
