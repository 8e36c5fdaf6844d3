/** The chat agent's fallback tool-call parser. Some local models write their
    `execute_command` call as JSON inside the reply text instead of the structured
    tool-call field; the agent recovers it with a balanced-brace walk that ignores
    braces inside double-quoted strings. The fenced-code-block regular expression,
    `json.loads` and Python's `repr` of containers are outside the model and come in
    as `Oracles`. */
module ToolCalls {
  import opened Wrappers
  import Text
  import Assoc
  import opened Json

  /** The walk's state: brace depth, inside a string literal, after a backslash. */
  datatype ScanState = ScanState(depth: int, inString: bool, escape: bool)

  const Fresh := ScanState(0, false, false)

  /** One character of the walk. A backslash escapes only inside a string, a quote
      toggles the string flag, and braces count only outside strings. */
  function Step(st: ScanState, ch: char): ScanState {
    if st.escape then st.(escape := false)
    else if ch == '\\' && st.inString then st.(escape := true)
    else if ch == '"' then st.(inString := !st.inString)
    else if st.inString then st
    else if ch == '{' then st.(depth := st.depth + 1)
    else if ch == '}' then st.(depth := st.depth - 1)
    else st
  }

  /** The walk's state after reading `s[start..i]`. */
  function StateAt(s: string, start: nat, i: nat): ScanState
    requires start <= i <= |s|
    decreases i - start
  {
    if i == start then Fresh else Step(StateAt(s, start, i - 1), s[i - 1])
  }

  /** `s[i]` is a closing brace read outside any string that brings the depth of
      the walk begun at `start` back to zero. */
  predicate ClosesAt(s: string, start: nat, i: nat)
    requires start <= i < |s|
  {
    var st := StateAt(s, start, i);
    s[i] == '}' && !st.escape && !st.inString && Step(st, s[i]).depth == 0
  }

  /** The walk from `i` on, carrying its state as the loop does. */
  function Walk(s: string, start: nat, i: nat, st: ScanState): (r: Option<nat>)
    requires start <= i <= |s| && st == StateAt(s, start, i)
    decreases |s| - i
    ensures r.Some? ==> i <= r.value < |s| && ClosesAt(s, start, r.value)
    ensures r.Some? ==> forall k :: i <= k < r.value ==> !ClosesAt(s, start, k)
    ensures r.None? ==> forall k :: i <= k < |s| ==> !ClosesAt(s, start, k)
  {
    if i == |s| then None
    else
      var ch := s[i];
      if !st.escape && !(ch == '\\' && st.inString) && ch != '"' && !st.inString
         && ch == '}' && st.depth - 1 == 0
      then Some(i)
      else Walk(s, start, i + 1, Step(st, ch))
  }

  /** Index of the brace that balances the walk begun at `start`, if any. */
  function MatchingBrace(s: string, start: nat): (r: Option<nat>)
    requires start <= |s|
    ensures r.Some? ==> start <= r.value < |s| && ClosesAt(s, start, r.value)
    ensures r.Some? ==> forall k :: start <= k < r.value ==> !ClosesAt(s, start, k)
    ensures r.None? ==> forall k :: start <= k < |s| ==> !ClosesAt(s, start, k)
  {
    Walk(s, start, start, Fresh)
  }

  /** The first balanced object of `s`: it starts at the first `{` and ends at the
      first brace that balances it. */
  function FirstSpan(s: string): (r: Option<(nat, nat)>)
    ensures r.Some? ==> r.value.0 <= r.value.1 < |s|
    ensures r.Some? ==> s[r.value.0] == '{' && '{' !in s[..r.value.0]
    ensures r.Some? ==> ClosesAt(s, r.value.0, r.value.1)
    ensures r.Some? ==> forall k :: r.value.0 <= k < r.value.1 ==> !ClosesAt(s, r.value.0, k)
    ensures r.None? <==> ('{' !in s || (Text.FindFrom(s, '{', 0).Some? &&
                          MatchingBrace(s, Text.FindFrom(s, '{', 0).value).None?))
  {
    match Text.FindFrom(s, '{', 0)
    case None => None
    case Some(a) =>
      assert forall c :: c in s[..a] ==> c != '{';
      match MatchingBrace(s, a)
      case None => None
      case Some(e) => Some((a, e))
  }

  datatype Oracles = Oracles(
    /** Group 1 of the first fenced code block, if the text has one. */
    fence: string -> Option<string>,
    /** `json.loads` of a slice that begins with `{` and ends with `}`: a dict, or
        None when it raises. */
    loads: string -> Option<Assoc.Record<Json>>,
    /** `repr` of a list or dict, used by `str()`. */
    containerRepr: Json -> string)

  /** `_extract_first_json`: the first balanced object parsed, or None. A first
      object that fails to parse gives None; no later object is tried. */
  function ExtractFirstJson(s: string, o: Oracles): (r: Option<Assoc.Record<Json>>)
    ensures r.Some? ==> FirstSpan(s).Some?
    ensures FirstSpan(s).Some? ==>
      r == o.loads(s[FirstSpan(s).value.0..FirstSpan(s).value.1 + 1])
  {
    match FirstSpan(s)
    case None => None
    case Some((a, e)) => o.loads(s[a..e + 1])
  }

  /** The recovered call, in the shape of the structured tool-call field. */
  datatype ToolCall = ToolCall(command: string, reason: string)

  /** Maps the three shapes a model writes onto one call; an empty command is no call.
      `{"execute_command": {"command": …, "reason": …}}` takes the inner command and
      the inner reason, else the outer one; `{"execute_command": "…"}` takes the
      string; anything else takes the top-level `command`. */
  function Normalise(data: Assoc.Record<Json>, o: Oracles): (r: Option<ToolCall>)
    ensures r.Some? ==> r.value.command != ""
  {
    var outerReason := GetOr(data, "reason", JStr(""));
    var ec := Assoc.Get(data, "execute_command");
    var call :=
      if ec.Some? && ec.value.JObj? then
        ToolCall(PyStr(GetOr(ec.value.fields, "command", JStr("")), o.containerRepr),
                 PyStr(GetOr(ec.value.fields, "reason", outerReason), o.containerRepr))
      else if ec.Some? && ec.value.JStr? then
        ToolCall(ec.value.s, PyStr(outerReason, o.containerRepr))
      else
        ToolCall(PyStr(GetOr(data, "command", JStr("")), o.containerRepr),
                 PyStr(outerReason, o.containerRepr));
    if call.command == "" then None else Some(call)
  }

  /** `_try_parse_tool_call_from_text`: search the fenced block first, and the whole
      text when the block yields no object. */
  function TryParseToolCall(text: string, o: Oracles): (r: Option<ToolCall>)
    ensures r.Some? ==> r.value.command != ""
  {
    var block := o.fence(text);
    var data :=
      match ExtractFirstJson(block.GetOr(text), o)
      case Some(d) => Some(d)
      case None => if block.Some? then ExtractFirstJson(text, o) else None;
    match data
    case None => None
    case Some(d) => Normalise(d, o)
  }

  /** The three documented shapes of a call. */
  datatype Shape = Nested | Flat | Bare

  function Encode(call: ToolCall, shape: Shape): Assoc.Record<Json> {
    match shape
    case Nested =>
      [("execute_command", JObj([("command", JStr(call.command)), ("reason", JStr(call.reason))]))]
    case Flat => [("execute_command", JStr(call.command)), ("reason", JStr(call.reason))]
    case Bare => [("command", JStr(call.command)), ("reason", JStr(call.reason))]
  }

  /** Each documented shape normalises back to the call it encodes. */
  lemma NormaliseShapes(call: ToolCall, shape: Shape, o: Oracles)
    requires call.command != ""
    ensures Normalise(Encode(call, shape), o) == Some(call)
  {
    var c, r := ("command", JStr(call.command)), ("reason", JStr(call.reason));
    var pair := [c] + [r];
    assert [c, r] == pair;
    Assoc.GetHead(c.0, c.1, [r]);
    Assoc.GetSkip(c, [r], "reason");
    Assoc.GetHead(r.0, r.1, []);
    match shape
    case Nested =>
      var e := ("execute_command", JObj(pair));
      assert Encode(call, shape) == [e] + [];
      Assoc.GetHead(e.0, e.1, []);
      Assoc.GetSkip(e, [], "reason");
    case Flat =>
      var e := ("execute_command", JStr(call.command));
      assert Encode(call, shape) == [e] + [r];
      Assoc.GetHead(e.0, e.1, [r]);
      Assoc.GetSkip(e, [r], "reason");
    case Bare =>
      assert Encode(call, shape) == pair;
      Assoc.GetSkip(c, [r], "execute_command");
      Assoc.GetSkip(r, [], "execute_command");
  }

  /** In the nested shape a missing inner reason falls back to the outer one. */
  lemma NestedReasonFallsBack(command: string, reason: string, o: Oracles)
    requires command != ""
    ensures Normalise([("execute_command", JObj([("command", JStr(command))])),
                       ("reason", JStr(reason))], o) == Some(ToolCall(command, reason))
  {
    var c, r := ("command", JStr(command)), ("reason", JStr(reason));
    var e := ("execute_command", JObj([c]));
    assert [e, r] == [e] + [r] && [c] == [c] + [];
    Assoc.GetHead(e.0, e.1, [r]);
    Assoc.GetSkip(e, [r], "reason");
    Assoc.GetHead(r.0, r.1, []);
    Assoc.GetHead(c.0, c.1, []);
    Assoc.GetSkip(c, [], "reason");
  }

  /** A `null`, boolean, numeric or list `execute_command` is ignored in favour of the
      top-level `command`, exactly as an absent one. */
  lemma NonStringNonDictIgnored(v: Json, rest: Assoc.Record<Json>, o: Oracles)
    requires !v.JStr? && !v.JObj?
    requires !Assoc.HasKey(rest, "execute_command")
    ensures Normalise([("execute_command", v)] + rest, o) == Normalise(rest, o)
  {
    var e := ("execute_command", v);
    Assoc.GetHead(e.0, e.1, rest);
    Assoc.GetSkip(e, rest, "command");
    Assoc.GetSkip(e, rest, "reason");
  }

  /** A fenced block holding an object wins over anything outside the fence. */
  lemma FencedBlockWins(text: string, o: Oracles)
    requires o.fence(text).Some? && ExtractFirstJson(o.fence(text).value, o).Some?
    ensures TryParseToolCall(text, o) == Normalise(ExtractFirstJson(o.fence(text).value, o).value, o)
  {
  }

  /** A fenced block without an object falls back to the whole text, exactly as if
      there had been no fence. */
  lemma FenceFallsBack(text: string, o: Oracles, o': Oracles)
    requires o.fence(text).Some? && ExtractFirstJson(o.fence(text).value, o).None?
    requires o'.fence(text).None? && o'.loads == o.loads && o'.containerRepr == o.containerRepr
    ensures TryParseToolCall(text, o) == TryParseToolCall(text, o')
  {
  }

  // ---------------------------------------------------------------------------
  // The walk depends only on what it has read.

  lemma {:induction false} StatePrefix(s: string, rest: string, start: nat, i: nat)
    requires start <= i <= |s|
    ensures StateAt(s + rest, start, i) == StateAt(s, start, i)
    decreases i - start
  {
    if i > start {
      StatePrefix(s, rest, start, i - 1);
      assert (s + rest)[i - 1] == s[i - 1];
    }
  }

  lemma ClosesPrefix(s: string, rest: string, start: nat, k: nat)
    requires start <= k < |s|
    ensures ClosesAt(s + rest, start, k) == ClosesAt(s, start, k)
  {
    StatePrefix(s, rest, start, k);
    assert (s + rest)[k] == s[k];
  }

  /** Text after the first balanced object cannot change what is extracted: the
      walk stops at the balancing brace and never looks further. */
  lemma ExtractFirstIgnoresSuffix(s: string, rest: string, o: Oracles)
    requires FirstSpan(s).Some?
    ensures FirstSpan(s + rest) == FirstSpan(s)
    ensures ExtractFirstJson(s + rest, o) == ExtractFirstJson(s, o)
  {
    var (a, e) := FirstSpan(s).value;
    FirstBraceKept(s, rest, a);
    MatchingKept(s, rest, a, e);
    assert (s + rest)[a..e + 1] == s[a..e + 1];
  }

  lemma FirstBraceKept(s: string, rest: string, a: nat)
    requires a < |s| && s[a] == '{' && '{' !in s[..a]
    ensures Text.FindFrom(s + rest, '{', 0) == Some(a)
  {
    var t := s + rest;
    assert t[a] == '{';
    forall k | 0 <= k < a ensures t[k] != '{' {
      assert t[k] == s[..a][k] && s[..a][k] in s[..a];
    }
  }

  lemma MatchingKept(s: string, rest: string, a: nat, e: nat)
    requires a <= e < |s| && ClosesAt(s, a, e)
    requires forall k :: a <= k < e ==> !ClosesAt(s, a, k)
    ensures MatchingBrace(s + rest, a) == Some(e)
  {
    ClosesPrefix(s, rest, a, e);
    forall k | a <= k < e ensures !ClosesAt(s + rest, a, k) {
      ClosesPrefix(s, rest, a, k);
    }
  }

  // ---------------------------------------------------------------------------
  // Braces inside string literals do not count.

  lemma {:induction false} InsideStringInert(s: string, start: nat, i: nat, j: nat)
    requires start <= i <= j <= |s|
    requires StateAt(s, start, i).inString && !StateAt(s, start, i).escape
    requires forall k :: i <= k < j ==> s[k] != '"' && s[k] != '\\'
    ensures StateAt(s, start, j) == StateAt(s, start, i)
    decreases j - i
  {
    if j > i {
      InsideStringInert(s, start, i, j - 1);
    }
  }

  /** `{"w"}`: an object whose only content is the string literal `w`. */
  function LiteralObject(w: string): string {
    "{\"" + w + "\"}"
  }

  predicate PlainLiteral(w: string) {
    forall k :: 0 <= k < |w| ==> w[k] != '"' && w[k] != '\\'
  }

  /** An object whose only content is a string literal balances at its own last
      brace, whatever braces the literal holds. */
  lemma StringLiteralBraces(w: string)
    requires PlainLiteral(w)
    ensures MatchingBrace(LiteralObject(w), 0) == Some(|w| + 3)
  {
    LiteralCloses(w);
    LiteralNoEarlyClose(w);
  }

  /** Inside the literal the walk stays at depth one, in a string. */
  lemma LiteralInside(w: string)
    requires PlainLiteral(w)
    ensures forall k :: 2 <= k <= |w| + 2 ==> StateAt(LiteralObject(w), 0, k) == ScanState(1, true, false)
  {
    var s := LiteralObject(w);
    assert s[0] == '{' && s[1] == '"';
    assert StateAt(s, 0, 2) == ScanState(1, true, false);
    forall k | 2 <= k <= |w| + 2 ensures StateAt(s, 0, k) == ScanState(1, true, false) {
      assert forall j :: 2 <= j < k ==> s[j] == w[j - 2];
      InsideStringInert(s, 0, 2, k);
    }
  }

  lemma LiteralCloses(w: string)
    requires PlainLiteral(w)
    ensures ClosesAt(LiteralObject(w), 0, |w| + 3)
  {
    var s := LiteralObject(w);
    LiteralInside(w);
    assert s[|w| + 2] == '"' && s[|w| + 3] == '}';
  }

  lemma LiteralNoEarlyClose(w: string)
    requires PlainLiteral(w)
    ensures forall k :: 0 <= k < |w| + 3 ==> !ClosesAt(LiteralObject(w), 0, k)
  {
    var s := LiteralObject(w);
    LiteralInside(w);
    assert s[0] == '{' && s[1] == '"';
  }

  // ---------------------------------------------------------------------------
  // Every call in a multi-step reply.

  /** The balanced objects the multi-step scan visits from `pos` on: left to right,
      stopping at the first `{` that never balances. */
  function Spans(text: string, pos: nat): (r: seq<(nat, nat)>)
    decreases |text| - pos
    ensures forall i :: 0 <= i < |r| ==> pos <= r[i].0 <= r[i].1 < |text|
    ensures forall i :: 0 <= i < |r| ==> text[r[i].0] == '{' && ClosesAt(text, r[i].0, r[i].1)
    ensures forall i, j :: 0 <= i < j < |r| ==> r[i].1 < r[j].0
  {
    if pos >= |text| || Text.FindFrom(text, '{', pos).None? then []
    else
      var a := Text.FindFrom(text, '{', pos).value;
      if MatchingBrace(text, a).None? then []
      else
        var e := MatchingBrace(text, a).value;
        [(a, e)] + Spans(text, e + 1)
  }

  /** The call one object yields, if any. */
  function CallOf(text: string, span: (nat, nat), o: Oracles): (r: seq<ToolCall>)
    requires span.0 <= span.1 < |text|
    ensures |r| <= 1
    ensures forall c :: c in r ==> c.command != ""
  {
    match o.loads(text[span.0..span.1 + 1])
    case None => []
    case Some(d) =>
      match Normalise(d, o)
      case None => []
      case Some(c) => [c]
  }

  /** `_extract_all_tool_calls_from_text`, as the loop runs it from `pos`. */
  function ExtractAllFrom(text: string, pos: nat, o: Oracles): (calls: seq<ToolCall>)
    decreases |text| - pos
    ensures forall c :: c in calls ==> c.command != ""
  {
    if pos >= |text| || Text.FindFrom(text, '{', pos).None? then []
    else
      var a := Text.FindFrom(text, '{', pos).value;
      if MatchingBrace(text, a).None? then []
      else
        var e := MatchingBrace(text, a).value;
        CallOf(text, (a, e), o) + ExtractAllFrom(text, e + 1, o)
  }

  function ExtractAll(text: string, o: Oracles): (calls: seq<ToolCall>)
    ensures forall c :: c in calls ==> c.command != ""
  {
    ExtractAllFrom(text, 0, o)
  }

  /** The calls of a list of spans, in order. */
  function CallsOf(text: string, spans: seq<(nat, nat)>, o: Oracles): seq<ToolCall>
    requires forall i :: 0 <= i < |spans| ==> spans[i].0 <= spans[i].1 < |text|
  {
    if |spans| == 0 then [] else CallOf(text, spans[0], o) + CallsOf(text, spans[1..], o)
  }

  /** The scan yields, in order, exactly the calls of the disjoint balanced objects
      it visits; objects that do not parse or carry no command add nothing. */
  lemma {:induction false} ExtractAllIsCallsOfSpans(text: string, pos: nat, o: Oracles)
    ensures ExtractAllFrom(text, pos, o) == CallsOf(text, Spans(text, pos), o)
    ensures |ExtractAllFrom(text, pos, o)| <= |Spans(text, pos)|
    decreases |text| - pos
  {
    if pos < |text| && Text.FindFrom(text, '{', pos).Some? {
      var a := Text.FindFrom(text, '{', pos).value;
      if MatchingBrace(text, a).Some? {
        var e := MatchingBrace(text, a).value;
        ExtractAllIsCallsOfSpans(text, e + 1, o);
        ScanStep(text, pos, a, e, o);
      }
    }
  }

  /** One round of the scan, for both the spans and the calls. */
  lemma ScanStep(text: string, pos: nat, a: nat, e: nat, o: Oracles)
    requires pos < |text| && Text.FindFrom(text, '{', pos) == Some(a)
    requires MatchingBrace(text, a) == Some(e)
    ensures Spans(text, pos) == [(a, e)] + Spans(text, e + 1)
    ensures ExtractAllFrom(text, pos, o) == CallOf(text, (a, e), o) + ExtractAllFrom(text, e + 1, o)
    ensures CallsOf(text, Spans(text, pos), o) == CallOf(text, (a, e), o) + CallsOf(text, Spans(text, e + 1), o)
  {
    var sp := Spans(text, pos);
    assert sp[1..] == Spans(text, e + 1);
  }

  /** The first object the multi-step scan visits is the one the single-call parser
      reads when there is no fence; when it yields a call, both parsers agree. */
  lemma FirstCallAgrees(text: string, o: Oracles)
    requires o.fence(text).None?
    requires TryParseToolCall(text, o).Some?
    ensures |ExtractAll(text, o)| > 0 && ExtractAll(text, o)[0] == TryParseToolCall(text, o).value
  {
    UnfencedParse(text, o);
    var (a, e) := FirstSpan(text).value;
    ScanStep(text, 0, a, e, o);
  }

  /** Without a fence the single-call parser reads the first balanced object. */
  lemma UnfencedParse(text: string, o: Oracles)
    requires o.fence(text).None?
    requires TryParseToolCall(text, o).Some?
    ensures FirstSpan(text).Some?
    ensures CallOf(text, FirstSpan(text).value, o) == [TryParseToolCall(text, o).value]
  {
  }
}
