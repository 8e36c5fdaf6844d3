/** The three-tier command sandbox of the chat agent: a command is safe (run at
    once), confirm (asks the user) or blocked, and chaining operators are refused
    before any tier is looked at. Python's `shlex.split` and the four dangerous-
    invocation regular expressions are outside the model and come in as
    `Oracles`. */
module Sandbox {
  import opened Wrappers
  import Text

  datatype Tier = Safe | Confirm | Blocked

  const GreenCommands: set<string> := {"ls", "dir", "cat", "type", "echo", "nvidia-smi", "systeminfo"}
  const GreenGitSubcommands: set<string> := {"status", "log", "diff"}
  const GreenOllamaSubcommands: set<string> := {"list"}
  const YellowCommands: set<string> := {"pip", "npm", "mkdir", "cp", "move", "python"}
  const YellowGitSubcommands: set<string> := {"add", "commit", "push"}
  const RedCommands: set<string> := {"rm", "del", "format", "reg", "shutdown", "taskkill", "eval", "exec"}
  const Extensions: seq<string> := [".exe", ".bat", ".cmd", ".com"]

  const InjectionReason := "Shell injection pattern detected. Chaining operators (;  &&  ||  |  `  $()) are not allowed."
  const MalformedReason := "Malformed command (invalid quoting)"
  const PolicyReason := "Command is blocked by security policy"

  /** The dangerous invocation patterns, searched case-insensitively in this order. */
  datatype RedPattern = PowershellEncoded | CmdSlashC | CurlToShell | WgetToShell

  const RedPatterns: seq<RedPattern> := [PowershellEncoded, CmdSlashC, CurlToShell, WgetToShell]

  /** The source text of each pattern, as it appears in a block reason. */
  function PatternSource(p: RedPattern): string
  {
    match p
    case PowershellEncoded => "\\bpowershell\\b.*\\b-enc\\b"
    case CmdSlashC => "\\bcmd\\b\\s+/c\\b"
    case CurlToShell => "\\bcurl\\b.*\\|\\s*\\bsh\\b"
    case WgetToShell => "\\bwget\\b.*\\|\\s*\\bsh\\b"
  }

  /** `shlex.split(command, posix=True)` (None when it raises) and `pattern.search`. */
  datatype Oracles = Oracles(shlexSplit: string -> Option<seq<string>>, search: (RedPattern, string) -> bool)

  /** The first pattern that matches, in table order. */
  function FirstRedMatch(command: string, o: Oracles): (r: Option<RedPattern>)
    ensures r.None? <==> forall p :: p in RedPatterns ==> !o.search(p, command)
    ensures r.Some? ==> o.search(r.value, command)
    ensures r.Some? ==> forall k :: 0 <= k < |RedPatterns| && RedPatterns[k] == r.value ==>
      forall j :: 0 <= j < k ==> !o.search(RedPatterns[j], command)
  {
    if o.search(PowershellEncoded, command) then Some(PowershellEncoded)
    else if o.search(CmdSlashC, command) then Some(CmdSlashC)
    else if o.search(CurlToShell, command) then Some(CurlToShell)
    else if o.search(WgetToShell, command) then Some(WgetToShell)
    else None
  }

  // ---------------------------------------------------------------------------
  // Injection detection

  /** An injection operator starts at `i`: one of `;`, `|`, a backtick, or the
      pairs `&&` and `$(`. (`||` starts with `|`.) */
  predicate InjectionAt(s: string, i: nat)
    requires i < |s|
  {
    s[i] == ';' || s[i] == '|' || s[i] == '`'
    || (s[i] == '&' && i + 1 < |s| && s[i + 1] == '&')
    || (s[i] == '$' && i + 1 < |s| && s[i + 1] == '(')
  }

  predicate HasInjection(s: string) {
    exists i: nat :: i < |s| && InjectionAt(s, i)
  }

  /** The first index at or after `from` where an injection operator starts. */
  function FindInjection(s: string, from: nat): (r: Option<nat>)
    decreases |s| - from
    ensures r.Some? ==> from <= r.value < |s| && InjectionAt(s, r.value)
    ensures r.Some? ==> forall k: nat :: from <= k < r.value ==> !InjectionAt(s, k)
    ensures r.None? ==> forall k: nat :: from <= k < |s| ==> !InjectionAt(s, k)
  {
    if from >= |s| then None
    else if InjectionAt(s, from) then Some(from)
    else FindInjection(s, from + 1)
  }

  /** `check_injection`: the operator search over the whole command. */
  function CheckInjection(s: string): (found: bool)
    ensures found <==> HasInjection(s)
  {
    FindInjection(s, 0).Some?
  }

  // ---------------------------------------------------------------------------
  // The bare executable name

  /** `s.rsplit(c, 1)[-1]`: what follows the last `c`, or all of `s`. */
  function AfterLast(s: string, c: char): (r: string)
    ensures c !in r
    ensures Text.EndsWith(s, r)
    ensures c !in s ==> r == s
  {
    match Text.RFind(s, c)
    case None => s
    case Some(i) => s[i + 1..]
  }

  /** Drops the first of `.exe`, `.bat`, `.cmd`, `.com` that ends the name. */
  function DropExtension(name: string): (r: string)
    ensures (exists e :: e in Extensions && Text.EndsWith(name, e)) ==> |r| == |name| - 4 && r == name[..|r|]
    ensures (forall e :: e in Extensions ==> !Text.EndsWith(name, e)) ==> r == name
  {
    if Text.EndsWith(name, ".exe") then name[..|name| - 4]
    else if Text.EndsWith(name, ".bat") then name[..|name| - 4]
    else if Text.EndsWith(name, ".cmd") then name[..|name| - 4]
    else if Text.EndsWith(name, ".com") then name[..|name| - 4]
    else name
  }

  /** The lower-cased executable name with any directory and one extension removed,
      so that `/usr/bin/rm` and `C:\Windows\system32\cmd.exe` read as `rm` and `cmd`. */
  function BareName(token: string): (r: string)
    ensures '/' !in r && '\\' !in r
  {
    var base := Text.Lower(token);
    var name := AfterLast(AfterLast(base, '/'), '\\');
    var r := DropExtension(name);
    assert forall k :: 0 <= k < |r| ==> r[k] == name[k];
    r
  }

  /** A directory in front of the name changes nothing. */
  lemma BareNameIgnoresDirectory(dir: string, name: string)
    requires '/' !in name && '\\' !in name
    ensures BareName(dir + "/" + name) == BareName(name)
  {
    var full := dir + "/" + name;
    var low := Text.Lower(full);
    var lowName := Text.Lower(name);
    assert low == Text.Lower(dir) + "/" + lowName;
    assert '/' !in lowName;
    assert '\\' !in lowName;
    assert low[|dir|] == '/';
    assert forall k :: |dir| < k < |low| ==> low[k] == lowName[k - |dir| - 1];
    assert Text.RFind(low, '/') == Some(|dir|);
    assert AfterLast(low, '/') == lowName;
  }

  // ---------------------------------------------------------------------------
  // Classification

  /** Tokens the tables mark read-only: a green command, a read-only `git`
      sub-command or `ollama list`. */
  predicate ReadOnlyInvocation(tokens: seq<string>)
    requires |tokens| > 0
  {
    ReadOnlyCall(BareName(tokens[0]), Subcommand(tokens))
  }

  /** The lower-cased second token, or "" for a one-token command. */
  function Subcommand(tokens: seq<string>): string {
    if |tokens| > 1 then Text.Lower(tokens[1]) else ""
  }

  /** A GREEN call: a read-only name, or a read-only git/ollama subcommand. */
  predicate ReadOnlyCall(bare: string, sub: string) {
    (bare == "git" && sub in GreenGitSubcommands)
    || (bare == "ollama" && sub in GreenOllamaSubcommands)
    || (bare != "git" && bare != "ollama" && bare in GreenCommands)
  }


  /** Why a stripped command is blocked before its tier is looked up. */
  predicate BlockedUpFront(c: string, o: Oracles) {
    c == ""
    || FirstRedMatch(c, o).Some?
    || o.shlexSplit(c).None?
    || o.shlexSplit(c).value == []
    || BareName(o.shlexSplit(c).value[0]) in RedCommands
  }

  function Classify(command: string, o: Oracles): (t: Tier)
    ensures var c := Text.Strip(command);
      && (t == Blocked <==> BlockedUpFront(c, o))
      && (t == Safe <==> !BlockedUpFront(c, o) && ReadOnlyInvocation(o.shlexSplit(c).value))
  {
    var c := Text.Strip(command);
    if c == "" then Blocked
    else if FirstRedMatch(c, o).Some? then Blocked
    else
      match o.shlexSplit(c)
      case None => Blocked
      case Some(tokens) =>
        if tokens == [] then Blocked
        else CallTier(BareName(tokens[0]), Subcommand(tokens))
  }

  /** The tier of a parsed call from its bare name and subcommand: RED names are
      blocked, GREEN calls run, YELLOW and unknown calls ask first. */
  function CallTier(bare: string, sub: string): (t: Tier)
    ensures t == Blocked <==> bare in RedCommands
    ensures t == Safe <==> bare !in RedCommands && ReadOnlyCall(bare, sub)
  {
    if bare in RedCommands then Blocked
    else if bare == "git" then
      if sub in GreenGitSubcommands then Safe
      else if sub in YellowGitSubcommands then Confirm
      else Confirm
    else if bare == "ollama" then
      if sub in GreenOllamaSubcommands then Safe else Confirm
    else if bare in GreenCommands then Safe
    else if bare in YellowCommands then Confirm
    else Confirm
  }

  /** A write command is never run without asking. */
  lemma YellowNeverSafe(command: string, o: Oracles)
    requires var c := Text.Strip(command);
      o.shlexSplit(c).Some? && |o.shlexSplit(c).value| > 0 && BareName(o.shlexSplit(c).value[0]) in YellowCommands
    ensures Classify(command, o) != Safe
  {
    var bare := BareName(o.shlexSplit(Text.Strip(command)).value[0]);
    YellowIsNotGreen(bare);
  }

  lemma YellowIsNotGreen(name: string)
    requires name in YellowCommands
    ensures name !in GreenCommands && name !in RedCommands && name != "git" && name != "ollama"
  {
    if name == "pip" {
    } else if name == "npm" {
    } else if name == "mkdir" {
    } else if name == "cp" {
    } else if name == "move" {
    } else {
      assert name == "python";
    }
  }

  /** A name outside every table, once past the blocking checks, asks for confirmation. */
  lemma UnknownAsksFirst(command: string, o: Oracles)
    requires var c := Text.Strip(command);
      && !BlockedUpFront(c, o)
      && var bare := BareName(o.shlexSplit(c).value[0]);
      bare !in GreenCommands && bare !in YellowCommands && bare != "git" && bare != "ollama"
    ensures Classify(command, o) == Confirm
  {
  }

  /** The reason given for a block, checked in the same order as the tiers. */
  function BlockReason(c: string, o: Oracles): (reason: string)
    ensures FirstRedMatch(c, o).Some? ==> reason == "Matches dangerous pattern: " + PatternSource(FirstRedMatch(c, o).value)
    ensures FirstRedMatch(c, o).None? && o.shlexSplit(c).None? ==> reason == MalformedReason
    ensures (FirstRedMatch(c, o).None? && o.shlexSplit(c).Some? && o.shlexSplit(c).value != []
             && BareName(o.shlexSplit(c).value[0]) in RedCommands) ==>
      reason == "Command '" + BareName(o.shlexSplit(c).value[0]) + "' is in the RED (blocked) tier — destructive operations are not allowed"
    ensures (FirstRedMatch(c, o).None? && o.shlexSplit(c).Some? &&
             (o.shlexSplit(c).value == [] || BareName(o.shlexSplit(c).value[0]) !in RedCommands)) ==>
      reason == PolicyReason
  {
    match FirstRedMatch(c, o)
    case Some(p) => "Matches dangerous pattern: " + PatternSource(p)
    case None =>
      match o.shlexSplit(c)
      case None => MalformedReason
      case Some(tokens) =>
        if tokens != [] && BareName(tokens[0]) in RedCommands then
          "Command '" + BareName(tokens[0]) + "' is in the RED (blocked) tier — destructive operations are not allowed"
        else PolicyReason
  }

  /** `validate`: injection first, then the tier; a reason exactly when blocked. */
  function Validate(command: string, o: Oracles): (r: (Tier, Option<string>))
    ensures r.1.None? <==> r.0 != Blocked
    ensures Text.Strip(command) == "" ==> r == (Blocked, Some("Empty command"))
    ensures Text.Strip(command) != "" && HasInjection(Text.Strip(command)) ==> r == (Blocked, Some(InjectionReason))
    ensures Text.Strip(command) != "" && !HasInjection(Text.Strip(command)) ==> r.0 == Classify(command, o)
    ensures (Text.Strip(command) != "" && !HasInjection(Text.Strip(command)) && Classify(command, o) == Blocked) ==>
      r.1 == Some(BlockReason(Text.Strip(command), o))
    ensures r.0 != Blocked ==> !HasInjection(Text.Strip(command)) && r.0 == Classify(command, o)
  {
    var c := Text.Strip(command);
    Text.StripIdempotent(command);
    if c == "" then (Blocked, Some("Empty command"))
    else if CheckInjection(c) then (Blocked, Some(InjectionReason))
    else
      var t := Classify(c, o);
      if t == Blocked then (Blocked, Some(BlockReason(c, o))) else (t, None)
  }

  /** Chaining anything onto a command with `;` is blocked as an injection, whatever
      the two halves are and whatever the parser and patterns say. */
  lemma ChainingIsBlocked(first: string, rest: string, o: Oracles)
    ensures Validate(first + ";" + rest, o) == (Blocked, Some(InjectionReason))
  {
    var s := first + ";" + rest;
    assert s[|first|] == ';';
    Text.StripKeeps(s, |first|);
    var c := Text.Strip(s);
    var j :| 0 <= j < |c| && c[j] == ';';
    assert InjectionAt(c, j);
  }
}
