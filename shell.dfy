/**
 * The command shell (src/shell.cpp, src/shell.h): a tree of command
 * interpreters with fixed command tables, exact and prefix search, command
 * execution with its result codes, tab completion, and the line buffer that
 * collects typed characters.
 *
 * Command handlers are function pointers whose bodies are outside the model:
 * a call is recorded as an `Invocation`. Serial output is not modelled.
 */
module CommandShell {
  import opened Common
  import opened ShellText

  const MAX_COMMAND_LENGTH: nat := 64
  const MAX_CMD_PER_INTP: nat := 16
  const MAX_SUB_INTP_PER_INTP: nat := 8

  /** A command handler (a function pointer), known by its identity only. */
  datatype Handler = Handler(id: nat)

  /** A command table slot; an empty slot has no handler. */
  datatype CommandItem = CommandItem(name: seq<char>, description: seq<char>, handle: Option<Handler>)

  const EMPTY_ITEM: CommandItem := CommandItem([], [], None)

  /** A call of a command handler with its argument string. */
  datatype Invocation = Invocation(handler: Handler, args: seq<char>)

  /** The result code of executeCommand and the handler it called, if any. */
  datatype Outcome = Outcome(code: int, call: Option<Invocation>)

  // ---------------------------------------------------------------------------
  // Searching a table

  /** The name a search compares in a slot, or None when the search skips the slot. */
  predicate SlotMatches(slot: Option<seq<char>>, fullmatch: bool, query: seq<char>)
  {
    slot.Some? && NameMatches(fullmatch, query, slot.value)
  }

  /** The indices below `n` whose slots match, in table order. */
  function Matches(names: seq<Option<seq<char>>>, n: nat, fullmatch: bool, query: seq<char>): (r: seq<nat>)
    requires n <= |names|
    ensures |r| <= n
    ensures forall k :: 0 <= k < |r| ==> r[k] < n && names[r[k]].Some?
  {
    if n == 0 then []
    else Matches(names, n - 1, fullmatch, query) + (if SlotMatches(names[n - 1], fullmatch, query) then [n - 1] else [])
  }

  /** Exactly the matching slots are found: empty slots and shorter names are skipped. */
  lemma {:induction false} MatchesExactly(names: seq<Option<seq<char>>>, n: nat, fullmatch: bool, query: seq<char>)
    requires n <= |names|
    ensures forall i :: 0 <= i < n ==> (SlotMatches(names[i], fullmatch, query) <==> i in Matches(names, n, fullmatch, query))
  {
    if n > 0 {
      MatchesExactly(names, n - 1, fullmatch, query);
      var r0 := Matches(names, n - 1, fullmatch, query);
      assert forall k :: 0 <= k < |r0| ==> r0[k] < n - 1;
    }
  }

  /** Strictly increasing indices. */
  predicate Increasing(r: seq<nat>)
  {
    forall k, l :: 0 <= k < l < |r| ==> r[k] < r[l]
  }

  /** The matching slots come in table order. */
  lemma {:induction false} MatchesInOrder(names: seq<Option<seq<char>>>, n: nat, fullmatch: bool, query: seq<char>)
    requires n <= |names|
    ensures Increasing(Matches(names, n, fullmatch, query))
  {
    if n > 0 {
      MatchesInOrder(names, n - 1, fullmatch, query);
      var r0 := Matches(names, n - 1, fullmatch, query);
      var r := Matches(names, n, fullmatch, query);
      assert r == r0 + (if SlotMatches(names[n - 1], fullmatch, query) then [n - 1] else []);
      forall k, l | 0 <= k < l < |r|
        ensures r[k] < r[l]
      {
        assert r[k] == r0[k] < n - 1;
        if l < |r0| {
          assert r[l] == r0[l] && r0[k] < r0[l];
        } else {
          assert r[l] == n - 1;
        }
      }
    }
  }

  /** The matches among the first `i` slots are the first matches among the first `j`. */
  lemma {:induction false} MatchesPrefix(names: seq<Option<seq<char>>>, i: nat, j: nat, fullmatch: bool, query: seq<char>)
    requires i <= j <= |names|
    ensures Matches(names, i, fullmatch, query) <= Matches(names, j, fullmatch, query)
    decreases j - i
  {
    if i < j {
      MatchesPrefix(names, i, j - 1, fullmatch, query);
    }
  }

  /** The name a command search compares, or None for a slot without a handler. */
  function CommandSlot(item: CommandItem): Option<seq<char>>
  {
    if item.handle.Some? then Some(item.name) else None
  }

  /** The name an interpreter search compares, or None for an empty slot. */
  function InterpreterSlot(slot: Option<CommandInterpreter>): Option<seq<char>>
  {
    if slot.Some? then Some(slot.value.name) else None
  }

  /** The names a command search sees. */
  function CommandNames(table: seq<CommandItem>): (r: seq<Option<seq<char>>>)
    ensures |r| == |table|
    ensures forall i :: 0 <= i < |table| ==> r[i] == CommandSlot(table[i])
  {
    if table == [] then [] else CommandNames(table[..|table| - 1]) + [CommandSlot(table[|table| - 1])]
  }

  /** The names an interpreter search sees. */
  function InterpreterNames(table: seq<Option<CommandInterpreter>>): (r: seq<Option<seq<char>>>)
    ensures |r| == |table|
    ensures forall i :: 0 <= i < |table| ==> r[i] == InterpreterSlot(table[i])
  {
    if table == [] then [] else InterpreterNames(table[..|table| - 1]) + [InterpreterSlot(table[|table| - 1])]
  }

  /** Every name a search can see fits a 64-byte command buffer. */
  ghost predicate ShortNames(names: seq<Option<seq<char>>>)
  {
    forall i :: 0 <= i < |names| && names[i].Some? ==> |names[i].value| < MAX_COMMAND_LENGTH
  }

  /** The names of the matched commands followed by those of the matched interpreters. */
  function MatchedNames(cnames: seq<Option<seq<char>>>, cm: seq<nat>, inames: seq<Option<seq<char>>>, im: seq<nat>): (r: seq<seq<char>>)
    requires forall k :: 0 <= k < |cm| ==> cm[k] < |cnames| && cnames[cm[k]].Some?
    requires forall k :: 0 <= k < |im| ==> im[k] < |inames| && inames[im[k]].Some?
    ensures |r| == |cm| + |im|
    ensures forall k :: 0 <= k < |cm| ==> r[k] == cnames[cm[k]].value
    ensures forall k :: 0 <= k < |im| ==> r[|cm| + k] == inames[im[k]].value
    ensures ShortNames(cnames) && ShortNames(inames) ==> forall k :: 0 <= k < |r| ==> |r[k]| < MAX_COMMAND_LENGTH
  {
    seq(|cm|, k requires 0 <= k < |cm| => cnames[cm[k]].value)
      + seq(|im|, k requires 0 <= k < |im| => inames[im[k]].value)
  }

  /** `snprintf` into a 64-byte buffer keeps at most 63 characters. */
  function Fit(s: seq<char>): (r: seq<char>)
    ensures |r| < MAX_COMMAND_LENGTH && r <= s
    ensures |s| < MAX_COMMAND_LENGTH ==> r == s
  {
    s[..Min(|s|, MAX_COMMAND_LENGTH - 1)]
  }

  // ---------------------------------------------------------------------------
  // The interpreter tree

  /** Every interpreter of `univ` is well formed and its sub-interpreters are in `univ`. */
  ghost predicate Closed(univ: set<CommandInterpreter>)
    reads univ
  {
    forall x :: x in univ ==> x.Valid() && forall i :: 0 <= i < |x.iplist| && x.iplist[i].Some? ==> x.iplist[i].value in univ
  }

  /**
   * executeCommand: trim the line, split off the first word, look it up by
   * exact (case-insensitive) name, then run the one command found, or descend
   * into the one interpreter found with the rest of the line.
   */
  ghost function ExecuteSpec(univ: set<CommandInterpreter>, ip: CommandInterpreter, line: seq<char>): (r: Outcome)
    reads univ
    requires ip in univ && Closed(univ)
    ensures r.code in {0, -1, -2, -3}
    ensures r.call.Some? ==> r.code == 0
    decreases |line|
  {
    var t := Trim(line);
    if |t| == 0 then Outcome(0, None)
    else
      var split := Split(t);
      var sub := split.0;
      var args := split.1;
      var cm := Matches(CommandNames(ip.cmdlist), MAX_CMD_PER_INTP, true, sub);
      var im := Matches(InterpreterNames(ip.iplist), MAX_SUB_INTP_PER_INTP, true, sub);
      if |cm| == 0 && |im| == 0 then Outcome(-1, None)
      else if |cm| + |im| == 1 then
        if |cm| == 1 then Outcome(0, Some(Invocation(ip.cmdlist[cm[0]].handle.value, args)))
        else if |args| == 0 then Outcome(-3, None)
        else ExecuteSpec(univ, ip.iplist[im[0]].value, args)
      else Outcome(-2, None)
  }

  /** Spacing never matters: executing a line and executing it trimmed do the same. */
  lemma ExecuteIgnoresSpacing(univ: set<CommandInterpreter>, ip: CommandInterpreter, line: seq<char>)
    requires ip in univ && Closed(univ)
    ensures ExecuteSpec(univ, ip, Trim(line)) == ExecuteSpec(univ, ip, line)
  {
    TrimIdempotent(line);
  }

  /**
   * A handler always receives trimmed arguments, however deep the interpreter that
   * owns it: no leading or trailing space and no doubled space.
   */
  lemma {:induction false} ExecuteArgsNormalised(univ: set<CommandInterpreter>, ip: CommandInterpreter, line: seq<char>)
    requires ip in univ && Closed(univ)
    ensures var r := ExecuteSpec(univ, ip, line); r.call.Some? ==> Normalised(r.call.value.args)
    decreases |line|
  {
    var t := Trim(line);
    if |t| > 0 {
      TrimNormalised(line);
      SplitArgsNormalised(t);
      var split := Split(t);
      var cm := Matches(CommandNames(ip.cmdlist), MAX_CMD_PER_INTP, true, split.0);
      var im := Matches(InterpreterNames(ip.iplist), MAX_SUB_INTP_PER_INTP, true, split.0);
      if |cm| == 0 && |im| == 1 && |split.1| > 0 {
        assert im[0] < |ip.iplist| && ip.iplist[im[0]].Some?;
        ExecuteArgsNormalised(univ, ip.iplist[im[0]].value, split.1);
      }
    }
  }

  /**
   * The multiple-match case of autocompleteHandle: when the matched names share
   * a prefix longer than the typed word, the line becomes that prefix;
   * otherwise the match is ambiguous and the line stays.
   */
  function CompleteCommon(names: seq<seq<char>>, sub: seq<char>, line: seq<char>): (r: (int, seq<char>))
    requires |names| > 0
    ensures r.0 in {0, -2}
    ensures r.0 == 0 ==> |sub| < |r.1| && IsLcp(names, |r.1|) && r.1 <= names[0]
    ensures r.0 == -2 ==> r.1 == line && IsLcp(names, Lcp(names)) && Lcp(names) <= |sub|
  {
    var k := Lcp(names);
    if k > |sub| then (0, names[0][..k]) else (-2, line)
  }

  /**
   * autocompleteHandle: the result code (0 complete, -1 not found, -2 ambiguous)
   * and the line left in the caller's buffer.
   */
  ghost function AutocompleteSpec(univ: set<CommandInterpreter>, ip: CommandInterpreter, line: seq<char>, displayOnly: bool): (r: (int, seq<char>))
    reads univ
    requires ip in univ && Closed(univ)
    ensures r.0 in {0, -1, -2}
    ensures r.0 != 0 ==> r.1 == line
    ensures |line| < MAX_COMMAND_LENGTH ==> |r.1| < MAX_COMMAND_LENGTH
    decreases |line|, 1
  {
    var split := Split(line);
    var cm := Matches(CommandNames(ip.cmdlist), MAX_CMD_PER_INTP, false, split.0);
    var im := Matches(InterpreterNames(ip.iplist), MAX_SUB_INTP_PER_INTP, false, split.0);
    if |cm| + |im| == 0 then (-1, line)
    else if |cm| + |im| == 1 then OneMatchSpec(univ, ip, line, split, cm, im, displayOnly)
    else
      ShortNamesOf(univ, ip);
      CompleteCommon(MatchedNames(CommandNames(ip.cmdlist), cm, InterpreterNames(ip.iplist), im), split.0, line)
  }

  /**
   * The one-match case of autocompleteHandle: help only leaves the line as it
   * is; a command is completed with a space unless the line has one after it
   * already; an interpreter followed by a space completes the rest of the line
   * recursively, otherwise it is completed with a space.
   */
  ghost function OneMatchSpec(univ: set<CommandInterpreter>, ip: CommandInterpreter, line: seq<char>, split: (seq<char>, seq<char>, bool), cm: seq<nat>, im: seq<nat>, displayOnly: bool): (r: (int, seq<char>))
    reads univ
    requires ip in univ && Closed(univ)
    requires split == Split(line)
    requires cm == Matches(CommandNames(ip.cmdlist), MAX_CMD_PER_INTP, false, split.0)
    requires im == Matches(InterpreterNames(ip.iplist), MAX_SUB_INTP_PER_INTP, false, split.0)
    requires |cm| + |im| == 1
    ensures r.0 in {0, -1, -2}
    ensures r.0 != 0 ==> r.1 == line
    ensures |line| < MAX_COMMAND_LENGTH ==> |r.1| < MAX_COMMAND_LENGTH
    decreases |line|, 0
  {
    if displayOnly then (0, line)
    else if |cm| == 1 then (0, if split.2 then line else Fit(ip.cmdlist[cm[0]].name + [SPACE]))
    else if split.2 then
      var inner := AutocompleteSpec(univ, ip.iplist[im[0]].value, split.1, false);
      (inner.0, if inner.0 == 0 then Fit(split.0 + [SPACE] + inner.1) else line)
    else (0, Fit(ip.iplist[im[0]].value.name + [SPACE]))
  }

  /** The names an interpreter of a closed universe offers to a search fit a command buffer. */
  lemma ShortNamesOf(univ: set<CommandInterpreter>, ip: CommandInterpreter)
    requires ip in univ && Closed(univ)
    ensures ShortNames(CommandNames(ip.cmdlist)) && ShortNames(InterpreterNames(ip.iplist))
  {
    var cnames := CommandNames(ip.cmdlist);
    forall i | 0 <= i < |cnames| && cnames[i].Some?
      ensures |cnames[i].value| < MAX_COMMAND_LENGTH
    {
      assert ip.cmdlist[i] != EMPTY_ITEM;
    }
    var inames := InterpreterNames(ip.iplist);
    forall i | 0 <= i < |inames| && inames[i].Some?
      ensures |inames[i].value| < MAX_COMMAND_LENGTH
    {
      assert ip.iplist[i].value in univ;
    }
  }

  /** A command interpreter: up to 16 commands and 8 sub-interpreters. */
  class CommandInterpreter {
    var cmdlist: seq<CommandItem>
    var iplist: seq<Option<CommandInterpreter>>
    var cmdCount: nat
    var ipCount: nat
    const name: seq<char>
    const description: seq<char>

    /**
     * The tables have their fixed sizes, the slots from the count on are empty,
     * and every name fits a 64-byte command buffer and holds no NUL.
     */
    ghost predicate Valid()
      reads this
    {
      && |cmdlist| == MAX_CMD_PER_INTP && |iplist| == MAX_SUB_INTP_PER_INTP
      && cmdCount <= MAX_CMD_PER_INTP && ipCount <= MAX_SUB_INTP_PER_INTP
      && (forall i :: cmdCount <= i < MAX_CMD_PER_INTP ==> cmdlist[i] == EMPTY_ITEM)
      && (forall i :: 0 <= i < MAX_SUB_INTP_PER_INTP ==> (iplist[i].Some? <==> i < ipCount))
      && |name| < MAX_COMMAND_LENGTH && NoNul(name)
      && (forall i :: 0 <= i < cmdCount ==> |cmdlist[i].name| < MAX_COMMAND_LENGTH && NoNul(cmdlist[i].name))
    }

    constructor(name: seq<char>, description: seq<char>)
      requires |name| < MAX_COMMAND_LENGTH && NoNul(name)
      ensures Valid() && this.name == name && this.description == description
      ensures cmdCount == 0 && ipCount == 0
      ensures forall i :: 0 <= i < |cmdlist| ==> cmdlist[i] == EMPTY_ITEM
      ensures forall i :: 0 <= i < |iplist| ==> iplist[i] == None
    {
      this.name := name;
      this.description := description;
      cmdlist := seq(MAX_CMD_PER_INTP, _ => EMPTY_ITEM);
      iplist := seq(MAX_SUB_INTP_PER_INTP, _ => None);
      cmdCount := 0;
      ipCount := 0;
    }

    /** registerCommand: the next free slot; the source has no capacity check. */
    method RegisterCommand(cmd: seq<char>, desc: seq<char>, handle: Option<Handler>)
      requires Valid() && cmdCount < MAX_CMD_PER_INTP && |cmd| < MAX_COMMAND_LENGTH && NoNul(cmd)
      modifies this`cmdlist, this`cmdCount
      ensures Valid()
      ensures cmdlist == old(cmdlist)[old(cmdCount) := CommandItem(cmd, desc, handle)]
      ensures cmdCount == old(cmdCount) + 1
    {
      var i := cmdCount;
      cmdCount := cmdCount + 1;
      cmdlist := cmdlist[i := CommandItem(cmd, desc, handle)];
    }

    /** registerCommandInterpreter: the next free slot; no capacity check either. */
    method RegisterCommandInterpreter(ip: CommandInterpreter)
      requires Valid() && ipCount < MAX_SUB_INTP_PER_INTP
      modifies this`iplist, this`ipCount
      ensures Valid()
      ensures iplist == old(iplist)[old(ipCount) := Some(ip)]
      ensures ipCount == old(ipCount) + 1
    {
      iplist := iplist[ipCount := Some(ip)];
      ipCount := ipCount + 1;
    }

    /** getCommand: the first registered command whose name equals `cmd` exactly. */
    method GetCommand(cmd: seq<char>) returns (r: Option<nat>)
      requires Valid()
      ensures r.None? ==> forall j :: 0 <= j < cmdCount ==> cmdlist[j].name != cmd
      ensures r.Some? ==> r.value < cmdCount && cmdlist[r.value].name == cmd
      ensures r.Some? ==> forall j :: 0 <= j < r.value ==> cmdlist[j].name != cmd
    {
      var i := 0;
      while i < cmdCount
        invariant i <= cmdCount
        invariant forall j :: 0 <= j < i ==> cmdlist[j].name != cmd
      {
        if cmdlist[i].name == cmd {
          return Some(i);
        }
        i := i + 1;
      }
      return None;
    }

    /** getCommandInterpreter: the first sub-interpreter named exactly `cmd`. */
    method GetCommandInterpreter(cmd: seq<char>) returns (r: Option<CommandInterpreter>)
      requires Valid()
      ensures r.None? ==> forall j :: 0 <= j < ipCount ==> iplist[j].value.name != cmd
      ensures r.Some? ==> r.value.name == cmd
      ensures r.Some? ==> exists i :: 0 <= i < ipCount && iplist[i] == r && forall j :: 0 <= j < i ==> iplist[j].value.name != cmd
    {
      var i := 0;
      while i < ipCount
        invariant i <= ipCount
        invariant forall j :: 0 <= j < i ==> iplist[j].value.name != cmd
      {
        if iplist[i].value.name == cmd {
          return iplist[i];
        }
        i := i + 1;
      }
      return None;
    }

    /**
     * searchCommand: the first `result.Length` matching commands, by slot
     * index, in table order; the rest of `result` is cleared; the count is
     * returned (the new `result_len`).
     */
    method SearchCommand(fullmatch: bool, query: seq<char>, result: array<Option<nat>>) returns (count: nat)
      requires Valid() && 1 <= result.Length
      modifies result
      ensures var m := Matches(CommandNames(cmdlist), MAX_CMD_PER_INTP, fullmatch, query);
        && count == Min(|m|, result.Length)
        && (forall k :: 0 <= k < count ==> result[k] == Some(m[k]))
      ensures forall k :: count <= k < result.Length ==> result[k] == None
    {
      count := SearchSlots(CommandNames(cmdlist), fullmatch, query, result);
    }

    /**
     * searchCommandInterpreter: as searchCommand, over the sub-interpreter
     * slots; a result names the slot whose interpreter matched.
     */
    method SearchCommandInterpreter(fullmatch: bool, query: seq<char>, result: array<Option<nat>>) returns (count: nat)
      requires Valid() && 1 <= result.Length
      modifies result
      ensures var m := Matches(InterpreterNames(iplist), MAX_SUB_INTP_PER_INTP, fullmatch, query);
        && count == Min(|m|, result.Length)
        && (forall k :: 0 <= k < count ==> result[k] == Some(m[k]))
      ensures forall k :: count <= k < result.Length ==> result[k] == None
    {
      count := SearchSlots(InterpreterNames(iplist), fullmatch, query, result);
    }

    /**
     * The two searches executeCommand and autocompleteHandle start with, into
     * result arrays as large as the tables: the slot indices found.
     */
    method Lookup(fullmatch: bool, query: seq<char>) returns (cm: seq<nat>, im: seq<nat>)
      requires Valid()
      ensures cm == Matches(CommandNames(cmdlist), MAX_CMD_PER_INTP, fullmatch, query)
      ensures im == Matches(InterpreterNames(iplist), MAX_SUB_INTP_PER_INTP, fullmatch, query)
    {
      var cmdMatches := new Option<nat>[MAX_CMD_PER_INTP](_ => None);
      var cmdCount := SearchCommand(fullmatch, query, cmdMatches);
      var ipMatches := new Option<nat>[MAX_SUB_INTP_PER_INTP](_ => None);
      var ipCount := SearchCommandInterpreter(fullmatch, query, ipMatches);
      cm := Found(cmdMatches, cmdCount);
      im := Found(ipMatches, ipCount);
    }

    /** The first loops of autocompleteHandle's multiple-match case: the matched names, commands first. */
    method MatchedNamesOf(cm: seq<nat>, im: seq<nat>) returns (names: seq<seq<char>>)
      requires Valid()
      requires forall k :: 0 <= k < |cm| ==> cm[k] < |cmdlist| && CommandNames(cmdlist)[cm[k]].Some?
      requires forall k :: 0 <= k < |im| ==> im[k] < |iplist| && InterpreterNames(iplist)[im[k]].Some?
      ensures names == MatchedNames(CommandNames(cmdlist), cm, InterpreterNames(iplist), im)
    {
      ghost var cnames := CommandNames(cmdlist);
      ghost var inames := InterpreterNames(iplist);
      names := [];
      var i := 0;
      while i < |cm|
        invariant i <= |cm|
        invariant names == MatchedNames(cnames, cm[..i], inames, [])
      {
        names := names + [cmdlist[cm[i]].name];
        i := i + 1;
      }
      i := 0;
      while i < |im|
        invariant i <= |im|
        invariant names == MatchedNames(cnames, cm, inames, im[..i])
      {
        names := names + [iplist[im[i]].value.name];
        i := i + 1;
      }
    }

    /** executeCommand: the outcome is the one `ExecuteSpec` describes. */
    method ExecuteCommand(ghost univ: set<CommandInterpreter>, line: seq<char>) returns (r: Outcome)
      requires this in univ && Closed(univ)
      ensures r == ExecuteSpec(univ, this, line)
      decreases |line|
    {
      var t := Trim(line);
      if |t| == 0 {
        return Outcome(0, None);
      }
      var sub, args, tail := SplitArgs(t);
      var cm, im := Lookup(true, sub);
      if |cm| == 0 && |im| == 0 {
        r := Outcome(-1, None);
      } else if |cm| + |im| == 1 {
        if |cm| == 1 {
          var item := cmdlist[cm[0]];
          r := Outcome(0, Some(Invocation(item.handle.value, args)));
        } else if |args| == 0 {
          r := Outcome(-3, None);
        } else {
          var child := iplist[im[0]].value;
          r := child.ExecuteCommand(univ, args);
        }
      } else {
        r := Outcome(-2, None);
      }
    }

    /**
     * autocompleteHandle: the result code and the new contents of the caller's
     * buffer, as `AutocompleteSpec` describes.
     */
    method AutocompleteHandle(ghost univ: set<CommandInterpreter>, line: seq<char>, displayOnly: bool) returns (code: int, newLine: seq<char>)
      requires this in univ && Closed(univ)
      ensures (code, newLine) == AutocompleteSpec(univ, this, line, displayOnly)
      decreases |line|, 1
    {
      assert Valid();
      var sub, args, tail := SplitArgs(line);
      var cm, im := Lookup(false, sub);
      if |cm| == 0 && |im| == 0 {
        return -1, line;
      }
      if |cm| + |im| == 1 {
        code, newLine := CompleteOne(univ, line, sub, args, tail, cm, im, displayOnly);
        return;
      }
      code, newLine := CompleteAmong(sub, line, cm, im);
    }

    /** The one-match case of autocompleteHandle. */
    method CompleteOne(ghost univ: set<CommandInterpreter>, line: seq<char>, sub: seq<char>, args: seq<char>, tail: bool, cm: seq<nat>, im: seq<nat>, displayOnly: bool)
      returns (code: int, newLine: seq<char>)
      requires this in univ && Closed(univ)
      requires (sub, args, tail) == Split(line)
      requires cm == Matches(CommandNames(cmdlist), MAX_CMD_PER_INTP, false, sub)
      requires im == Matches(InterpreterNames(iplist), MAX_SUB_INTP_PER_INTP, false, sub)
      requires |cm| + |im| == 1
      ensures (code, newLine) == OneMatchSpec(univ, this, line, (sub, args, tail), cm, im, displayOnly)
      decreases |line|, 0
    {
      if displayOnly {
        // The source prints the match's help here.
        return 0, line;
      }
      if |cm| == 1 {
        if tail {
          return 0, line;
        }
        return 0, Fit(cmdlist[cm[0]].name + [SPACE]);
      }
      var child := iplist[im[0]].value;
      if tail {
        var result, rest := child.AutocompleteHandle(univ, args, false);
        if result == 0 {
          return result, Fit(sub + [SPACE] + rest);
        }
        return result, line;
      }
      return 0, Fit(child.name + [SPACE]);
    }

    /** The multiple-match case of autocompleteHandle. */
    method CompleteAmong(sub: seq<char>, line: seq<char>, cm: seq<nat>, im: seq<nat>) returns (code: int, newLine: seq<char>)
      requires Valid()
      requires cm == Matches(CommandNames(cmdlist), MAX_CMD_PER_INTP, false, sub)
      requires im == Matches(InterpreterNames(iplist), MAX_SUB_INTP_PER_INTP, false, sub)
      requires |cm| + |im| > 1
      ensures (code, newLine) == CompleteCommon(MatchedNames(CommandNames(cmdlist), cm, InterpreterNames(iplist), im), sub, line)
    {
      var names := MatchedNamesOf(cm, im);
      var lcpLen := CommonPrefixLength(names);
      if lcpLen > |sub| {
        return 0, names[0][..lcpLen];
      }
      // The source prints the help of every match here.
      return -2, line;
    }
  }

  /** The first `count` entries of a search result, all filled. */
  method Found(result: array<Option<nat>>, count: nat) returns (s: seq<nat>)
    requires count <= result.Length
    requires forall k :: 0 <= k < count ==> result[k].Some?
    ensures |s| == count && forall k :: 0 <= k < count ==> result[k] == Some(s[k])
  {
    s := [];
    var i := 0;
    while i < count
      invariant i <= count && |s| == i
      invariant forall k :: 0 <= k < i ==> result[k] == Some(s[k])
    {
      s := s + [result[i].value];
      i := i + 1;
    }
  }

  /**
   * The loop of searchCommand and searchCommandInterpreter over a table seen
   * through `names`: empty slots and names shorter than the query are skipped,
   * matches are collected until `result` is full, the rest is cleared.
   */
  method SearchSlots(names: seq<Option<seq<char>>>, fullmatch: bool, query: seq<char>, result: array<Option<nat>>) returns (count: nat)
    requires 1 <= result.Length
    modifies result
    ensures var m := Matches(names, |names|, fullmatch, query);
      && count == Min(|m|, result.Length)
      && (forall k :: 0 <= k < count ==> result[k] == Some(m[k]))
    ensures forall k :: count <= k < result.Length ==> result[k] == None
  {
    ghost var seen := 0;
    count := 0;
    var i := 0;
    while i < |names|
      invariant i <= |names| && seen == i
      invariant Collected(names, i, fullmatch, query, result, count)
    {
      var stop;
      count, stop := SearchSlot(names, i, fullmatch, query, result, count);
      if stop {
        seen := i + 1;
        break;
      }
      i := i + 1;
      seen := i;
    }
    FirstMatches(names, seen, fullmatch, query, result.Length);
    ClearFrom(result, count);
  }

  /** `result` starts with the `count` matches among the first `i` slots and has room for more. */
  ghost predicate Collected(names: seq<Option<seq<char>>>, i: nat, fullmatch: bool, query: seq<char>, result: array<Option<nat>>, count: nat)
    requires i <= |names|
    reads result
  {
    var found := Matches(names, i, fullmatch, query);
    count == |found| < result.Length && forall k :: 0 <= k < count ==> result[k] == Some(found[k])
  }

  /**
   * One turn of the search loop: a slot without a name or with a shorter name
   * is skipped; a matching one is recorded; the search stops once `result` is full.
   */
  method SearchSlot(names: seq<Option<seq<char>>>, i: nat, fullmatch: bool, query: seq<char>, result: array<Option<nat>>, count: nat)
    returns (count': nat, stop: bool)
    requires i < |names| && Collected(names, i, fullmatch, query, result, count)
    modifies result
    ensures var found := Matches(names, i + 1, fullmatch, query);
      count' == |found| <= result.Length && forall k :: 0 <= k < count' ==> result[k] == Some(found[k])
    ensures stop <==> count' == result.Length
  {
    ghost var found := Matches(names, i, fullmatch, query);
    assert found + (if SlotMatches(names[i], fullmatch, query) then [i] else []) == Matches(names, i + 1, fullmatch, query);
    count' := count;
    stop := false;
    if names[i].Some? && |query| <= |names[i].value| {
      if NameMatches(fullmatch, query, names[i].value) {
        result[count] := Some(i);
        count' := count + 1;
      }
      if count' >= result.Length {
        stop := true;
      }
    }
  }

  /**
   * A search that stops when the result is full, or at the end of the table,
   * has found the first matches of the whole table.
   */
  lemma FirstMatches(names: seq<Option<seq<char>>>, seen: nat, fullmatch: bool, query: seq<char>, len: nat)
    requires seen <= |names|
    requires seen == |names| || |Matches(names, seen, fullmatch, query)| == len
    requires |Matches(names, seen, fullmatch, query)| <= len
    ensures var found := Matches(names, seen, fullmatch, query);
      var m := Matches(names, |names|, fullmatch, query);
      |found| == Min(|m|, len) && forall k :: 0 <= k < |found| ==> found[k] == m[k]
  {
    MatchesPrefix(names, seen, |names|, fullmatch, query);
  }

  /** The tail loop of the searches: every slot from `from` on is cleared. */
  method ClearFrom<T>(result: array<Option<T>>, from: nat)
    requires from <= result.Length
    modifies result
    ensures forall k :: 0 <= k < from ==> result[k] == old(result[k])
    ensures forall k :: from <= k < result.Length ==> result[k] == None
  {
    var i := from;
    while i < result.Length
      invariant from <= i <= result.Length
      invariant forall k :: 0 <= k < from ==> result[k] == old(result[k])
      invariant forall k :: from <= k < i ==> result[k] == None
    {
      result[i] := None;
      i := i + 1;
    }
  }

  // ---------------------------------------------------------------------------
  // The line shell

  /** isPrintable: the printable ASCII characters. */
  predicate IsPrintable(c: char)
  {
    ' ' <= c <= '~'
  }

  const BACKSPACE: char := 8 as char
  const DELETE: char := 0x7f as char

  /**
   * The effect of one typed character on the line and the handler it calls:
   * `?` shows help (and may complete a common prefix), tab completes, backspace
   * and delete remove the last character, return and newline execute the line
   * and clear it, and a printable character is appended while the line stays
   * shorter than the 64-byte buffer; anything else is ignored.
   */
  ghost function Step(univ: set<CommandInterpreter>, root: CommandInterpreter, line: seq<char>, c: char): (r: (seq<char>, Option<Invocation>))
    reads univ
    requires root in univ && Closed(univ) && |line| < MAX_COMMAND_LENGTH
    ensures |r.0| < MAX_COMMAND_LENGTH
    ensures NoNul(line) ==> NoNul(r.0)
    ensures r.1.Some? ==> c == '\r' || c == '\n'
  {
    if c == '?' then (UpToNul(AutocompleteSpec(univ, root, line, true).1), None)
    else if c == '\t' then (UpToNul(AutocompleteSpec(univ, root, line, false).1), None)
    else if c == '\r' || c == '\n' then ([], ExecuteSpec(univ, root, line).call)
    else (Edit(line, c), None)
  }

  /** The characters that edit the line without consulting the interpreter. */
  function Edit(line: seq<char>, c: char): seq<char>
  {
    if c == BACKSPACE || c == DELETE then (if |line| > 0 then line[..|line| - 1] else line)
    else if IsPrintable(c) && |line| + 1 < MAX_COMMAND_LENGTH then line + [c]
    else line
  }

  /** The line after editing with `cs` one character at a time (`TypingIsEditing`: typing keys that are not special). */
  function EditAll(line: seq<char>, cs: seq<char>): seq<char>
    decreases |cs|
  {
    if cs == [] then line else EditAll(Edit(line, cs[0]), cs[1..])
  }

  /**
   * Editing with printable characters keeps them in order until the line holds 63 of
   * them; the rest are dropped, so the buffer's terminating NUL always fits.
   */
  lemma {:induction false} TypingFillsLine(line: seq<char>, cs: seq<char>)
    requires |line| < MAX_COMMAND_LENGTH
    requires forall i :: 0 <= i < |cs| ==> IsPrintable(cs[i])
    ensures EditAll(line, cs) == (line + cs)[..Min(|line| + |cs|, MAX_COMMAND_LENGTH - 1)]
    decreases |cs|
  {
    if cs != [] {
      var next := Edit(line, cs[0]);
      TypingFillsLine(next, cs[1..]);
      if |line| + 1 < MAX_COMMAND_LENGTH {
        assert next + cs[1..] == line + cs;
      } else {
        assert next == line;
        assert (line + cs)[..MAX_COMMAND_LENGTH - 1] == line;
      }
    }
  }

  /** The keys inputChar hands to the interpreter instead of editing the line. */
  predicate Special(c: char)
  {
    c == '?' || c == '\t' || c == '\r' || c == '\n'
  }

  /** The handler call of one step, as a list of zero or one. */
  function CallList(call: Option<Invocation>): seq<Invocation>
  {
    if call.Some? then [call.value] else []
  }

  /** The line and the handler calls after typing `cs`, one `Step` per character. */
  ghost function Typed(univ: set<CommandInterpreter>, root: CommandInterpreter, line: seq<char>, cs: seq<char>): (r: (seq<char>, seq<Invocation>))
    reads univ
    requires root in univ && Closed(univ) && |line| < MAX_COMMAND_LENGTH
    ensures |r.0| < MAX_COMMAND_LENGTH
    decreases |cs|
  {
    if cs == [] then (line, [])
    else
      var s := Step(univ, root, line, cs[0]);
      var rest := Typed(univ, root, s.0, cs[1..]);
      (rest.0, CallList(s.1) + rest.1)
  }

  /** A key that is not special only edits the line, and calls nothing. */
  lemma PlainKeyEdits(univ: set<CommandInterpreter>, root: CommandInterpreter, line: seq<char>, c: char)
    requires root in univ && Closed(univ) && |line| < MAX_COMMAND_LENGTH
    ensures !Special(c) ==> Step(univ, root, line, c) == (Edit(line, c), None)
  {
  }

  /** Typing keys that are not special is the `EditAll` fold, and calls no handler. */
  lemma {:induction false} TypingIsEditing(univ: set<CommandInterpreter>, root: CommandInterpreter, line: seq<char>, cs: seq<char>)
    requires root in univ && Closed(univ) && |line| < MAX_COMMAND_LENGTH
    requires forall i :: 0 <= i < |cs| ==> !Special(cs[i])
    ensures Typed(univ, root, line, cs) == (EditAll(line, cs), [])
    decreases |cs|
  {
    if cs != [] {
      PlainKeyEdits(univ, root, line, cs[0]);
      assert forall i :: 0 <= i < |cs| - 1 ==> cs[1..][i] == cs[i + 1];
      var next := Edit(line, cs[0]);
      TypingIsEditing(univ, root, next, cs[1..]);
      assert Typed(univ, root, line, cs).0 == EditAll(line, cs);
      assert Typed(univ, root, line, cs).1 == [];
    }
  }

  /**
   * At the shell, typing printable characters other than `?` appends them in order
   * until the line holds 63 of them, drops the rest, and calls no handler.
   */
  lemma TypingAppends(univ: set<CommandInterpreter>, root: CommandInterpreter, line: seq<char>, cs: seq<char>)
    requires root in univ && Closed(univ) && |line| < MAX_COMMAND_LENGTH
    requires forall i :: 0 <= i < |cs| ==> IsPrintable(cs[i]) && cs[i] != '?'
    ensures Typed(univ, root, line, cs) == ((line + cs)[..Min(|line| + |cs|, MAX_COMMAND_LENGTH - 1)], [])
  {
    TypingIsEditing(univ, root, line, cs);
    TypingFillsLine(line, cs);
  }

  /** Backspace undoes a printable character that was accepted. */
  lemma BackspaceUndoesType(line: seq<char>, c: char)
    requires IsPrintable(c) && |line| + 1 < MAX_COMMAND_LENGTH
    ensures Edit(Edit(line, c), BACKSPACE) == line && Edit(Edit(line, c), DELETE) == line
  {
    assert (line + [c])[..|line|] == line;
  }

  /** Return and newline run the line and leave it empty; no other key runs anything. */
  lemma EnterRunsAndClears(univ: set<CommandInterpreter>, root: CommandInterpreter, line: seq<char>, c: char)
    requires root in univ && Closed(univ) && |line| < MAX_COMMAND_LENGTH
    ensures (c == '\r' || c == '\n') ==> Step(univ, root, line, c) == ([], ExecuteSpec(univ, root, line).call)
    ensures !(c == '\r' || c == '\n') ==> Step(univ, root, line, c).1 == None
  {
  }

  /** The shell: a line buffer fed one character at a time, over a root interpreter. */
  class Shell {
    const interpreter: CommandInterpreter
    const buffer: array<char>
    var count: nat
    var promptLock: bool
    /** The handler calls made so far, oldest first. */
    var calls: seq<Invocation>
    /** The interpreters reachable from the root. */
    ghost var univ: set<CommandInterpreter>

    /** The buffer holds a C string of `count` characters, below its 64 bytes. */
    ghost predicate Valid()
      reads this`count, this`univ, buffer, univ
    {
      && buffer.Length == MAX_COMMAND_LENGTH && count < MAX_COMMAND_LENGTH
      && IsCString(buffer[..], count)
      && interpreter in univ && Closed(univ)
    }

    /** The typed line. */
    function Line(): seq<char>
      reads this`count, buffer
      requires count <= buffer.Length
    {
      buffer[..count]
    }

    constructor()
      ensures Valid() && fresh(buffer) && fresh(interpreter)
      ensures Line() == [] && !promptLock && calls == []
      ensures interpreter.name == "root" && interpreter.cmdCount == 0 && interpreter.ipCount == 0
    {
      interpreter := new CommandInterpreter("root", "Available Commands");
      buffer := new char[MAX_COMMAND_LENGTH](_ => NUL);
      count := 0;
      promptLock := false;
      calls := [];
      univ := {interpreter};
    }

    /** _printprompt: redraws the prompt and unlocks it. */
    method PrintPrompt()
      modifies this`promptLock
      ensures !promptLock
    {
      promptLock := false;
    }

    /** _prompt_lock: the prompt line is cleared before other output. */
    method LockPrompt()
      modifies this`promptLock
      ensures promptLock
    {
      if promptLock {
        return;
      }
      promptLock := true;
    }

    /** prompt_flush: a locked prompt is redrawn. */
    method PromptFlush()
      modifies this`promptLock
      ensures !promptLock
    {
      if promptLock {
        PrintPrompt();
      }
    }

    /** print: output locks the prompt until the next character is typed. */
    method Print(text: seq<char>)
      modifies this`promptLock
      ensures promptLock
    {
      LockPrompt();
    }

    /** registerCommand on the root interpreter. */
    method RegisterCommand(cmd: seq<char>, desc: seq<char>, handle: Option<Handler>)
      requires Valid() && interpreter.cmdCount < MAX_CMD_PER_INTP && |cmd| < MAX_COMMAND_LENGTH && NoNul(cmd)
      modifies interpreter`cmdlist, interpreter`cmdCount
      ensures Valid()
      ensures interpreter.cmdlist == old(interpreter.cmdlist)[old(interpreter.cmdCount) := CommandItem(cmd, desc, handle)]
      ensures interpreter.cmdCount == old(interpreter.cmdCount) + 1
    {
      interpreter.RegisterCommand(cmd, desc, handle);
    }

    /** registerCommandInterpreter on the root interpreter; `from` holds what `ip` reaches. */
    method RegisterCommandInterpreter(ip: CommandInterpreter, ghost from: set<CommandInterpreter>)
      requires Valid() && interpreter.ipCount < MAX_SUB_INTP_PER_INTP
      requires ip in from && Closed(from)
      modifies this`univ, interpreter`iplist, interpreter`ipCount
      ensures Valid() && univ == old(univ) + from
      ensures interpreter.iplist == old(interpreter.iplist)[old(interpreter.ipCount) := Some(ip)]
      ensures interpreter.ipCount == old(interpreter.ipCount) + 1
    {
      interpreter.RegisterCommandInterpreter(ip);
      univ := univ + from;
    }

    /** _backspace: the last character is removed. */
    method Backspace()
      requires Valid()
      modifies this`count, this`promptLock, buffer
      ensures Valid() && !promptLock
      ensures Line() == if old(count) > 0 then old(Line())[..old(count) - 1] else old(Line())
    {
      PromptFlush();
      if count > 0 {
        count := count - 1;
        buffer[count] := NUL;
      }
    }

    /** _execute: the line is run by the root interpreter and cleared. */
    method Execute()
      requires Valid()
      modifies this`count, this`promptLock, this`calls, buffer
      ensures Valid() && !promptLock && Line() == []
      ensures var r := old(ExecuteSpec(univ, interpreter, Line()));
        calls == old(calls) + if r.call.Some? then [r.call.value] else []
    {
      var r := interpreter.ExecuteCommand(univ, buffer[..count]);
      assert r == old(ExecuteSpec(univ, interpreter, Line()));
      // The source reports the codes -1, -2 and -3 on the serial line.
      if r.call.Some? {
        calls := calls + [r.call.value];
      }
      buffer[0] := NUL;
      count := 0;
      PrintPrompt();
    }

    /** _autocomplete and _autocomplete_help: the line is completed, then measured with strlen. */
    method Autocomplete(displayOnly: bool)
      requires Valid()
      modifies this`count, this`promptLock, buffer
      ensures Valid() && !promptLock
      ensures Line() == UpToNul(old(AutocompleteSpec(univ, interpreter, Line(), displayOnly)).1)
    {
      PromptFlush();
      var code, newLine := interpreter.AutocompleteHandle(univ, buffer[..count], displayOnly);
      assert newLine == old(AutocompleteSpec(univ, interpreter, Line(), displayOnly)).1;
      LoadLine(newLine);
      PrintPrompt();
    }

    /** The completed line is written back into the buffer and its length taken with strlen. */
    method LoadLine(newLine: seq<char>)
      requires Valid() && |newLine| < MAX_COMMAND_LENGTH
      modifies this`count, buffer
      ensures Valid() && Line() == UpToNul(newLine)
    {
      WriteString(buffer, newLine);
      count := Strlen(buffer, newLine);
    }

    /** inputChar: one typed character, as `Step` describes. */
    method InputChar(c: char)
      requires Valid()
      modifies this`count, this`promptLock, this`calls, buffer
      ensures Valid() && !promptLock
      ensures var r := old(Step(univ, interpreter, Line(), c));
        Line() == r.0 && calls == old(calls) + CallList(r.1)
    {
      ghost var r := Step(univ, interpreter, Line(), c);
      PromptFlush();
      if c == '?' {
        Autocomplete(true);
      } else if c == '\t' {
        Autocomplete(false);
      } else if c == '\r' || c == '\n' {
        Execute();
      } else {
        EditLine(c);
      }
      assert Line() == r.0;
    }

    /** The remaining cases of inputChar: backspace and delete, printable characters, the rest ignored. */
    method EditLine(c: char)
      requires Valid()
      modifies this`count, this`promptLock, buffer
      ensures Valid() && Line() == Edit(old(Line()), c)
      ensures promptLock == (old(promptLock) && c != BACKSPACE && c != DELETE)
    {
      if c == BACKSPACE || c == DELETE {
        Backspace();
      } else if IsPrintable(c) {
        Type(c);
      }
    }

    /** A printable character is appended while the line has room for it and the NUL. */
    method Type(c: char)
      requires Valid() && c != NUL
      modifies this`count, buffer
      ensures Valid()
      ensures Line() == if |old(Line())| + 1 < MAX_COMMAND_LENGTH then old(Line()) + [c] else old(Line())
    {
      if count + 1 >= MAX_COMMAND_LENGTH {
        return;
      }
      buffer[count] := c;
      count := count + 1;
      buffer[count] := NUL;
    }
  }

  /** snprintf and strncpy into a buffer: `s` followed by a NUL. */
  method WriteString(a: array<char>, s: seq<char>)
    requires |s| < a.Length
    modifies a
    ensures a[..|s|] == s && a[|s|] == NUL
  {
    var i := 0;
    while i < |s|
      invariant i <= |s|
      invariant a[..i] == s[..i]
    {
      a[i] := s[i];
      i := i + 1;
    }
    a[|s|] := NUL;
  }

  /**
   * strlen over a buffer that holds `s` followed by a NUL: the length of the C
   * string read back.
   */
  method Strlen(a: array<char>, ghost s: seq<char>) returns (n: nat)
    requires |s| < a.Length && a[..|s|] == s && a[|s|] == NUL
    ensures n == |UpToNul(s)|
  {
    n := 0;
    while a[n] != NUL
      invariant n <= |s| && a[..n] == s[..n] && NoNul(s[..n])
      decreases |s| - n
    {
      n := n + 1;
    }
    UpToNulAt(s, n);
  }
}
