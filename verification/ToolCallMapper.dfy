/** The mapper that turns the tagged nodes of a parse into a chat message with tool calls. */
module ToolCallMapper {
  import opened Wrappers
  import opened JsonText
  import opened MessageDiff
  import PythonValue

  datatype Tag =
    | Reasoning | Content
    | ToolOpen | ToolClose | ToolName | ToolId | ToolArgs
    | ArgOpen | ArgClose | ArgName | ArgValue | ArgStringValue
    | Untagged

  datatype Node = Node(tag: Tag, text: string)

  // ----- Trimming -------------------------------------------------------------

  predicate IsSpace(c: char) {
    c == ' ' || '\t' <= c <= '\r'
  }

  function TrimEnd(s: string): string {
    if s != [] && IsSpace(s[|s| - 1]) then TrimEnd(s[..|s| - 1]) else s
  }

  /** At most one leading space goes, and all trailing ones. */
  function Trim(s: string): string {
    TrimEnd(if s != [] && IsSpace(s[0]) then s[1..] else s)
  }

  /** How many blanks a text begins or ends with. */
  function LeadingBlanks(s: string): (n: nat)
    ensures n <= |s| && (forall i :: 0 <= i < n ==> IsSpace(s[i])) && (n < |s| ==> !IsSpace(s[n]))
  {
    if s != [] && IsSpace(s[0]) then 1 + LeadingBlanks(s[1..]) else 0
  }

  function TrailingBlanks(s: string): (n: nat)
    ensures n <= |s|
  {
    if s != [] && IsSpace(s[|s| - 1]) then 1 + TrailingBlanks(s[..|s| - 1]) else 0
  }

  /** How many of `n` go when at most `max` may, or any number for -1. */
  function UpTo(n: nat, max: int): nat
    requires max >= -1
  {
    if max == -1 || n <= max then n else max
  }

  function WithoutTrailing(s: string, max: int): string
    requires max >= -1
  {
    s[..|s| - UpTo(TrailingBlanks(s), max)]
  }

  function WithoutLeading(s: string, max: int): string
    requires max >= -1
  {
    s[UpTo(LeadingBlanks(s), max)..]
  }

  lemma {:induction false} TrimEndDropsBlanks(s: string)
    ensures TrimEnd(s) == WithoutTrailing(s, -1)
  {
    if s != [] && IsSpace(s[|s| - 1]) {
      TrimEndDropsBlanks(s[..|s| - 1]);
    }
  }

  lemma OneBlankGoes(s: string)
    ensures WithoutLeading(s, 1) == if s != [] && IsSpace(s[0]) then s[1..] else s
  {
  }

  const BLANKS := {' ', '\t', '\n', '\U{000B}', '\U{000C}', '\r'}

  /** What is cut off behind a text is all of its last blanks. */
  lemma {:induction false} TrimEndExactly(s: string)
    ensures TrimEnd(s) <= s && forall i :: |TrimEnd(s)| <= i < |s| ==> s[i] in BLANKS
    ensures TrimEnd(s) != [] ==> s[|TrimEnd(s)| - 1] !in BLANKS
  {
    if s != [] && IsSpace(s[|s| - 1]) {
      TrimEndExactly(s[..|s| - 1]);
    }
  }

  /** A trimmed text begins behind its first character if that is a blank, and ends at its last character that is none. */
  lemma TrimExactly(s: string)
    ensures var k := if s != [] && s[0] in BLANKS then 1 else 0;
            && Trim(s) <= s[k..] && (forall i :: k + |Trim(s)| <= i < |s| ==> s[i] in BLANKS)
            && (Trim(s) != [] ==> s[k + |Trim(s)| - 1] !in BLANKS)
  {
    var k := if s != [] && s[0] in BLANKS then 1 else 0;
    TrimEndExactly(s[k..]);
    assert s[0..] == s;
    assert Trim(s) == TrimEnd(s[k..]);
    hide TrimEnd;
    forall i | k + |Trim(s)| <= i < |s| ensures s[i] in BLANKS {
      assert s[k..][i - k] == s[i];
    }
  }

  method TrimTrailingSpace(s: string, max: int := -1) returns (r: string)
    requires max >= -1
    ensures r == WithoutTrailing(s, max)
    ensures max == -1 ==> r == TrimEnd(s)
  {
    r := s;
    var count := 0;
    while r != [] && IsSpace(r[|r| - 1])
      invariant count <= TrailingBlanks(s) && r == s[..|s| - count]
      invariant TrailingBlanks(r) == TrailingBlanks(s) - count
      invariant max != -1 ==> count <= max
      decreases |r|
    {
      if max != -1 && count >= max {
        break;
      }
      r := r[..|r| - 1];
      count := count + 1;
    }
    TrimEndDropsBlanks(s);
  }

  method TrimLeadingSpace(s: string, max: int := -1) returns (r: string)
    requires max >= -1
    ensures r == WithoutLeading(s, max)
  {
    r := s;
    var count := 0;
    while r != [] && IsSpace(r[0])
      invariant count <= LeadingBlanks(s) && r == s[count..]
      invariant LeadingBlanks(r) == LeadingBlanks(s) - count
      invariant max != -1 ==> count <= max
      decreases |r|
    {
      if max != -1 && count >= max {
        break;
      }
      r := r[1..];
      count := count + 1;
    }
  }

  // ----- State ----------------------------------------------------------------

  /** What the current-tool pointer points at. `AtPending` without a pending call is a dangling pointer. */
  datatype Cursor = NoTool | AtPending | AtLast

  datatype State = State(
    result: Message,
    pending: Option<ToolCall>,
    cursor: Cursor,
    argCount: nat,
    quoteOpen: bool,
    buffer: string)

  const START := State(EMPTY_MESSAGE, None, NoTool, 0, false, [])

  /** Between nodes a pending call is unnamed and empty, and the pointer refers to it or to the last emitted call. */
  predicate Valid(st: State) {
    && (st.cursor == AtLast ==> st.result.calls != [])
    && (st.pending.Some? ==> st.cursor == AtPending && st.pending.value.name == [] && st.pending.value.arguments == [])
  }

  predicate Dangling(st: State) {
    st.cursor == AtPending && st.pending.None?
  }

  /** The tags whose handling follows the current-tool pointer. */
  predicate UsesTool(tag: Tag) {
    tag in {ToolClose, ToolName, ToolId, ToolArgs, ArgClose, ArgName, ArgValue, ArgStringValue}
  }

  /** After a call was closed unnamed, the next node that needs a call must be preceded by a new one. */
  predicate Defined(st: State, n: Node) {
    UsesTool(n.tag) ==> !Dangling(st)
  }

  function Current(st: State): ToolCall
    requires Valid(st) && st.cursor != NoTool && !Dangling(st)
  {
    if st.cursor == AtPending then st.pending.value else st.result.calls[|st.result.calls| - 1]
  }

  function WithCurrent(st: State, c: ToolCall): State
    requires Valid(st) && st.cursor != NoTool && !Dangling(st)
  {
    if st.cursor == AtPending then st.(pending := Some(c))
    else st.(result := st.result.(calls := st.result.calls[|st.result.calls| - 1 := c]))
  }

  /** Argument text goes to the call once it has a name, before that to the buffer. */
  function Target(st: State): string
    requires Valid(st) && st.cursor != NoTool && !Dangling(st)
  {
    if Current(st).name != [] then Current(st).arguments else st.buffer
  }

  function WithTarget(st: State, s: string): State
    requires Valid(st) && st.cursor != NoTool && !Dangling(st)
  {
    if Current(st).name != [] then WithCurrent(st, Current(st).(arguments := s)) else st.(buffer := s)
  }

  // ----- One node -------------------------------------------------------------

  function OpenTool(st: State): State {
    st.(pending := Some(NO_CALL), cursor := AtPending, argCount := 0, quoteOpen := false, buffer := [])
  }

  function Unquoted(s: string): string {
    if |s| >= 2 && s[0] == '\"' && s[|s| - 1] == '\"' then s[1..|s| - 1] else s
  }

  function NameTool(st: State, name: string): State
    requires Valid(st) && st.cursor != NoTool && !Dangling(st)
  {
    var c := Current(st);
    var args := if st.buffer != [] then st.buffer else if c.arguments == [] then ['{'] else c.arguments;
    var st' := WithCurrent(st, c.(name := name, arguments := args)).(buffer := []);
    if st'.pending.Some? then
      st'.(result := st'.result.(calls := st'.result.calls + [st'.pending.value]), pending := None, cursor := AtLast)
    else st'
  }

  predicate OpensObject(s: string) {
    s != [] && s[0] == '{'
  }

  function ArgEntry(st: State, name: string): string {
    (if st.argCount > 0 then [','] else []) + Quote(Trim(name)) + [':']
  }

  function AddArgName(st: State, name: string): State
    requires Valid(st) && st.cursor != NoTool && !Dangling(st)
  {
    var target := if Target(st) == [] then ['{'] else Target(st);
    WithTarget(st, target + ArgEntry(st, name)).(argCount := st.argCount + 1)
  }

  /** What a value node appends. */
  function ValueText(st: State, isString: bool, value: string): string {
    if isString then
      (if value == [] || !st.quoteOpen then ['\"'] else []) + Escape(value)
    else PythonValue.Normalize(value)
  }

  function AddValue(st: State, isString: bool, value: string): State
    requires Valid(st) && st.cursor != NoTool && !Dangling(st)
  {
    WithTarget(st, Target(st) + ValueText(st, isString, value)).(quoteOpen := st.quoteOpen || isString)
  }

  function Braces(n: int): string {
    if n <= 0 then [] else ['}'] + Braces(n - 1)
  }

  /** Arguments with the open string and the open braces closed. */
  function Closed(args: string, quoteOpen: bool): string {
    var s := if quoteOpen then args + ['\"'] else args;
    s + Braces(BraceDepth(s))
  }

  function CloseTool(st: State): State
    requires Valid(st) && st.cursor != NoTool && !Dangling(st)
  {
    var c := Current(st);
    var flush := c.name == [] && st.buffer != [];
    var c' := c.(arguments := Closed(if flush then st.buffer else c.arguments, st.quoteOpen));
    var st' := WithCurrent(st, c').(buffer := if flush then [] else st.buffer, quoteOpen := false);
    if st'.pending.Some? then st'.(pending := None) else st'
  }

  function Step(st: State, n: Node): State
    requires Valid(st) && Defined(st, n)
  {
    if UsesTool(n.tag) then
      if st.cursor == NoTool then st else ToolStep(st, n)
    else if n.tag == Reasoning then st.(result := st.result.(reasoning := st.result.reasoning + n.text))
    else if n.tag == Content then st.(result := st.result.(content := st.result.content + n.text))
    else if n.tag == ToolOpen then OpenTool(st)
    else if n.tag == ArgOpen then st.(quoteOpen := false)
    else st
  }

  function ToolStep(st: State, n: Node): State
    requires Valid(st) && st.cursor != NoTool && !Dangling(st)
  {
    if n.tag == ToolId then WithCurrent(st, Current(st).(id := Unquoted(TrimEnd(n.text))))
    else if n.tag == ToolName then NameTool(st, TrimEnd(n.text))
    else if n.tag == ToolArgs then if OpensObject(TrimEnd(n.text)) then WithTarget(st, TrimEnd(n.text)) else st
    else if n.tag == ArgName then AddArgName(st, n.text)
    else if n.tag == ArgValue then AddValue(st, false, n.text)
    else if n.tag == ArgStringValue then AddValue(st, true, n.text)
    else if n.tag == ArgClose then CloseArg(st)
    else if n.tag == ToolClose then CloseTool(st)
    else st
  }

  function CloseArg(st: State): State
    requires Valid(st) && st.cursor != NoTool && !Dangling(st)
  {
    if st.quoteOpen then WithTarget(st, Target(st) + ['\"']).(quoteOpen := false) else st
  }

  lemma StepValid(st: State, n: Node)
    requires Valid(st) && Defined(st, n)
    ensures Valid(Step(st, n))
  {
  }

  /** Every node is handled with a pointer that may be followed. */
  ghost predicate AllDefined(st: State, nodes: seq<Node>)
    requires Valid(st)
    decreases |nodes|
  {
    nodes == [] || (Defined(st, nodes[0]) && (StepValid(st, nodes[0]); AllDefined(Step(st, nodes[0]), nodes[1..])))
  }

  ghost function Run(st: State, nodes: seq<Node>): (r: State)
    requires Valid(st) && AllDefined(st, nodes)
    ensures Valid(r)
    decreases |nodes|
  {
    if nodes == [] then st else (StepValid(st, nodes[0]); Run(Step(st, nodes[0]), nodes[1..]))
  }

  predicate Blank(s: string) {
    forall i :: 0 <= i < |s| ==> s[i] == ' ' || s[i] == '\n' || s[i] == '\r' || s[i] == '\t'
  }

  /** The message handed out after the last node: blank reasoning is dropped. */
  function Outcome(st: State): Message {
    if Blank(st.result.reasoning) then st.result.(reasoning := []) else st.result
  }

  /** Content and calls are handed out as they are; reasoning too, unless it has nothing but these four characters. */
  lemma OutcomeExactly(st: State)
    ensures Outcome(st).content == st.result.content && Outcome(st).calls == st.result.calls
    ensures (forall c :: c in st.result.reasoning ==> c in {' ', '\n', '\r', '\t'}) ==> Outcome(st).reasoning == []
    ensures (exists c :: c in st.result.reasoning && c !in {' ', '\n', '\r', '\t'}) ==>
              Outcome(st).reasoning == st.result.reasoning
  {
    var s := st.result.reasoning;
    if Blank(s) {
      forall c | c in s ensures c in {' ', '\n', '\r', '\t'} {
        var i :| 0 <= i < |s| && s[i] == c;
      }
    } else {
      var i :| 0 <= i < |s| && s[i] !in {' ', '\n', '\r', '\t'};
      assert s[i] in s;
    }
  }

  // ----- The mapper object ----------------------------------------------------

  class Mapper {
    var result: Message
    var pendingToolCall: Option<ToolCall>
    var currentTool: Cursor
    var argCount: nat
    var closingQuotePending: bool
    var argsBuffer: string

    function St(): State
      reads this
    {
      State(result, pendingToolCall, currentTool, argCount, closingQuotePending, argsBuffer)
    }

    constructor ()
      ensures St() == START
    {
      result := EMPTY_MESSAGE;
      pendingToolCall := None;
      currentTool := NoTool;
      argCount := 0;
      closingQuotePending := false;
      argsBuffer := [];
    }

    /** Writes through the current-tool pointer. */
    method SetCurrent(c: ToolCall)
      requires Valid(St()) && currentTool != NoTool && !Dangling(St())
      modifies this`pendingToolCall, this`result
      ensures St() == WithCurrent(old(St()), c)
    {
      if currentTool == AtPending {
        pendingToolCall := Some(c);
      } else {
        result := result.(calls := result.calls[|result.calls| - 1 := c]);
      }
    }

    /** Writes to the place argument text currently goes to. */
    method SetTarget(s: string)
      requires Valid(St()) && currentTool != NoTool && !Dangling(St())
      modifies this`pendingToolCall, this`result, this`argsBuffer
      ensures St() == WithTarget(old(St()), s)
    {
      var c := Current(St());
      if c.name != [] {
        SetCurrent(c.(arguments := s));
      } else {
        argsBuffer := s;
      }
    }

    method MapName(text: string)
      requires Valid(St()) && currentTool != NoTool && !Dangling(St())
      modifies this
      ensures St() == NameTool(old(St()), TrimEnd(text))
    {
      var c := Current(St());
      var name := TrimTrailingSpace(text);
      c := c.(name := name);
      if argsBuffer != [] {
        c := c.(arguments := argsBuffer);
        argsBuffer := [];
      } else if c.arguments == [] {
        c := c.(arguments := ['{']);
      }
      if currentTool == AtPending {
        pendingToolCall := Some(c);
      } else {
        result := result.(calls := result.calls[|result.calls| - 1 := c]);
      }
      if pendingToolCall.Some? {
        result := result.(calls := result.calls + [pendingToolCall.value]);
        pendingToolCall := None;
        currentTool := AtLast;
      }
    }

    method MapArgName(text: string)
      requires Valid(St()) && currentTool != NoTool && !Dangling(St())
      modifies this
      ensures St() == AddArgName(old(St()), text)
    {
      var entry: string := [];
      if argCount > 0 {
        entry := [','];
      }
      hide WithoutLeading, WithoutTrailing, TrimEnd, Quote;
      OneBlankGoes(text);
      var front := TrimLeadingSpace(text, 1);
      var name := TrimTrailingSpace(front);
      entry := entry + Quote(name) + [':'];
      argCount := argCount + 1;
      var target := Target(St());
      if target == [] {
        target := ['{'];
      }
      SetTarget(target + entry);
    }

    method MapValue(isString: bool, value: string)
      requires Valid(St()) && currentTool != NoTool && !Dangling(St())
      modifies this
      ensures St() == AddValue(old(St()), isString, value)
    {
      var toAdd: string := [];
      if value == [] && isString {
        toAdd := ['\"'];
        closingQuotePending := true;
      } else if value != [] && isString {
        if !closingQuotePending {
          toAdd := ['\"'];
          closingQuotePending := true;
        }
        toAdd := toAdd + Escape(value);
      } else if value != [] {
        var normalized := PythonValue.NormalizeQuotes(value);
        toAdd := toAdd + normalized;
      }
      assert toAdd == ValueText(old(St()), isString, value) by {
        assert ['\"'] + Escape([]) == ['\"'];
        assert PythonValue.Normalize([]) == [];
      }
      SetTarget(Target(St()) + toAdd);
    }

    method MapClose()
      requires Valid(St()) && currentTool != NoTool && !Dangling(St())
      modifies this
      ensures St() == CloseTool(old(St()))
    {
      var c := Current(St());
      if c.name == [] && argsBuffer != [] {
        c := c.(arguments := argsBuffer);
        argsBuffer := [];
      }
      if closingQuotePending {
        c := c.(arguments := c.arguments + ['\"']);
        closingQuotePending := false;
      }
      var depth := CountBraces(c.arguments);
      ghost var open, all := c.arguments, Braces(depth);
      while depth > 0
        invariant c == old(Current(St())).(arguments := c.arguments)
        invariant c.arguments + Braces(depth) == open + all
        decreases depth
      {
        c := c.(arguments := c.arguments + ['}']);
        depth := depth - 1;
      }
      assert c.arguments + [] == c.arguments;
      if currentTool == AtPending {
        pendingToolCall := Some(c);
      } else {
        result := result.(calls := result.calls[|result.calls| - 1 := c]);
      }
      if pendingToolCall.Some? {
        // a call that got a name is no longer pending, so only unnamed calls end here
        if c.name != [] {
          assert false;
        }
        pendingToolCall := None;
      }
    }

    /** Handles one node. */
    method Map(n: Node)
      requires Valid(St()) && Defined(St(), n)
      modifies this
      ensures St() == Step(old(St()), n) && Valid(St())
    {
      hide NameTool, AddArgName, AddValue, CloseTool, TrimEnd, WithoutTrailing;
      StepValid(St(), n);
      if n.tag == Reasoning {
        result := result.(reasoning := result.reasoning + n.text);
      }
      if n.tag == Content {
        result := result.(content := result.content + n.text);
      }
      if n.tag == ToolOpen {
        pendingToolCall := Some(NO_CALL);
        currentTool := AtPending;
        argCount := 0;
        argsBuffer := [];
        closingQuotePending := false;
      }
      if n.tag == ToolId && currentTool != NoTool {
        var text := TrimTrailingSpace(n.text);
        if |text| >= 2 && text[0] == '\"' && text[|text| - 1] == '\"' {
          text := text[1..|text| - 1];
        }
        SetCurrent(Current(St()).(id := text));
      }
      if n.tag == ToolName && currentTool != NoTool {
        MapName(n.text);
      }
      if n.tag == ToolArgs && currentTool != NoTool {
        var text := TrimTrailingSpace(n.text);
        if text != [] && text[0] == '{' {
          SetTarget(text);
        }
      }
      if n.tag == ArgOpen {
        closingQuotePending := false;
      }
      if n.tag == ArgName && currentTool != NoTool {
        MapArgName(n.text);
      }
      if (n.tag == ArgValue || n.tag == ArgStringValue) && currentTool != NoTool {
        MapValue(n.tag == ArgStringValue, n.text);
      }
      if n.tag == ArgClose && currentTool != NoTool {
        if closingQuotePending {
          SetTarget(Target(St()) + ['\"']);
          closingQuotePending := false;
        }
      }
      if n.tag == ToolClose && currentTool != NoTool {
        MapClose();
      }
    }

    /** Handles all nodes in order, then flushes and tidies the message. */
    method FromAst(nodes: seq<Node>)
      requires Valid(St()) && AllDefined(St(), nodes)
      modifies this
      ensures result == Outcome(Run(old(St()), nodes))
      ensures var run := Run(old(St()), nodes).result;
              && result.content == run.content && result.calls == run.calls
              && result.reasoning
              == if forall c :: c in run.reasoning ==> c in {' ', '\n', '\r', '\t'} then [] else run.reasoning
    {
      OutcomeExactly(Run(St(), nodes));
      hide Step, Defined;
      for i := 0 to |nodes|
        invariant Valid(St()) && AllDefined(St(), nodes[i..])
        invariant Run(St(), nodes[i..]) == Run(old(St()), nodes)
      {
        assert nodes[i..][0] == nodes[i] && nodes[i..][1..] == nodes[i + 1..];
        Map(nodes[i]);
      }
      // a call that got a name is no longer pending, so there is nothing left to flush
      if pendingToolCall.Some? && pendingToolCall.value.name != [] {
        assert false;
      }
      var blank := IsBlank(result.reasoning);
      if blank {
        result := result.(reasoning := []);
      }
    }
  }

  method IsBlank(s: string) returns (allWhitespace: bool)
    ensures allWhitespace == Blank(s)
  {
    allWhitespace := true;
    for i := 0 to |s|
      invariant allWhitespace && Blank(s[..i])
    {
      var c := s[i];
      if c != ' ' && c != '\n' && c != '\r' && c != '\t' {
        return false;
      }
    }
    assert s[..|s|] == s;
  }
}
