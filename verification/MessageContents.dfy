/** What a stream of nodes puts into the message: its texts, and calls given as a whole object. */
module MessageContents {
  import opened Wrappers
  import opened JsonText
  import opened MessageDiff
  import opened ToolCallMapper
  import opened CallRendering
  import opened Streaming

  /** The texts of the nodes with one tag, in order. */
  function TextOf(nodes: seq<Node>, tag: Tag): string {
    if nodes == [] then [] else (if nodes[0].tag == tag then nodes[0].text else []) + TextOf(nodes[1..], tag)
  }

  /** Reasoning and content hold exactly the texts of their nodes; tool nodes never touch them. */
  lemma {:induction false} TextsAreKept(st: State, nodes: seq<Node>)
    requires Valid(st) && AllDefined(st, nodes)
    ensures Run(st, nodes).result.content == st.result.content + TextOf(nodes, Content)
    ensures Run(st, nodes).result.reasoning == st.result.reasoning + TextOf(nodes, Reasoning)
    decreases |nodes|
  {
    hide Step, Defined, Valid;
    if nodes != [] {
      StepValid(st, nodes[0]);
      TextsAreKept(Step(st, nodes[0]), nodes[1..]);
      StepKeepsTexts(st, nodes[0]);
    }
  }

  lemma StepKeepsTexts(st: State, n: Node)
    requires Valid(st) && Defined(st, n)
    ensures Step(st, n).result.content == st.result.content + (if n.tag == Content then n.text else [])
    ensures Step(st, n).result.reasoning == st.result.reasoning + (if n.tag == Reasoning then n.text else [])
  {
    assert st.result.content + [] == st.result.content;
    assert st.result.reasoning + [] == st.result.reasoning;
  }

  /** A finished message has all texts, reasoning unless it has nothing but blanks and line ends, and the calls of the run. */
  lemma FinishedMessageIsWhole(nodes: seq<Node>)
    requires AllDefined(START, nodes)
    ensures
      var m, reasoning := Outcome(Run(START, nodes)), TextOf(nodes, Reasoning);
      && m.content == TextOf(nodes, Content) && m.calls == Run(START, nodes).result.calls
      && m.reasoning == if forall c :: c in reasoning ==> c in {' ', '\n', '\r', '\t'} then [] else reasoning
  {
    hide Run, AllDefined;
    TextsAreKept(START, nodes);
    StartingEmpty(TextOf(nodes, Content));
    StartingEmpty(TextOf(nodes, Reasoning));
    OutcomeExactly(Run(START, nodes));
    hide TextOf, Outcome;
  }

  lemma StartingEmpty(s: string)
    ensures [] + s == s
  {
  }

  /** The same for the message that a session works with. */
  lemma StreamedMessageIsWhole(nodes: seq<Node>)
    requires Sound(nodes)
    ensures
      var m, reasoning := MessageOf(nodes), TextOf(nodes, Reasoning);
      && m.content == TextOf(nodes, Content) && m.calls == Run(START, nodes).result.calls
      && m.reasoning == if forall c :: c in reasoning ==> c in {' ', '\n', '\r', '\t'} then [] else reasoning
  {
    FinishedMessageIsWhole(nodes);
    hide Run, AllDefined, Outcome, TextOf, Streamable;
  }

  /** A call on show has arguments, if only the opening brace. */
  predicate CallsHaveArguments(st: State) {
    forall i :: 0 <= i < |st.result.calls| ==> st.result.calls[i].arguments != []
  }

  lemma StepKeepsArguments(st: State, n: Node)
    requires Valid(st) && Defined(st, n) && CallsHaveArguments(st)
    ensures CallsHaveArguments(Step(st, n))
  {
    hide TrimEnd, Closed, ValueText, ArgEntry, Unquoted;
    if n.tag == ToolClose && st.cursor == AtLast {
      ClosedHasText(if Current(st).name == [] && st.buffer != [] then st.buffer else Current(st).arguments, st.quoteOpen);
    }
  }

  lemma ClosedHasText(args: string, quoteOpen: bool)
    requires args != []
    ensures Closed(args, quoteOpen) != []
  {
    ClosedExtends(args, quoteOpen);
  }

  /** Whatever nodes a mapper is given, no call it has emitted is without arguments. */
  lemma {:induction false} MappedCallsHaveArguments(st: State, nodes: seq<Node>)
    requires Valid(st) && AllDefined(st, nodes) && CallsHaveArguments(st)
    ensures CallsHaveArguments(Run(st, nodes))
    decreases |nodes|
  {
    hide Step, Defined, Valid, CallsHaveArguments;
    if nodes != [] {
      StepValid(st, nodes[0]);
      StepKeepsArguments(st, nodes[0]);
      MappedCallsHaveArguments(Step(st, nodes[0]), nodes[1..]);
    }
  }

  // ----- Calls given as a whole -----------------------------------------------

  /** A call whose id, name and arguments object come as one node each; `nameFirst` orders the last two. */
  function WholeCall(id: string, name: string, args: string, nameFirst: bool): seq<Node> {
    [Node(ToolOpen, []), Node(ToolId, id)]
    + (if nameFirst then [Node(ToolName, name), Node(ToolArgs, args)] else [Node(ToolArgs, args), Node(ToolName, name)])
    + [Node(ToolClose, [])]
  }

  /** An id node holds `id` bare, or as a quoted string. */
  predicate Writes(text: string, id: string) {
    (text == id && Unquoted(id) == id && TrimEnd(id) == id) || text == ['\"'] + id + ['\"']
  }

  lemma WrittenId(text: string, id: string)
    requires Writes(text, id)
    ensures Unquoted(TrimEnd(text)) == id
  {
    if text == ['\"'] + id + ['\"'] {
      assert text[|text| - 1] == '\"';
      assert TrimEnd(text) == text;
      assert text[1..|text| - 1] == id;
    }
  }

  lemma BalancedStays(s: string)
    requires BraceDepth(s) == 0
    ensures Balanced(s) == s
  {
    assert s + [] == s;
  }

  function Drafted(st: State, id: string, buffer: string): State {
    st.(pending := Some(ToolCall([], [], id)), cursor := AtPending, argCount := 0, quoteOpen := false, buffer := buffer)
  }

  function Shown(st: State, c: ToolCall): State {
    st.(result := st.result.(calls := st.result.calls + [c]),
        pending := None, cursor := AtLast, argCount := 0, quoteOpen := false, buffer := [])
  }

  lemma BeginStep(st: State)
    requires Valid(st)
    ensures Step(st, Node(ToolOpen, [])) == Drafted(st, [], [])
  {
  }

  lemma IdStep(st: State, text: string, id: string)
    requires Writes(text, id)
    ensures Step(Drafted(st, [], []), Node(ToolId, text)) == Drafted(st, id, [])
  {
    WrittenId(text, id);
  }

  lemma NameStep(st: State, id: string, name: string, buffer: string)
    ensures Step(Drafted(st, id, buffer), Node(ToolName, name))
         == Shown(st, ToolCall(TrimEnd(name), if buffer == [] then ['{'] else buffer, id))
  {
  }

  lemma EarlyArgsStep(st: State, id: string, args: string)
    requires OpensObject(TrimEnd(args))
    ensures Step(Drafted(st, id, []), Node(ToolArgs, args)) == Drafted(st, id, TrimEnd(args))
  {
    hide TrimEnd;
  }

  lemma LateArgsStep(st: State, c: ToolCall, args: string)
    requires OpensObject(TrimEnd(args)) && c.name != []
    ensures Step(Shown(st, c), Node(ToolArgs, args)) == Shown(st, c.(arguments := TrimEnd(args)))
  {
    hide TrimEnd;
  }

  lemma EndStep(st: State, c: ToolCall)
    requires c.name != []
    ensures Step(Shown(st, c), Node(ToolClose, [])) == Shown(st, c.(arguments := Balanced(c.arguments)))
  {
    assert Closed(c.arguments, false) == Balanced(c.arguments);
    hide Closed, Balanced;
  }

  /** The two orders, once the id is read. */
  lemma NameFirstRuns(st: State, id: string, name: string, args: string)
    requires Valid(st) && TrimEnd(name) != [] && OpensObject(TrimEnd(args))
    ensures
      var nodes := [Node(ToolName, name)] + ([Node(ToolArgs, args)] + ([Node(ToolClose, [])] + []));
      && Valid(Drafted(st, id, [])) && AllDefined(Drafted(st, id, []), nodes)
      && Run(Drafted(st, id, []), nodes) == Shown(st, ToolCall(TrimEnd(name), Balanced(TrimEnd(args)), id))
  {
    var c := ToolCall(TrimEnd(name), TrimEnd(args), id);
    var c', early := c.(arguments := Balanced(c.arguments)), c.(arguments := ['{']);
    hide Step, TrimEnd, AllDefined, Run, Balanced;
    EndStep(st, c);
    NothingMore(Shown(st, c'));
    RunStep(Shown(st, c), Node(ToolClose, []), []);
    LateArgsStep(st, early, args);
    RunStep(Shown(st, early), Node(ToolArgs, args), [Node(ToolClose, [])] + []);
    NameStep(st, id, name, []);
    RunStep(Drafted(st, id, []), Node(ToolName, name), [Node(ToolArgs, args)] + ([Node(ToolClose, [])] + []));
  }

  lemma ArgsFirstRuns(st: State, id: string, name: string, args: string)
    requires Valid(st) && TrimEnd(name) != [] && OpensObject(TrimEnd(args))
    ensures
      var nodes := [Node(ToolArgs, args)] + ([Node(ToolName, name)] + ([Node(ToolClose, [])] + []));
      && Valid(Drafted(st, id, [])) && AllDefined(Drafted(st, id, []), nodes)
      && Run(Drafted(st, id, []), nodes) == Shown(st, ToolCall(TrimEnd(name), Balanced(TrimEnd(args)), id))
  {
    var c := ToolCall(TrimEnd(name), TrimEnd(args), id);
    var c' := c.(arguments := Balanced(c.arguments));
    hide Step, TrimEnd, AllDefined, Run, Balanced;
    EndStep(st, c);
    NothingMore(Shown(st, c'));
    RunStep(Shown(st, c), Node(ToolClose, []), []);
    NameStep(st, id, name, TrimEnd(args));
    RunStep(Drafted(st, id, TrimEnd(args)), Node(ToolName, name), [Node(ToolClose, [])] + []);
    EarlyArgsStep(st, id, args);
    RunStep(Drafted(st, id, []), Node(ToolArgs, args), [Node(ToolName, name)] + ([Node(ToolClose, [])] + []));
  }

  /** A call begins with an id. */
  lemma IdentifiedRuns(st: State, text: string, id: string, rest: seq<Node>)
    requires Valid(st) && Writes(text, id) && Valid(Drafted(st, id, [])) && AllDefined(Drafted(st, id, []), rest)
    ensures
      var nodes := [Node(ToolOpen, [])] + ([Node(ToolId, text)] + rest);
      AllDefined(st, nodes) && Run(st, nodes) == Run(Drafted(st, id, []), rest)
  {
    hide Step, AllDefined, Run, Writes;
    IdStep(st, text, id);
    RunStep(Drafted(st, [], []), Node(ToolId, text), rest);
    BeginStep(st);
    RunStep(st, Node(ToolOpen, []), [Node(ToolId, text)] + rest);
  }

  /**
   Such a call is emitted once, under its bare id; its object, without the blanks behind it, and with a closing brace for
   each one open, is its arguments, in either order. A balanced object stays as it is.
   */
  lemma WholeCallIsKept(st: State, text: string, id: string, name: string, args: string, nameFirst: bool)
    requires Valid(st) && Writes(text, id) && TrimEnd(name) != [] && OpensObject(TrimEnd(args))
    ensures AllDefined(st, WholeCall(text, name, args, nameFirst))
    ensures Run(st, WholeCall(text, name, args, nameFirst)).result
         == st.result.(calls := st.result.calls + [ToolCall(TrimEnd(name), Balanced(TrimEnd(args)), id)])
    ensures TrimEnd(args) == args && BraceDepth(args) == 0 ==> Balanced(TrimEnd(args)) == args
  {
    hide TrimEnd, BraceDepth, Writes, AllDefined, Run, Balanced, Drafted;
    if BraceDepth(args) == 0 {
      BalancedStays(args);
    }
    var first := if nameFirst then Node(ToolName, name) else Node(ToolArgs, args);
    var second := if nameFirst then Node(ToolArgs, args) else Node(ToolName, name);
    var rest := [first] + ([second] + ([Node(ToolClose, [])] + []));
    if nameFirst {
      NameFirstRuns(st, id, name, args);
    } else {
      ArgsFirstRuns(st, id, name, args);
    }
    IdentifiedRuns(st, text, id, rest);
    assert WholeCall(text, name, args, nameFirst) == [Node(ToolOpen, [])] + ([Node(ToolId, text)] + rest);
  }

  lemma NothingMore(st: State)
    requires Valid(st)
    ensures AllDefined(st, []) && Run(st, []) == st
  {
  }

  // ----- Calls in a tree ------------------------------------------------------

  /** In a visited tree, whatever wrappers stand around its nodes, a closed call carries its rendered arguments. */
  lemma CallInTreeIsClosed(st: State, nodes: seq<Node>, args: seq<Arg>, inner: seq<Node>, name: string, p: nat)
    requires Valid(st) && AllDefined(st, nodes)
    requires TrimEnd(name) != [] && WithoutIds(inner) == ArgsNodes(args) && p <= |inner|
    requires Effects(nodes) == CallNodes(inner, name, p)
    ensures Run(st, nodes).result
         == st.result.(calls := st.result.calls
                                + [ToolCall(TrimEnd(name), Balanced(['{'] + Entries(args)), LastId([], inner))])
  {
    hide AllDefined, Run, Effects, CallNodes, Balanced, Entries;
    RunOfEffects(st, nodes);
    CallIsClosed(st, args, inner, name, p);
  }

  /** And if its values close what they open, that is the reference rendering. */
  lemma CallInTreeIsRendered(st: State, nodes: seq<Node>, args: seq<Arg>, inner: seq<Node>, name: string, p: nat)
    requires Valid(st) && AllDefined(st, nodes)
    requires TrimEnd(name) != [] && WithoutIds(inner) == ArgsNodes(args) && p <= |inner|
    requires Effects(nodes) == CallNodes(inner, name, p)
    requires AllSettled(args) && Nesting(args) == 0
    ensures Run(st, nodes).result
         == st.result.(calls := st.result.calls + [ToolCall(TrimEnd(name), Render(args), LastId([], inner))])
  {
    hide AllDefined, Run, Effects, CallNodes, Render, AllSettled, Nesting, Balanced, Entries;
    CallInTreeIsClosed(st, nodes, args, inner, name, p);
    OpenArgumentsDepth(args);
  }

  /** In a visited tree a call given as a whole keeps its id and its object. */
  lemma WholeCallInTreeIsKept(st: State, nodes: seq<Node>, text: string, id: string, name: string, args: string, nameFirst: bool)
    requires Valid(st) && AllDefined(st, nodes) && Effects(nodes) == WholeCall(text, name, args, nameFirst)
    requires Writes(text, id) && TrimEnd(name) != [] && OpensObject(TrimEnd(args))
    ensures Run(st, nodes).result
         == st.result.(calls := st.result.calls + [ToolCall(TrimEnd(name), Balanced(TrimEnd(args)), id)])
    ensures TrimEnd(args) == args && BraceDepth(args) == 0 ==> Balanced(TrimEnd(args)) == args
  {
    hide AllDefined, Run, Effects, WholeCall;
    RunOfEffects(st, nodes);
    WholeCallIsKept(st, text, id, name, args, nameFirst);
  }

  // ----- Whole messages -------------------------------------------------------

  /** A stretch of a parse: text, a call with tagged arguments, or a call given as a whole. */
  datatype Block =
    | Passage(nodes: seq<Node>)
    | Tagged(args: seq<Arg>, inner: seq<Node>, name: string, p: nat)
    | Whole(idText: string, id: string, name: string, given: string, nameFirst: bool)

  predicate BlockOk(b: Block) {
    match b
    case Passage(nodes) => forall i :: 0 <= i < |nodes| ==> nodes[i].tag in {Reasoning, Content}
    case Tagged(args, inner, name, p) => TrimEnd(name) != [] && WithoutIds(inner) == ArgsNodes(args) && p <= |inner|
    case Whole(idText, id, name, args, _) => Writes(idText, id) && TrimEnd(name) != [] && OpensObject(TrimEnd(args))
  }

  function BlockNodes(b: Block): seq<Node>
    requires BlockOk(b)
  {
    match b
    case Passage(nodes) => nodes
    case Tagged(_, inner, name, p) => CallNodes(inner, name, p)
    case Whole(idText, _, name, args, nameFirst) => WholeCall(idText, name, args, nameFirst)
  }

  /** The call a block is meant to give, if it is one. */
  function BlockCalls(b: Block): seq<ToolCall> {
    match b
    case Passage(_) => []
    case Tagged(args, inner, name, _) => [ToolCall(TrimEnd(name), Balanced(['{'] + Entries(args)), LastId([], inner))]
    case Whole(_, id, name, args, _) => [ToolCall(TrimEnd(name), Balanced(TrimEnd(args)), id)]
  }

  function BlocksNodes(bs: seq<Block>): seq<Node>
    requires forall i :: 0 <= i < |bs| ==> BlockOk(bs[i])
  {
    if bs == [] then [] else BlockNodes(bs[0]) + BlocksNodes(bs[1..])
  }

  function BlocksCalls(bs: seq<Block>): seq<ToolCall> {
    if bs == [] then [] else BlockCalls(bs[0]) + BlocksCalls(bs[1..])
  }

  lemma {:induction false} PassageRuns(st: State, nodes: seq<Node>)
    requires Valid(st) && forall i :: 0 <= i < |nodes| ==> nodes[i].tag in {Reasoning, Content}
    ensures AllDefined(st, nodes) && Run(st, nodes).result.calls == st.result.calls
    decreases |nodes|
  {
    if nodes != [] {
      StepValid(st, nodes[0]);
      PassageRuns(Step(st, nodes[0]), nodes[1..]);
    }
  }

  lemma BlockRuns(st: State, b: Block)
    requires Valid(st) && BlockOk(b)
    ensures AllDefined(st, BlockNodes(b)) && Run(st, BlockNodes(b)).result.calls == st.result.calls + BlockCalls(b)
  {
    hide AllDefined, Run, TrimEnd, WithoutIds, ArgsNodes, Writes, CallNodes, WholeCall, Balanced, Entries, LastId;
    match b
    case Passage(nodes) => PassageRuns(st, nodes);
    case Tagged(args, inner, name, p) => CallIsClosed(st, args, inner, name, p);
    case Whole(idText, id, name, args, nameFirst) => WholeCallIsKept(st, idText, id, name, args, nameFirst);
  }

  lemma {:induction false} BlocksRun(st: State, bs: seq<Block>)
    requires Valid(st) && forall i :: 0 <= i < |bs| ==> BlockOk(bs[i])
    ensures AllDefined(st, BlocksNodes(bs)) && Run(st, BlocksNodes(bs)).result.calls == st.result.calls + BlocksCalls(bs)
    decreases |bs|
  {
    hide AllDefined, Run, BlockOk, BlockNodes, BlockCalls, Valid;
    if bs == [] {
      NothingMore(st);
    } else {
      BlockRuns(st, bs[0]);
      var st' := Run(st, BlockNodes(bs[0]));
      BlocksRun(st', bs[1..]);
      DefinedConcat(st, BlockNodes(bs[0]), BlocksNodes(bs[1..]));
    }
  }

  /**
   A message whose parse, wrappers aside, is any sequence of texts and calls has exactly the texts, in order, and the
   calls, in order, each with its name, its id and its arguments.
   */
  lemma BuiltMessageIsWhole(nodes: seq<Node>, bs: seq<Block>)
    requires AllDefined(START, nodes) && forall i :: 0 <= i < |bs| ==> BlockOk(bs[i])
    requires Effects(nodes) == BlocksNodes(bs)
    ensures
      var m, reasoning := Outcome(Run(START, nodes)), TextOf(nodes, Reasoning);
      && m.content == TextOf(nodes, Content) && m.calls == BlocksCalls(bs)
      && m.reasoning == if forall c :: c in reasoning ==> c in {' ', '\n', '\r', '\t'} then [] else reasoning
  {
    hide AllDefined, Run, BlockOk, BlocksNodes, BlocksCalls, Effects, TextOf, Outcome;
    FinishedMessageIsWhole(nodes);
    RunOfEffects(START, nodes);
    BlocksRun(START, bs);
  }
}
