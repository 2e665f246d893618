/** The mapper refines a plain rendering of named arguments, strings and Python values. */
module CallRendering {
  import opened Wrappers
  import opened JsonText
  import opened MessageDiff
  import opened ToolCallMapper
  import PartialTree
  import PythonValue

  /** What a value node holds: the characters of a string, or a Python value. */
  datatype Value = StringOf(text: string) | PythonOf(text: string)

  function ValueNode(v: Value): Node {
    Node(if v.StringOf? then ArgStringValue else ArgValue, v.text)
  }

  /** The reference rendering of a value. */
  function Rendered(v: Value): string {
    if v.StringOf? then Quote(v.text) else PythonValue.Normalize(v.text)
  }

  /** An argument and its value, if a value node follows. */
  datatype Arg = Arg(name: string, value: Option<Value>)

  function ArgNodes(a: Arg): seq<Node> {
    [Node(ArgOpen, []), Node(ArgName, a.name)]
    + (if a.value.Some? then [ValueNode(a.value.value)] else [])
    + [Node(ArgClose, [])]
  }

  function ArgsNodes(args: seq<Arg>): seq<Node> {
    if args == [] then [] else ArgsNodes(args[..|args| - 1]) + ArgNodes(args[|args| - 1])
  }

  function Entry(a: Arg): string {
    Quote(Trim(a.name)) + [':'] + (if a.value.Some? then Rendered(a.value.value) else [])
  }

  function Entries(args: seq<Arg>): string {
    if args == [] then []
    else
      var front := args[..|args| - 1];
      Entries(front) + (if front == [] then [] else [',']) + Entry(args[|args| - 1])
  }

  /** The reference rendering of a call's arguments. */
  function Render(args: seq<Arg>): string {
    ['{'] + Entries(args) + ['}']
  }

  // ----- The text under construction ------------------------------------------

  datatype Draft = Draft(text: string, count: nat, quoteOpen: bool, id: string)

  function Write(d: Draft, n: Node): Draft {
    match n.tag
    case ArgOpen => d.(quoteOpen := false)
    case ToolId => d.(id := Unquoted(TrimEnd(n.text)))
    case ArgName => d.(text := d.text + (if d.count > 0 then [','] else []) + Quote(Trim(n.text)) + [':'], count := d.count + 1)
    case ArgStringValue =>
      d.(text := d.text + (if n.text == [] || !d.quoteOpen then ['\"'] else []) + Escape(n.text), quoteOpen := true)
    case ArgValue => d.(text := d.text + PythonValue.Normalize(n.text))
    case ArgClose => if d.quoteOpen then d.(text := d.text + ['\"'], quoteOpen := false) else d
    case _ => d
  }

  function WriteAll(d: Draft, nodes: seq<Node>): Draft
    decreases |nodes|
  {
    if nodes == [] then d else WriteAll(Write(d, nodes[0]), nodes[1..])
  }

  /** Argument nodes, each value after at least one name, and ids among them. */
  predicate ArgSequence(count: nat, nodes: seq<Node>)
    decreases |nodes|
  {
    nodes == [] ||
    (&& nodes[0].tag in {ArgOpen, ArgName, ArgStringValue, ArgValue, ArgClose, ToolId}
     && (nodes[0].tag in {ArgStringValue, ArgValue, ArgClose} ==> count > 0)
     && ArgSequence(if nodes[0].tag == ArgName then count + 1 else count, nodes[1..]))
  }

  lemma {:induction false} WriteConcat(d: Draft, p: seq<Node>, q: seq<Node>)
    ensures WriteAll(d, p + q) == WriteAll(WriteAll(d, p), q)
    decreases |p|
  {
    if p == [] {
      assert p + q == q;
    } else {
      assert (p + q)[0] == p[0] && (p + q)[1..] == p[1..] + q;
      WriteConcat(Write(d, p[0]), p[1..], q);
    }
  }

  lemma {:induction false} ArgSequenceConcat(d: Draft, p: seq<Node>, q: seq<Node>)
    ensures ArgSequence(d.count, p + q) <==> ArgSequence(d.count, p) && ArgSequence(WriteAll(d, p).count, q)
    decreases |p|
  {
    if p == [] {
      assert p + q == q;
    } else {
      assert (p + q)[0] == p[0] && (p + q)[1..] == p[1..] + q;
      if p[0].tag in {ArgOpen, ArgName, ArgStringValue, ArgValue, ArgClose, ToolId} {
        ArgSequenceConcat(Write(d, p[0]), p[1..], q);
      }
    }
  }

  /** The state holds the draft: in the buffer while the call is unnamed, in the emitted call after. */
  predicate Holds(st: State, base: Message, name: Option<string>, d: Draft) {
    && Valid(st) && st.argCount == d.count && st.quoteOpen == d.quoteOpen && d.text != []
    && match name
       case None =>
         && st.result == base && st.pending == Some(NO_CALL.(id := d.id)) && st.cursor == AtPending
         && (st.buffer == d.text || (st.buffer == [] && d.text == ['{'] && d.count == 0))
       case Some(n) =>
         && n != [] && st.pending == None && st.cursor == AtLast && st.buffer == []
         && st.result == base.(calls := base.calls + [ToolCall(n, d.text, d.id)])
  }

  lemma TargetOf(st: State, base: Message, name: Option<string>, d: Draft)
    requires Holds(st, base, name, d)
    ensures st.cursor != NoTool && !Dangling(st)
    ensures Target(st) == d.text || (Target(st) == [] && d.text == ['{'] && d.count == 0 && name.None?)
  {
  }

  lemma WithTargetHolds(st: State, base: Message, name: Option<string>, d: Draft, s: string)
    requires Holds(st, base, name, d) && s != []
    ensures Holds(WithTarget(st, s), base, name, d.(text := s))
  {
    if name.Some? {
      var calls := st.result.calls;
      assert calls[|calls| - 1 := ToolCall(name.value, s, d.id)] == base.calls + [ToolCall(name.value, s, d.id)];
    }
  }

  lemma ArgNameHolds(st: State, base: Message, name: Option<string>, d: Draft, n: Node)
    requires Holds(st, base, name, d) && n.tag == ArgName
    ensures Defined(st, n) && Holds(Step(st, n), base, name, Write(d, n))
  {
    hide Holds, WithTarget, Current, Quote;
    HoldsCounters(st, base, name, d);
    TargetOf(st, base, name, d);
    var s := d.text + ArgEntry(st, n.text);
    WithTargetHolds(st, base, name, d, s);
    assert s == Write(d, n).text;
    Recount(WithTarget(st, s), base, name, d.(text := s), d.count + 1, d.quoteOpen);
  }

  lemma ArgValueHolds(st: State, base: Message, name: Option<string>, d: Draft, n: Node)
    requires Holds(st, base, name, d) && n.tag in {ArgStringValue, ArgValue} && d.count > 0
    ensures Defined(st, n) && Holds(Step(st, n), base, name, Write(d, n))
  {
    hide Holds, WithTarget, Current, Escape, PythonValue.Normalize;
    HoldsCounters(st, base, name, d);
    TargetOf(st, base, name, d);
    var isString := n.tag == ArgStringValue;
    var s := d.text + ValueText(st, isString, n.text);
    WithTargetHolds(st, base, name, d, s);
    assert s == Write(d, n).text;
    Recount(WithTarget(st, s), base, name, d.(text := s), d.count, d.quoteOpen || isString);
  }

  lemma ArgCloseHolds(st: State, base: Message, name: Option<string>, d: Draft, n: Node)
    requires Holds(st, base, name, d) && n.tag == ArgClose && d.count > 0
    ensures Defined(st, n) && Holds(Step(st, n), base, name, Write(d, n))
  {
    hide Holds, WithTarget, Current;
    HoldsCounters(st, base, name, d);
    TargetOf(st, base, name, d);
    var s := d.text + ['\"'];
    WithTargetHolds(st, base, name, d, s);
    Recount(WithTarget(st, s), base, name, d.(text := s), d.count, false);
  }

  lemma IdHolds(st: State, base: Message, name: Option<string>, d: Draft, n: Node)
    requires Holds(st, base, name, d) && n.tag == ToolId
    ensures Defined(st, n) && Holds(Step(st, n), base, name, Write(d, n))
  {
    hide TrimEnd, Unquoted;
    if name.Some? {
      var c := ToolCall(name.value, d.text, Unquoted(TrimEnd(n.text)));
      var calls := st.result.calls;
      assert calls[|calls| - 1 := c] == base.calls + [c];
    }
  }

  lemma HoldsCounters(st: State, base: Message, name: Option<string>, d: Draft)
    requires Holds(st, base, name, d)
    ensures Valid(st) && st.argCount == d.count && st.quoteOpen == d.quoteOpen && d.text != []
  {
  }

  lemma Recount(st: State, base: Message, name: Option<string>, d: Draft, count: nat, quoteOpen: bool)
    requires Holds(st, base, name, d) && (count > 0 || d.count == 0)
    requires name.None? ==> d.text != ['{'] || d.count > 0
    ensures Holds(st.(argCount := count, quoteOpen := quoteOpen), base, name, d.(count := count, quoteOpen := quoteOpen))
  {
  }

  lemma ArgStepHolds(st: State, base: Message, name: Option<string>, d: Draft, n: Node)
    requires Holds(st, base, name, d) && ArgSequence(d.count, [n])
    ensures Defined(st, n) && Holds(Step(st, n), base, name, Write(d, n))
  {
    if n.tag == ArgOpen {
    } else {
      hide Holds, Step, Write, Defined;
      if n.tag == ArgName {
        ArgNameHolds(st, base, name, d, n);
      } else if n.tag == ArgStringValue || n.tag == ArgValue {
        ArgValueHolds(st, base, name, d, n);
      } else if n.tag == ToolId {
        IdHolds(st, base, name, d, n);
      } else {
        ArgCloseHolds(st, base, name, d, n);
      }
    }
  }

  lemma {:induction false} ArgsRunHolds(st: State, base: Message, name: Option<string>, d: Draft, nodes: seq<Node>)
    requires Holds(st, base, name, d) && ArgSequence(d.count, nodes)
    ensures AllDefined(st, nodes) && Holds(Run(st, nodes), base, name, WriteAll(d, nodes))
    decreases |nodes|
  {
    hide Step, Defined, Holds;
    HoldsIsValid(st, base, name, d);
    if nodes != [] {
      assert nodes == [nodes[0]] + nodes[1..];
      ArgSequenceConcat(d, [nodes[0]], nodes[1..]);
      WriteOne(d, nodes[0]);
      ArgStepHolds(st, base, name, d, nodes[0]);
      HoldsIsValid(Step(st, nodes[0]), base, name, Write(d, nodes[0]));
      ArgsRunHolds(Step(st, nodes[0]), base, name, Write(d, nodes[0]), nodes[1..]);
    }
  }

  lemma HoldsIsValid(st: State, base: Message, name: Option<string>, d: Draft)
    requires Holds(st, base, name, d)
    ensures Valid(st)
  {
  }

  lemma WriteOne(d: Draft, n: Node)
    ensures WriteAll(d, [n]) == Write(d, n)
  {
    assert [n][1..] == [];
  }

  lemma NameHolds(st: State, base: Message, d: Draft, text: string)
    requires Holds(st, base, None, d) && TrimEnd(text) != []
    ensures Defined(st, Node(ToolName, text))
    ensures Holds(Step(st, Node(ToolName, text)), base, Some(TrimEnd(text)), d)
  {
  }

  function Balanced(s: string): string {
    s + Braces(BraceDepth(s))
  }

  lemma CloseHolds(st: State, base: Message, name: string, d: Draft)
    requires Holds(st, base, Some(name), d) && !d.quoteOpen
    ensures Defined(st, Node(ToolClose, []))
    ensures Step(st, Node(ToolClose, [])).result
         == base.(calls := base.calls + [ToolCall(name, Balanced(d.text), d.id)])
  {
    var calls := st.result.calls;
    var c := ToolCall(name, Balanced(d.text), d.id);
    assert calls[|calls| - 1 := c] == base.calls + [c];
  }

  // ----- What the argument nodes write ----------------------------------------

  lemma WriteTwo(d: Draft, m: Node, n: Node)
    ensures WriteAll(d, [m, n]) == Write(Write(d, m), n)
    ensures m.tag == ArgOpen && n.tag == ArgName ==> ArgSequence(d.count, [m, n])
    ensures m.tag in {ArgStringValue, ArgValue} && n.tag == ArgClose && d.count > 0 ==> ArgSequence(d.count, [m, n])
  {
    assert [m, n][1..] == [n] && [n][1..] == [];
    WriteOne(Write(d, m), n);
  }

  /** The name nodes of an argument write its key. */
  lemma KeyNodesWrite(d: Draft, name: string)
    ensures var nodes := [Node(ArgOpen, []), Node(ArgName, name)];
            && ArgSequence(d.count, nodes)
            && WriteAll(d, nodes)
            == Draft(d.text + (if d.count > 0 then [','] else []) + Quote(Trim(name)) + [':'], d.count + 1, false, d.id)
  {
    hide WriteAll, ArgSequence, Quote, Trim;
    WriteTwo(d, Node(ArgOpen, []), Node(ArgName, name));
  }

  /** The value nodes of an argument write its value. */
  lemma ValueNodesWrite(d: Draft, value: Option<Value>)
    requires d.count > 0 && !d.quoteOpen
    ensures var nodes := (if value.Some? then [ValueNode(value.value)] else []) + [Node(ArgClose, [])];
            && ArgSequence(d.count, nodes)
            && WriteAll(d, nodes) == d.(text := d.text + (if value.Some? then Rendered(value.value) else []))
  {
    var close := Node(ArgClose, []);
    if value.Some? {
      var n := ValueNode(value.value);
      assert [n] + [close] == [n, close];
      WriteTwo(d, n, close);
      ValueIsRendered(d, value.value);
    } else {
      assert [] + [close] == [close];
      WriteOne(d, close);
      assert d.text + [] == d.text;
    }
    hide Write, WriteAll, ArgSequence, Rendered;
  }

  lemma ValueIsRendered(d: Draft, v: Value)
    requires !d.quoteOpen
    ensures Write(Write(d, ValueNode(v)), Node(ArgClose, [])) == d.(text := d.text + Rendered(v))
  {
    hide PythonValue.Normalize;
    assert d.text + (['\"'] + Escape(v.text) + ['\"']) == d.text + ['\"'] + Escape(v.text) + ['\"'];
  }

  lemma ArgNodesWrite(d: Draft, a: Arg)
    ensures ArgSequence(d.count, ArgNodes(a))
    ensures WriteAll(d, ArgNodes(a)) == Draft(d.text + (if d.count > 0 then [','] else []) + Entry(a), d.count + 1, false, d.id)
  {
    hide Write, Quote, WriteAll, ArgSequence, Rendered, ValueNode;
    var front := [Node(ArgOpen, []), Node(ArgName, a.name)];
    var back := (if a.value.Some? then [ValueNode(a.value.value)] else []) + [Node(ArgClose, [])];
    assert ArgNodes(a) == front + back;
    KeyNodesWrite(d, a.name);
    var e := WriteAll(d, front);
    ValueNodesWrite(e, a.value);
    WriteConcat(d, front, back);
    ArgSequenceConcat(d, front, back);
    var lead := d.text + (if d.count > 0 then [','] else []);
    var key, value := Quote(Trim(a.name)) + [':'], if a.value.Some? then Rendered(a.value.value) else [];
    assert lead + Quote(Trim(a.name)) + [':'] + value == lead + (key + value);
  }

  lemma {:induction false} ArgsNodesWrite(args: seq<Arg>)
    ensures ArgSequence(0, ArgsNodes(args))
    ensures WriteAll(Draft(['{'], 0, false, []), ArgsNodes(args)) == Draft(['{'] + Entries(args), |args|, false, [])
  {
    hide Write, ArgNodes, Entry;
    var d := Draft(['{'], 0, false, []);
    if args == [] {
      assert ['{'] + [] == ['{'];
    } else {
      var front, a := args[..|args| - 1], args[|args| - 1];
      ArgsNodesWrite(front);
      var e := WriteAll(d, ArgsNodes(front));
      ArgNodesWrite(e, a);
      WriteConcat(d, ArgsNodes(front), ArgNodes(a));
      ArgSequenceConcat(d, ArgsNodes(front), ArgNodes(a));
      var comma := if front == [] then [] else [','];
      assert ['{'] + Entries(front) + comma + Entry(a) == ['{'] + (Entries(front) + comma + Entry(a));
    }
  }

  // ----- Braces ---------------------------------------------------------------

  /** The braces a value opens beyond those it closes, if it ends outside its strings. */
  predicate Settled(v: Value) {
    v.StringOf? || ScanText(SCAN_START, Rendered(v)) == Scan(ValueNesting(v), false, false)
  }

  function ValueNesting(v: Value): int {
    if v.StringOf? then 0 else BraceDepth(Rendered(v))
  }

  predicate AllSettled(args: seq<Arg>) {
    forall i :: 0 <= i < |args| && args[i].value.Some? ==> Settled(args[i].value.value)
  }

  function Nesting(args: seq<Arg>): int {
    if args == [] then 0
    else
      var a := args[|args| - 1];
      Nesting(args[..|args| - 1]) + (if a.value.Some? then ValueNesting(a.value.value) else 0)
  }

  lemma ValueDepth(depth: int, v: Value)
    requires Settled(v)
    ensures ScanText(Scan(depth, false, false), Rendered(v)) == Scan(depth + ValueNesting(v), false, false)
  {
    if v.StringOf? {
      ScanQuoted(depth, v.text);
    } else {
      hide ScanText, PythonValue.Normalize;
      ScanShift(SCAN_START, depth, Rendered(v));
    }
  }

  lemma KeyDepth(depth: int, name: string)
    ensures ScanText(Scan(depth, false, false), Quote(name) + [':']) == Scan(depth, false, false)
  {
    var q := Scan(depth, false, false);
    ScanConcat(q, Quote(name), [':']);
    ScanQuoted(depth, name);
    ScanOne(q, ':');
    hide Quote, ScanText;
  }

  lemma EntryDepth(depth: int, a: Arg)
    requires a.value.Some? ==> Settled(a.value.value)
    ensures ScanText(Scan(depth, false, false), Entry(a))
         == Scan(depth + (if a.value.Some? then ValueNesting(a.value.value) else 0), false, false)
  {
    hide ScanText, Quote, Trim, Rendered, Settled, ValueNesting;
    var q := Scan(depth, false, false);
    var key, value := Quote(Trim(a.name)) + [':'], if a.value.Some? then Rendered(a.value.value) else [];
    ScanConcat(q, key, value);
    KeyDepth(depth, Trim(a.name));
    if a.value.Some? {
      ValueDepth(depth, a.value.value);
    } else {
      assert key + value == key;
    }
  }

  lemma ScanOne(q: Scan, c: char)
    ensures ScanText(q, [c]) == ScanChar(q, c)
  {
    assert [c][1..] == [];
  }

  lemma CommaDepth(depth: int, front: seq<Arg>)
    ensures ScanText(Scan(depth, false, false), if front == [] then [] else [',']) == Scan(depth, false, false)
  {
    ScanOne(Scan(depth, false, false), ',');
  }

  lemma {:induction false} EntriesDepth(args: seq<Arg>)
    requires AllSettled(args)
    ensures ScanText(Scan(1, false, false), Entries(args)) == Scan(1 + Nesting(args), false, false)
  {
    hide ScanText, Settled, ValueNesting, Entry;
    var q := Scan(1, false, false);
    if args == [] {
      PythonValue.ScanNothing(q);
    } else {
      var front, a := args[..|args| - 1], args[|args| - 1];
      var comma := if front == [] then [] else [','];
      EntriesDepth(front);
      ScanConcat(q, Entries(front) + comma, Entry(a));
      ScanConcat(q, Entries(front), comma);
      CommaDepth(1 + Nesting(front), front);
      EntryDepth(1 + Nesting(front), a);
    }
  }

  lemma {:induction false} BracesClose(n: nat)
    ensures ScanText(Scan(n, false, false), Braces(n)) == SCAN_START
    ensures n > 0 ==> Braces(n) == ['}'] + Braces(n - 1)
  {
    if n > 0 {
      BracesClose(n - 1);
      ScanConcat(Scan(n, false, false), ['}'], Braces(n - 1));
      ScanOne(Scan(n, false, false), '}');
    }
  }

  /** Before its end a call has one brace open beyond those its values leave open; closing closes them all. */
  lemma OpenArgumentsDepth(args: seq<Arg>)
    requires AllSettled(args)
    ensures ScanText(SCAN_START, ['{'] + Entries(args)) == Scan(1 + Nesting(args), false, false)
    ensures Nesting(args) >= -1 ==> ScanText(SCAN_START, Balanced(['{'] + Entries(args))) == SCAN_START
    ensures Nesting(args) == 0 ==> Balanced(['{'] + Entries(args)) == Render(args)
  {
    hide ScanText, Entries, Settled;
    ScanConcat(SCAN_START, ['{'], Entries(args));
    ScanOne(SCAN_START, '{');
    EntriesDepth(args);
    var text, n := ['{'] + Entries(args), 1 + Nesting(args);
    if n >= 0 {
      BracesClose(n);
      ScanConcat(SCAN_START, text, Braces(n));
    }
    assert Braces(0) == [] && Braces(1) == ['}'] + Braces(0);
  }

  /** Python values leave open what their pieces leave open between their strings. */
  lemma PythonValueSettles(v: Value, ts: seq<PythonValue.Token>)
    requires v == PythonOf(PythonValue.PyTexts(ts)) && PythonValue.WellFormed(ts)
    ensures Settled(v) && ValueNesting(v) == PythonValue.Nesting(ts)
  {
    PythonValue.NormalizedDepth(ts);
  }

  // ----- The refinement -------------------------------------------------------

  /** A call with these nodes between its opening and its end, and its name after the first `p` of them. */
  function CallNodes(inner: seq<Node>, name: string, p: nat): seq<Node>
    requires p <= |inner|
  {
    [Node(ToolOpen, [])] + (inner[..p] + ([Node(ToolName, name)] + (inner[p..] + [Node(ToolClose, [])])))
  }

  function WithoutIds(nodes: seq<Node>): seq<Node> {
    if nodes == [] then []
    else (if nodes[0].tag == ToolId then [] else [nodes[0]]) + WithoutIds(nodes[1..])
  }

  /** The id the last of the id nodes gives, if there is one. */
  function LastId(id: string, nodes: seq<Node>): string
    decreases |nodes|
  {
    if nodes == [] then id
    else LastId(if nodes[0].tag == ToolId then Unquoted(TrimEnd(nodes[0].text)) else id, nodes[1..])
  }

  /** Id nodes change nothing but the id. */
  lemma {:induction false} IdsAside(d: Draft, e: Draft, nodes: seq<Node>)
    requires d == e.(id := d.id)
    ensures WriteAll(d, nodes) == WriteAll(e, WithoutIds(nodes)).(id := LastId(d.id, nodes))
    ensures ArgSequence(d.count, nodes) <==> ArgSequence(e.count, WithoutIds(nodes))
    decreases |nodes|
  {
    if nodes != [] {
      hide Quote, Trim, TrimEnd, Unquoted, Escape;
      var n, rest := nodes[0], nodes[1..];
      if n.tag == ToolId {
        IdsAside(Write(d, n), e, rest);
        assert WithoutIds(nodes) == WithoutIds(rest);
      } else {
        IdsAside(Write(d, n), Write(e, n), rest);
        assert WithoutIds(nodes)[0] == n && WithoutIds(nodes)[1..] == WithoutIds(rest);
      }
    }
  }

  lemma RunStep(st: State, n: Node, rest: seq<Node>)
    requires Valid(st) && Defined(st, n)
    requires (StepValid(st, n); AllDefined(Step(st, n), rest))
    ensures AllDefined(st, [n] + rest) && Run(st, [n] + rest) == (StepValid(st, n); Run(Step(st, n), rest))
  {
    assert ([n] + rest)[1..] == rest;
    StepValid(st, n);
    hide Step, Defined;
  }

  lemma {:induction false} DefinedConcat(st: State, p: seq<Node>, q: seq<Node>)
    requires Valid(st) && AllDefined(st, p) && AllDefined(Run(st, p), q)
    ensures AllDefined(st, p + q) && Run(st, p + q) == Run(Run(st, p), q)
    decreases |p|
  {
    hide Step, Defined;
    if p == [] {
      assert p + q == q;
    } else {
      assert (p + q)[0] == p[0] && (p + q)[1..] == p[1..] + q;
      StepValid(st, p[0]);
      DefinedConcat(Step(st, p[0]), p[1..], q);
    }
  }

  lemma CallTail(st: State, base: Message, name: string, d: Draft, nodes: seq<Node>)
    requires Holds(st, base, Some(name), d) && ArgSequence(d.count, nodes) && !WriteAll(d, nodes).quoteOpen
    ensures Valid(st) && AllDefined(st, nodes + [Node(ToolClose, [])])
    ensures Run(st, nodes + [Node(ToolClose, [])]).result
         == base.(calls := base.calls + [ToolCall(name, Balanced(WriteAll(d, nodes).text), WriteAll(d, nodes).id)])
  {
    hide Step, Defined, Holds;
    HoldsIsValid(st, base, Some(name), d);
    ArgsRunHolds(st, base, Some(name), d, nodes);
    var st' := Run(st, nodes);
    CloseHolds(st', base, name, WriteAll(d, nodes));
    RunStep(st', Node(ToolClose, []), []);
    assert [Node(ToolClose, [])] + [] == [Node(ToolClose, [])];
    DefinedConcat(st, nodes, [Node(ToolClose, [])]);
  }

  /**
   Wherever its name and ids fall among the argument nodes, a closed call is emitted once, under its last id, with
   exactly the opening brace, the reference rendering of its arguments, and a closing brace for each one open.
   */
  lemma CallIsClosed(st: State, args: seq<Arg>, inner: seq<Node>, name: string, p: nat)
    requires Valid(st) && TrimEnd(name) != [] && WithoutIds(inner) == ArgsNodes(args) && p <= |inner|
    ensures AllDefined(st, CallNodes(inner, name, p))
    ensures Run(st, CallNodes(inner, name, p)).result
         == st.result.(calls := st.result.calls
                                + [ToolCall(TrimEnd(name), Balanced(['{'] + Entries(args)), LastId([], inner))])
  {
    hide Step, Defined, Holds, Valid;
    var d, base := Draft(['{'], 0, false, []), st.result;
    var before, after := inner[..p], inner[p..];
    ArgsNodesWrite(args);
    IdsAside(d, d, inner);
    assert inner == before + after;
    ArgSequenceConcat(d, before, after);
    WriteConcat(d, before, after);

    var open := Node(ToolOpen, []);
    OpenHolds(st);
    var st1 := Step(st, open);
    ArgsRunHolds(st1, base, None, d, before);
    var st2, d2 := Run(st1, before), WriteAll(d, before);
    NameHolds(st2, base, d2, name);
    var st3 := Step(st2, Node(ToolName, name));
    CallTail(st3, base, TrimEnd(name), d2, after);

    var tail := after + [Node(ToolClose, [])];
    RunStep(st2, Node(ToolName, name), tail);
    DefinedConcat(st1, before, [Node(ToolName, name)] + tail);
    RunStep(st, open, before + ([Node(ToolName, name)] + tail));
  }

  /** If the values close what they open, the call carries exactly the reference rendering, at brace depth zero. */
  lemma CallIsRendered(st: State, args: seq<Arg>, inner: seq<Node>, name: string, p: nat)
    requires Valid(st) && TrimEnd(name) != [] && WithoutIds(inner) == ArgsNodes(args) && p <= |inner|
    requires AllSettled(args) && Nesting(args) == 0
    ensures AllDefined(st, CallNodes(inner, name, p))
    ensures Run(st, CallNodes(inner, name, p)).result
         == st.result.(calls := st.result.calls + [ToolCall(TrimEnd(name), Render(args), LastId([], inner))])
    ensures BraceDepth(Render(args)) == 0
  {
    hide AllDefined, Run, CallNodes, Render, Balanced, AllSettled, Nesting;
    CallIsClosed(st, args, inner, name, p);
    OpenArgumentsDepth(args);
  }

  /** A string, or a Python value of the usual pieces with as many braces closed as opened. */
  predicate Balances(v: Value, ts: seq<PythonValue.Token>) {
    v.PythonOf? ==> v.text == PythonValue.PyTexts(ts) && PythonValue.Nesting(ts) == 0
  }

  lemma BalancedValuesSettle(args: seq<Arg>, pieces: seq<seq<PythonValue.Token>>)
    requires |pieces| == |args| && forall i :: 0 <= i < |args| ==> PythonValue.WellFormed(pieces[i])
    requires forall i :: 0 <= i < |args| && args[i].value.Some? ==> Balances(args[i].value.value, pieces[i])
    ensures AllSettled(args) && Nesting(args) == 0
  {
    hide PythonValue.WellFormed, Balances, Settled, ValueNesting, Nesting;
    forall i | 0 <= i < |args| && args[i].value.Some?
      ensures Settled(args[i].value.value) && ValueNesting(args[i].value.value) == 0
    {
      BalancedValueSettles(args[i].value.value, pieces[i]);
    }
    NothingLeftOpen(args);
  }

  lemma BalancedValueSettles(v: Value, ts: seq<PythonValue.Token>)
    requires Balances(v, ts) && PythonValue.WellFormed(ts)
    ensures Settled(v) && ValueNesting(v) == 0
  {
    hide PythonValue.WellFormed, PythonValue.PyTexts, PythonValue.Nesting;
    if v.PythonOf? {
      PythonValueSettles(v, ts);
    }
  }

  lemma {:induction false} NothingLeftOpen(args: seq<Arg>)
    requires forall i :: 0 <= i < |args| && args[i].value.Some? ==> ValueNesting(args[i].value.value) == 0
    ensures Nesting(args) == 0
  {
    hide ValueNesting;
    if args != [] {
      NothingLeftOpen(args[..|args| - 1]);
    }
  }

  /** A call with string values and Python values, nested objects included, carries the reference rendering. */
  lemma PythonCallIsRendered(
    st: State, args: seq<Arg>, pieces: seq<seq<PythonValue.Token>>, inner: seq<Node>, name: string, p: nat)
    requires Valid(st) && TrimEnd(name) != [] && WithoutIds(inner) == ArgsNodes(args) && p <= |inner|
    requires |pieces| == |args| && forall i :: 0 <= i < |args| ==> PythonValue.WellFormed(pieces[i])
    requires forall i :: 0 <= i < |args| && args[i].value.Some? ==> Balances(args[i].value.value, pieces[i])
    ensures AllDefined(st, CallNodes(inner, name, p))
    ensures Run(st, CallNodes(inner, name, p)).result
         == st.result.(calls := st.result.calls + [ToolCall(TrimEnd(name), Render(args), LastId([], inner))])
    ensures BraceDepth(Render(args)) == 0
  {
    hide AllDefined, Run, CallNodes, Render, Balances, AllSettled, Nesting, PythonValue.WellFormed;
    BalancedValuesSettle(args, pieces);
    CallIsRendered(st, args, inner, name, p);
  }

  lemma OpenHolds(st: State)
    requires Valid(st)
    ensures Defined(st, Node(ToolOpen, []))
    ensures Holds(Step(st, Node(ToolOpen, [])), st.result, None, Draft(['{'], 0, false, []))
  {
  }

  /** Without a name node no call is ever emitted. */
  lemma {:induction false} UnnamedCallsAreNotEmitted(st: State, nodes: seq<Node>)
    requires Valid(st) && AllDefined(st, nodes)
    requires forall i :: 0 <= i < |nodes| ==> nodes[i].tag != ToolName
    ensures |Run(st, nodes).result.calls| == |st.result.calls|
    decreases |nodes|
  {
    if nodes != [] {
      StepValid(st, nodes[0]);
      StepWithoutName(st, nodes[0]);
      hide Step, Defined;
      UnnamedCallsAreNotEmitted(Step(st, nodes[0]), nodes[1..]);
    }
  }

  lemma StepWithoutName(st: State, n: Node)
    requires Valid(st) && Defined(st, n) && n.tag != ToolName
    ensures |Step(st, n).result.calls| == |st.result.calls|
  {
  }

  // ----- The rendering is JSON ------------------------------------------------

  function Names(args: seq<Arg>): (r: seq<string>)
    ensures |r| == |args| && forall i :: 0 <= i < |args| ==> r[i] == Trim(args[i].name)
  {
    seq(|args|, i requires 0 <= i < |args| => Trim(args[i].name))
  }

  function Values(args: seq<Arg>): (r: seq<PartialTree.Json>)
    requires forall i :: 0 <= i < |args| ==> args[i].value.Some?
    ensures |r| == |args| && forall i :: 0 <= i < |args| ==> r[i] == JsonOf(args[i].value.value)
  {
    seq(|args|, i requires 0 <= i < |args| => JsonOf(args[i].value.value))
  }

  /** A string stands for its characters, a Python value for what the rewriter makes of it. */
  function JsonOf(v: Value): PartialTree.Json {
    if v.StringOf? then PartialTree.Text(v.text) else PartialTree.Atom(PythonValue.Normalize(v.text))
  }

  function EntryTexts(args: seq<Arg>): (r: seq<string>)
    ensures |r| == |args| && forall i :: 0 <= i < |args| ==> r[i] == Entry(args[i])
  {
    seq(|args|, i requires 0 <= i < |args| => Entry(args[i]))
  }

  lemma {:induction false} EntriesAreJoined(args: seq<Arg>)
    ensures Entries(args) == PartialTree.CommaJoin(EntryTexts(args))
  {
    if args != [] {
      var n := |args| - 1;
      EntriesAreJoined(args[..n]);
      assert EntryTexts(args)[..n] == EntryTexts(args[..n]);
    }
  }

  lemma QuoteIsStringText(s: string)
    ensures PartialTree.IsStringText(Quote(s), s)
  {
    assert Quote(s)[1..|Quote(s)| - 1] == Escape(s);
    EscapeRoundTrip(s);
  }

  /** When every argument has its value, the rendering is a JSON object with those names and values. */
  lemma RenderingIsJson(args: seq<Arg>)
    requires forall i :: 0 <= i < |args| ==> args[i].value.Some?
    ensures PartialTree.IsJson(Render(args), PartialTree.Object(Names(args), Values(args)))
  {
    hide PartialTree.IsStringText, PartialTree.CommaJoin, PartialTree.IsMemberText, PartialTree.IsJson, Entries, Quote;
    EntriesAreJoined(args);
    var texts, inner := EntryTexts(args), ValueTexts(args);
    var keys, values := Names(args), Values(args);
    forall i | 0 <= i < |values|
      ensures PartialTree.IsMemberText(texts[i], keys[i], inner[i])
      ensures PartialTree.IsJson(inner[i], values[i])
    {
      EntryIsMember(args[i]);
      RenderedIsJson(args[i].value.value);
    }
    PartialTree.ObjectOf(Render(args), keys, values, texts, inner);
  }

  lemma RenderedIsJson(v: Value)
    ensures PartialTree.IsJson(Rendered(v), JsonOf(v))
  {
    if v.StringOf? {
      QuoteIsStringText(v.text);
    }
  }

  function ValueTexts(args: seq<Arg>): (r: seq<string>)
    requires forall i :: 0 <= i < |args| ==> args[i].value.Some?
    ensures |r| == |args| && forall i :: 0 <= i < |args| ==> r[i] == Rendered(args[i].value.value)
  {
    seq(|args|, i requires 0 <= i < |args| => Rendered(args[i].value.value))
  }

  lemma EntryIsMember(a: Arg)
    requires a.value.Some?
    ensures PartialTree.IsMemberText(Entry(a), Trim(a.name), Rendered(a.value.value))
  {
    QuoteIsStringText(Trim(a.name));
  }
}
