/** Why a streamed message only ever grows: the mapper, the deltas and the receiver over whole runs. */
module Streaming {
  import opened Wrappers
  import opened JsonText
  import opened MessageDiff
  import opened ToolCallMapper
  import PythonValue

  /** Texts and the last call's arguments grow, names stay, calls are only added. */
  ghost predicate Continues(a: Message, b: Message) {
    && a.reasoning <= b.reasoning
    && a.content <= b.content
    && |a.calls| <= |b.calls|
    && (forall i :: 0 <= i < |a.calls| - 1 ==> a.calls[i] == b.calls[i])
    && (a.calls != [] ==> CallContinues(a.calls[|a.calls| - 1], b.calls[|a.calls| - 1]))
  }

  predicate CallContinues(p: ToolCall, n: ToolCall) {
    p.name == n.name && p.arguments <= n.arguments
  }

  lemma ContinuesTransitive(a: Message, b: Message, c: Message)
    requires Continues(a, b) && Continues(b, c)
    ensures Continues(a, c)
  {
    if a.calls != [] {
      var i := |a.calls| - 1;
      assert i < |b.calls| - 1 ==> b.calls[i] == c.calls[i];
      forall j | 0 <= j < i ensures a.calls[j] == c.calls[j] {
        assert b.calls[j] == c.calls[j];
      }
    }
  }

  // ----- One more node --------------------------------------------------------

  /** The call under construction is already part of the message. */
  predicate Emitted(st: State) {
    st.cursor == AtLast
  }

  /** Argument text is written straight into the message. */
  predicate Visible(st: State)
    requires Valid(st)
  {
    Emitted(st) && Current(st).name != []
  }

  /**
   The three kinds of node that overwrite instead of appending: a second name, an
   arguments object, and the end of a call with a blank name. Each must restate what it overwrites.
   */
  predicate Safe(st: State, n: Node)
    requires Valid(st)
  {
    if !Emitted(st) then true
    else if n.tag == ToolName then
      TrimEnd(n.text) == Current(st).name && (st.buffer != [] ==> Current(st).arguments <= st.buffer)
    else if n.tag == ToolArgs then
      Current(st).name != [] && OpensObject(TrimEnd(n.text)) ==> Current(st).arguments <= TrimEnd(n.text)
    else if n.tag == ToolClose then
      Current(st).name == [] && st.buffer != [] ==> Current(st).arguments <= Closed(st.buffer, st.quoteOpen)
    else true
  }

  lemma LastCallContinues(st: State, c: ToolCall)
    requires Valid(st) && Emitted(st)
    ensures Continues(st.result, WithCurrent(st, c).result) <==> CallContinues(Current(st), c)
  {
  }

  lemma WithTargetContinues(st: State, s: string)
    requires Valid(st) && st.cursor != NoTool && !Dangling(st)
    ensures Continues(st.result, WithTarget(st, s).result) <==> (Visible(st) ==> Target(st) <= s)
  {
    if Emitted(st) {
      LastCallContinues(st, Current(st).(arguments := s));
    }
  }

  /** A node lets the message grow exactly when what it overwrites, if anything, is restated. */
  lemma StepContinuesExactly(st: State, n: Node)
    requires Valid(st) && Defined(st, n)
    ensures Continues(st.result, Step(st, n).result) <==> Safe(st, n)
  {
    if UsesTool(n.tag) && st.cursor != NoTool {
      ToolStepContinuesExactly(st, n);
    }
  }

  lemma ToolStepContinuesExactly(st: State, n: Node)
    requires Valid(st) && st.cursor != NoTool && !Dangling(st)
    ensures Continues(st.result, ToolStep(st, n).result) <==> Safe(st, n)
  {
    hide Continues;
    if n.tag == ToolId && Emitted(st) {
      LastCallContinues(st, Current(st).(id := Unquoted(TrimEnd(n.text))));
    } else if n.tag == ToolName {
      NameContinuesExactly(st, TrimEnd(n.text));
    } else if n.tag == ToolArgs {
      WithTargetContinues(st, TrimEnd(n.text));
    } else if n.tag == ArgName {
      var target := if Target(st) == [] then ['{'] else Target(st);
      WithTargetContinues(st, target + ArgEntry(st, n.text));
    } else if n.tag == ArgValue || n.tag == ArgStringValue {
      WithTargetContinues(st, Target(st) + ValueText(st, n.tag == ArgStringValue, n.text));
    } else if n.tag == ArgClose {
      WithTargetContinues(st, Target(st) + ['\"']);
    } else if n.tag == ToolClose {
      CloseContinuesExactly(st);
    }
    SameContinues(st.result);
  }

  lemma SameContinues(m: Message)
    ensures Continues(m, m)
  {
  }

  lemma NameContinuesExactly(st: State, name: string)
    requires Valid(st) && st.cursor != NoTool && !Dangling(st)
    ensures Continues(st.result, NameTool(st, name).result)
       <==> (Emitted(st) ==> name == Current(st).name && (st.buffer != [] ==> Current(st).arguments <= st.buffer))
  {
    if Emitted(st) {
      var c := Current(st);
      var args := if st.buffer != [] then st.buffer else if c.arguments == [] then ['{'] else c.arguments;
      LastCallContinues(st, c.(name := name, arguments := args));
    }
  }

  lemma ClosedExtends(args: string, quoteOpen: bool)
    ensures args <= Closed(args, quoteOpen)
  {
  }

  lemma CloseContinuesExactly(st: State)
    requires Valid(st) && st.cursor != NoTool && !Dangling(st)
    ensures Continues(st.result, CloseTool(st).result)
       <==> (Emitted(st) && Current(st).name == [] && st.buffer != [] ==> Current(st).arguments <= Closed(st.buffer, st.quoteOpen))
  {
    if Emitted(st) {
      var c := Current(st);
      var flush := c.name == [] && st.buffer != [];
      ClosedExtends(c.arguments, st.quoteOpen);
      LastCallContinues(st, c.(arguments := Closed(if flush then st.buffer else c.arguments, st.quoteOpen)));
    }
  }

  // ----- A longer text in the last node ---------------------------------------

  /**
   Replacing the text `x` of the newest node by the longer `y` only adds to the message: a name
   stays what it was, an argument name of a call on show too, an arguments object must restate what it overwrites,
   a string value that was still empty must not follow an open quote, and a Python value must be cut cleanly.
   */
  predicate GrowthSafe(st: State, tag: Tag, x: string, y: string)
    requires Valid(st) && x <= y
  {
    if tag == ToolName then st.cursor == NoTool || TrimEnd(x) == TrimEnd(y)
    else if !Emitted(st) || Current(st).name == [] then true
    else if tag == ArgName then Trim(x) == Trim(y)
    else if tag == ToolArgs then
      !OpensObject(TrimEnd(x)) && OpensObject(TrimEnd(y)) ==> Current(st).arguments <= TrimEnd(y)
    else if tag == ArgStringValue then !(st.quoteOpen && x == [] && y != [])
    else if tag == ArgValue then PythonValue.CleanCut(y, |x|)
    else true
  }

  lemma {:induction false} TrimEndIsPrefix(s: string)
    ensures TrimEnd(s) <= s
    ensures forall i :: |TrimEnd(s)| <= i < |s| ==> IsSpace(s[i])
    ensures TrimEnd(s) != [] ==> !IsSpace(TrimEnd(s)[|TrimEnd(s)| - 1])
  {
    if s != [] && IsSpace(s[|s| - 1]) {
      TrimEndIsPrefix(s[..|s| - 1]);
    }
  }

  /** A longer text is never trimmed shorter. */
  lemma TrimEndGrows(x: string, y: string)
    requires x <= y
    ensures TrimEnd(x) <= TrimEnd(y)
  {
    TrimEndIsPrefix(x);
    TrimEndIsPrefix(y);
    var n := |TrimEnd(x)|;
    if n > 0 {
      assert !IsSpace(y[n - 1]);
      assert |TrimEnd(y)| >= n;
    }
  }

  lemma ValueTextGrows(st: State, isString: bool, x: string, y: string)
    requires x <= y
    ensures ValueText(st, isString, x) <= ValueText(st, isString, y)
       <==> if isString then !(st.quoteOpen && x == [] && y != []) else PythonValue.CleanCut(y, |x|)
  {
    if isString {
      EscapeKeepsPrefixes(x, y);
      if x == [] && y != [] {
        EscapeChar0(y);
        assert ValueText(st, true, x) == ['\"'];
        assert st.quoteOpen ==> ValueText(st, true, y) == Escape(y);
      } else {
        var q := if x == [] || !st.quoteOpen then ['\"'] else [];
        PrefixCancels(q, Escape(x), Escape(y));
      }
    } else {
      PythonValue.NormalizeKeepsPrefixes(y, |x|);
      assert y[..|x|] == x;
    }
  }

  /** Escaped text never begins with a quote. */
  lemma EscapeChar0(s: string)
    requires s != []
    ensures Escape(s) != [] && Escape(s)[0] != '\"'
  {
    assert EscapeChar(s[0]) != [];
  }

  lemma TwoTargets(st: State, s: string, t: string)
    requires Valid(st) && st.cursor != NoTool && !Dangling(st)
    ensures Continues(WithTarget(st, s).result, WithTarget(st, t).result) <==> (Visible(st) ==> s <= t)
  {
  }

  lemma PrefixCancels(a: string, b: string, c: string)
    ensures a + b <= a + c <==> b <= c
  {
    PythonValue.SamePrefix(a, b, c);
  }

  /** A key with its colon starts a longer one only if it is that one. */
  lemma EntriesDiffer(st: State, x: string, y: string)
    requires x <= y
    ensures ArgEntry(st, x) <= ArgEntry(st, y) <==> Trim(x) == Trim(y)
  {
    TrimGrows(x, y);
    var a, b := Trim(x), Trim(y);
    var front: string := (if st.argCount > 0 then [','] else []) + ['\"'];
    var c, d := Escape(a) + ['\"', ':'], Escape(b) + ['\"', ':'];
    assert ArgEntry(st, x) == front + c && ArgEntry(st, y) == front + d;
    PrefixCancels(front, c, d);
    if a != b {
      var more := b[|a|..];
      assert b == a + more;
      EscapeConcat(a, more);
      EscapeChar0(more);
      assert c[|Escape(a)|] == '\"' && d[|Escape(a)|] == Escape(more)[0];
    }
  }

  lemma TrimGrows(x: string, y: string)
    requires x <= y
    ensures Trim(x) <= Trim(y)
  {
    if x != [] && IsSpace(x[0]) {
      TrimEndGrows(x[1..], y[1..]);
    } else if x != [] {
      TrimEndGrows(x, y);
    }
  }

  lemma NamesContinue(st: State, name: string, name': string)
    requires Valid(st) && st.cursor != NoTool && !Dangling(st)
    ensures Continues(NameTool(st, name).result, NameTool(st, name').result) <==> name == name'
  {
  }

  lemma IdsContinue(st: State, id: string, id': string)
    requires Valid(st) && st.cursor != NoTool && !Dangling(st)
    ensures Continues(WithCurrent(st, Current(st).(id := id)).result, WithCurrent(st, Current(st).(id := id')).result)
  {
  }

  /** Ids apart, the newest node may grow exactly when its growth is safe, whatever its tag. */
  lemma GrowthContinuesExactly(st: State, tag: Tag, x: string, y: string)
    requires Valid(st) && Defined(st, Node(tag, x)) && x <= y
    ensures Continues(Step(st, Node(tag, x)).result, Step(st, Node(tag, y)).result) <==> GrowthSafe(st, tag, x, y)
  {
    hide PythonValue.CleanCut, Continues, Trim, TrimEnd, Unquoted, Closed;
    if UsesTool(tag) && st.cursor != NoTool {
      if tag == ToolName {
        NamesContinue(st, TrimEnd(x), TrimEnd(y));
      } else if tag == ToolId {
        IdsContinue(st, Unquoted(TrimEnd(x)), Unquoted(TrimEnd(y)));
      } else if tag == ArgName {
        ArgNamesContinue(st, x, y);
      } else if tag == ToolArgs {
        TrimEndGrows(x, y);
        TwoTargets(st, TrimEnd(x), TrimEnd(y));
        WithTargetContinues(st, TrimEnd(y));
      } else if tag == ArgValue || tag == ArgStringValue {
        var isString := tag == ArgStringValue;
        var s, t := ValueText(st, isString, x), ValueText(st, isString, y);
        ValueTextGrows(st, isString, x, y);
        TwoTargets(st, Target(st) + s, Target(st) + t);
        PrefixCancels(Target(st), s, t);
      }
    }
    SameContinues(Step(st, Node(tag, x)).result);
    if tag == Reasoning || tag == Content {
      TextsContinue(st.result, x, y);
    }
  }

  lemma TextsContinue(m: Message, x: string, y: string)
    requires x <= y
    ensures Continues(m.(reasoning := m.reasoning + x), m.(reasoning := m.reasoning + y))
    ensures Continues(m.(content := m.content + x), m.(content := m.content + y))
  {
  }

  lemma ArgNamesContinue(st: State, x: string, y: string)
    requires Valid(st) && st.cursor != NoTool && !Dangling(st) && x <= y
    ensures Continues(AddArgName(st, x).result, AddArgName(st, y).result) <==> (Visible(st) ==> Trim(x) == Trim(y))
  {
    hide ArgEntry;
    var target := if Target(st) == [] then ['{'] else Target(st);
    EntriesDiffer(st, x, y);
    TwoTargets(st, target + ArgEntry(st, x), target + ArgEntry(st, y));
    PrefixCancels(target, ArgEntry(st, x), ArgEntry(st, y));
  }

  /**
   A name that grows on a call not yet on show makes no continuation, and the deltas still rebuild the
   message, with the whole name sent again: this is the growth the deltas allow for.
   */
  lemma GrowingNameIsSentAgain(st: State, x: string, y: string)
    requires Valid(st) && st.pending.Some? && TrimEnd(x) != [] && x <= y
    ensures
      var a, b := Step(st, Node(ToolName, x)).result, Step(st, Node(ToolName, y)).result;
      && Diffs(a, b).Ok? && ApplyAll(a, Diffs(a, b).value) == b
      && (Continues(a, b) <==> TrimEnd(x) == TrimEnd(y))
  {
    TrimEndGrows(x, y);
    var a, b := Step(st, Node(ToolName, x)).result, Step(st, Node(ToolName, y)).result;
    NamesContinue(st, TrimEnd(x), TrimEnd(y));
    NamesExtend(st, TrimEnd(x), TrimEnd(y));
    hide Continues, TrimEnd, Diffs;
    DiffsRebuildExactlyContinuations(a, b);
  }

  lemma NamesExtend(st: State, name: string, name': string)
    requires Valid(st) && st.pending.Some? && name <= name' && name != []
    ensures Extends(NameTool(st, name).result, NameTool(st, name').result)
  {
  }

  // ----- Streams that take back -----------------------------------------------

  /** A second name, and a second arguments object, after which the deltas are refused. */
  lemma TakingBackIsRefused()
    ensures
      var named := [Node(ToolOpen, []), Node(ToolName, "f")];
      var again := named + [Node(ToolName, "g")];
      && AllDefined(START, named) && AllDefined(START, again)
      && Diffs(Outcome(Run(START, named)), Outcome(Run(START, again))) == Err(ToolCallMismatch)
    ensures
      var given := [Node(ToolOpen, []), Node(ToolName, "f"), Node(ToolArgs, "{a")];
      var again := given + [Node(ToolArgs, "{b")];
      && AllDefined(START, given) && AllDefined(START, again)
      && Diffs(Outcome(Run(START, given)), Outcome(Run(START, again))) == Err(NotAContinuation)
  {
    TwoNames();
    TwoObjects();
    hide *;
    assert [Node(ToolOpen, []), Node(ToolName, "f")] + [Node(ToolName, "g")]
        == [Node(ToolOpen, []), Node(ToolName, "f"), Node(ToolName, "g")];
    assert [Node(ToolOpen, []), Node(ToolName, "f"), Node(ToolArgs, "{a")] + [Node(ToolArgs, "{b")]
        == [Node(ToolOpen, []), Node(ToolName, "f"), Node(ToolArgs, "{a"), Node(ToolArgs, "{b")];
  }

  /** The state once a call with this heading is on show. */
  function OnShow(name: string, args: string): State {
    START.(result := Message([], [], [ToolCall(name, args, [])]), cursor := AtLast)
  }

  lemma StepsOnShow(name: string, args: string, n: Node)
    requires name != [] && TrimEnd(n.text) == n.text != []
    ensures n.tag == ToolName && args != [] ==> Step(OnShow(name, args), n) == OnShow(n.text, args)
    ensures n.tag == ToolArgs && OpensObject(n.text) ==> Step(OnShow(name, args), n) == OnShow(name, n.text)
  {
  }

  lemma CallOnShow(name: string)
    requires TrimEnd(name) == name != []
    ensures AllDefined(START, [Node(ToolOpen, []), Node(ToolName, name)])
    ensures Run(START, [Node(ToolOpen, []), Node(ToolName, name)]) == OnShow(name, ['{'])
  {
    var begin, named := Node(ToolOpen, []), Node(ToolName, name);
    var st := Step(START, begin);
    assert Step(st, named) == OnShow(name, ['{']);
    hide Step, TrimEnd;
    RunOneMore(START, [], begin);
    assert [] + [begin] == [begin] && [begin] + [named] == [begin, named];
    RunOneMore(START, [begin], named);
  }

  lemma OnShowIsOutcome(name: string, args: string)
    ensures Outcome(OnShow(name, args)) == Message([], [], [ToolCall(name, args, [])])
  {
  }

  lemma TwoNames()
    ensures
      var named := [Node(ToolOpen, []), Node(ToolName, "f")];
      var again := named + [Node(ToolName, "g")];
      && AllDefined(START, named) && AllDefined(START, again)
      && Diffs(Outcome(Run(START, named)), Outcome(Run(START, again))) == Err(ToolCallMismatch)
  {
    assert Diffs(Message([], [], [ToolCall("f", ['{'], [])]), Message([], [], [ToolCall("g", ['{'], [])])) == Err(ToolCallMismatch);
    var name := Node(ToolName, "g");
    CallOnShow("f");
    StepsOnShow("f", ['{'], name);
    hide Diffs, TrimEnd, Step, Run, AllDefined, OnShow, Outcome;
    OnShowIsOutcome("f", ['{']);
    OnShowIsOutcome("g", ['{']);
    StepIsDefined("f", ['{'], name);
    RunOneMore(START, [Node(ToolOpen, []), Node(ToolName, "f")], name);
  }

  lemma StepIsDefined(name: string, args: string, n: Node)
    ensures Valid(OnShow(name, args)) && Defined(OnShow(name, args), n)
  {
  }

  lemma TwoObjects()
    ensures
      var given := [Node(ToolOpen, []), Node(ToolName, "f"), Node(ToolArgs, "{a")];
      var again := given + [Node(ToolArgs, "{b")];
      && AllDefined(START, given) && AllDefined(START, again)
      && Diffs(Outcome(Run(START, given)), Outcome(Run(START, again))) == Err(NotAContinuation)
  {
    assert Diffs(Message([], [], [ToolCall("f", "{a", [])]), Message([], [], [ToolCall("f", "{b", [])])) == Err(NotAContinuation);
    var begin, named, one, two := Node(ToolOpen, []), Node(ToolName, "f"), Node(ToolArgs, "{a"), Node(ToolArgs, "{b");
    CallOnShow("f");
    StepsOnShow("f", ['{'], one);
    StepsOnShow("f", "{a", two);
    hide Diffs, TrimEnd, Step, Run, AllDefined, OnShow, Outcome;
    OnShowIsOutcome("f", "{a");
    OnShowIsOutcome("f", "{b");
    StepIsDefined("f", ['{'], one);
    RunOneMore(START, [begin, named], one);
    assert [begin, named] + [one] == [begin, named, one];
    StepIsDefined("f", "{a", two);
    RunOneMore(START, [begin, named, one], two);
  }

  lemma RunOneMore(st: State, nodes: seq<Node>, n: Node)
    requires Valid(st) && AllDefined(st, nodes) && Defined(Run(st, nodes), n)
    ensures AllDefined(st, nodes + [n]) && Run(st, nodes + [n]) == Step(Run(st, nodes), n)
  {
    hide Step, Defined;
    var st' := Run(st, nodes);
    StepValid(st', n);
    assert AllDefined(st', [n]) && Run(st', [n]) == Step(st', n) by {
      assert [n][1..] == [];
    }
    RunConcat(st, nodes, [n]);
  }

  // ----- Whole streams --------------------------------------------------------

  /** Every node of the stream only adds to the message. */
  ghost predicate AllSafe(st: State, nodes: seq<Node>)
    requires Valid(st) && AllDefined(st, nodes)
    decreases |nodes|
  {
    nodes == [] || (Safe(st, nodes[0]) && (StepValid(st, nodes[0]); AllSafe(Step(st, nodes[0]), nodes[1..])))
  }

  ghost predicate Streamable(st: State, nodes: seq<Node>)
    requires Valid(st)
  {
    AllDefined(st, nodes) && AllSafe(st, nodes)
  }

  lemma {:induction false} RunConcat(st: State, p: seq<Node>, q: seq<Node>)
    requires Valid(st)
    ensures AllDefined(st, p + q) <==> AllDefined(st, p) && AllDefined(Run(st, p), q)
    ensures AllDefined(st, p + q) ==> Run(st, p + q) == Run(Run(st, p), q)
    ensures Streamable(st, p + q) <==> Streamable(st, p) && Streamable(Run(st, p), q)
    decreases |p|
  {
    hide Step, Safe, Defined;
    if p == [] {
      assert p + q == q;
    } else {
      assert (p + q)[0] == p[0] && (p + q)[1..] == p[1..] + q;
      if Defined(st, p[0]) {
        StepValid(st, p[0]);
        RunConcat(Step(st, p[0]), p[1..], q);
      }
    }
  }

  lemma {:induction false} RunContinues(st: State, nodes: seq<Node>)
    requires Valid(st) && Streamable(st, nodes)
    ensures Continues(st.result, Run(st, nodes).result)
    decreases |nodes|
  {
    hide Step, Safe, Defined, Continues;
    if nodes == [] {
      SameContinues(st.result);
    } else {
      StepValid(st, nodes[0]);
      StepContinuesExactly(st, nodes[0]);
      RunContinues(Step(st, nodes[0]), nodes[1..]);
      ContinuesTransitive(st.result, Step(st, nodes[0]).result, Run(st, nodes).result);
    }
  }

  /** What a node contributes: nothing for untagged nodes and for argument wrappers that hold no object, and no text where the text is not read. */
  function Effect(n: Node): Option<Node> {
    if n.tag == Untagged || (n.tag == ToolArgs && !OpensObject(TrimEnd(n.text))) then None
    else if n.tag in {ToolOpen, ToolClose, ArgOpen, ArgClose} then Some(Node(n.tag, []))
    else Some(n)
  }

  function Effects(nodes: seq<Node>): seq<Node> {
    if nodes == [] then []
    else
      match Effect(nodes[0])
      case None => Effects(nodes[1..])
      case Some(n) => [n] + Effects(nodes[1..])
  }

  lemma StepEffect(st: State, n: Node)
    requires Valid(st) && Defined(st, n)
    ensures Effect(n).None? ==> Step(st, n) == st && Safe(st, n)
    ensures Effect(n).Some? ==>
              Defined(st, Effect(n).value) && Step(st, Effect(n).value) == Step(st, n)
              && (Safe(st, Effect(n).value) <==> Safe(st, n))
  {
  }

  /** Only the effects of a stream matter. */
  lemma {:induction false} RunEffects(st: State, nodes: seq<Node>)
    requires Valid(st) && Streamable(st, nodes)
    ensures Streamable(st, Effects(nodes)) && Run(st, Effects(nodes)) == Run(st, nodes)
    decreases |nodes|
  {
    hide Step, Safe, Defined, Effect;
    if nodes != [] {
      var n := nodes[0];
      StepValid(st, n);
      StepEffect(st, n);
      RunEffects(Step(st, n), nodes[1..]);
      if Effect(n).Some? {
        assert Effects(nodes)[1..] == Effects(nodes[1..]);
      }
    }
  }

  /** The same for any stream a mapper may be given, safe or not. */
  lemma {:induction false} RunOfEffects(st: State, nodes: seq<Node>)
    requires Valid(st) && AllDefined(st, nodes)
    ensures AllDefined(st, Effects(nodes)) && Run(st, Effects(nodes)) == Run(st, nodes)
    decreases |nodes|
  {
    hide Step, Safe, Defined, Effect;
    if nodes != [] {
      var n := nodes[0];
      StepValid(st, n);
      StepEffect(st, n);
      RunOfEffects(Step(st, n), nodes[1..]);
      if Effect(n).Some? {
        assert Effects(nodes)[1..] == Effects(nodes[1..]);
      }
    }
  }

  /** The newest node has the same tag, a longer text, and grows safely. */
  ghost predicate NewestGrows(e: seq<Node>, f: seq<Node>) {
    && e != [] && |e| <= |f|
    && var k := |e| - 1;
       && e[..k] == f[..k] && e[k].tag == f[k].tag && e[k].text <= f[k].text
       && AllDefined(START, e[..k])
       && GrowthSafe(Run(START, e[..k]), e[k].tag, e[k].text, f[k].text)
  }

  /**
   The stream `t` continues the stream `s`: up to nodes without effect, `t` repeats `s`
   with its newest text possibly longer, and then adds nodes.
   */
  ghost predicate StreamGrows(s: seq<Node>, t: seq<Node>) {
    Effects(s) <= Effects(t) || NewestGrows(Effects(s), Effects(t))
  }

  lemma BlankPrefix(a: string, b: string)
    requires a <= b
    ensures Blank(b) ==> Blank(a)
  {
  }

  lemma OutcomeContinues(s: State, t: State)
    requires Continues(s.result, t.result)
    ensures Continues(Outcome(s), Outcome(t))
  {
    BlankPrefix(s.result.reasoning, t.result.reasoning);
  }

  /** A stream a fresh mapper may be given and that only ever adds to the message. */
  ghost predicate Sound(nodes: seq<Node>) {
    Streamable(START, nodes)
  }

  ghost function MessageOf(nodes: seq<Node>): Message
    requires Sound(nodes)
  {
    Outcome(Run(START, nodes))
  }

  lemma GrownNodeContinues(st: State, n: Node, m: Node, rest: seq<Node>)
    requires Valid(st) && Defined(st, n) && n.tag == m.tag && n.text <= m.text
    requires GrowthSafe(st, n.tag, n.text, m.text)
    requires Streamable(st, [m] + rest)
    ensures Continues(Step(st, n).result, Run(st, [m] + rest).result)
  {
    hide Step, Safe, Continues, GrowthSafe;
    assert ([m] + rest)[1..] == rest;
    GrowthContinuesExactly(st, n.tag, n.text, m.text);
    StepValid(st, m);
    RunContinues(Step(st, m), rest);
    ContinuesTransitive(Step(st, n).result, Step(st, m).result, Run(st, [m] + rest).result);
  }

  lemma AddedNodesContinue(e: seq<Node>, f: seq<Node>)
    requires Streamable(START, f) && e <= f
    ensures AllDefined(START, e) && Continues(Run(START, e).result, Run(START, f).result)
  {
    hide Step, Safe, Continues, Defined;
    var rest := f[|e|..];
    assert f == e + rest;
    RunConcat(START, e, rest);
    RunContinues(Run(START, e), rest);
  }

  lemma GrownNewestContinues(e: seq<Node>, f: seq<Node>)
    requires Streamable(START, e) && Streamable(START, f) && NewestGrows(e, f)
    ensures Continues(Run(START, e).result, Run(START, f).result)
  {
    hide Step, Safe, Continues, GrowthSafe, Defined;
    var k := |e| - 1;
    var p := e[..k];
    assert e == p + [e[k]];
    RunConcat(START, p, [e[k]]);
    assert f == p + ([f[k]] + f[k + 1..]);
    RunConcat(START, p, [f[k]] + f[k + 1..]);
    RunOne(Run(START, p), e[k]);
    GrownNodeContinues(Run(START, p), e[k], f[k], f[k + 1..]);
  }

  lemma RunOne(st: State, n: Node)
    requires Valid(st) && AllDefined(st, [n])
    ensures Defined(st, n) && Run(st, [n]) == Step(st, n)
  {
    assert [n][1..] == [];
    StepValid(st, n);
    hide Step;
  }

  /** A stream that continues another yields a message that continues the other's message. */
  lemma StreamsContinue(s: seq<Node>, t: seq<Node>)
    requires Sound(s) && Sound(t) && StreamGrows(s, t)
    ensures Continues(MessageOf(s), MessageOf(t))
  {
    hide Step, Safe, Continues, GrowthSafe, Defined, Effects;
    RunEffects(START, s);
    RunEffects(START, t);
    if Effects(s) <= Effects(t) {
      AddedNodesContinue(Effects(s), Effects(t));
    } else {
      GrownNewestContinues(Effects(s), Effects(t));
    }
    OutcomeContinues(Run(START, s), Run(START, t));
  }

  // ----- Streams the parsers build --------------------------------------------

  /** One name per call, not blank, and an arguments object only while the call holds nothing but `{`. */
  predicate Orderly(st: State, n: Node)
    requires Valid(st)
  {
    && Defined(st, n)
    && (n.tag == ToolName ==> !Emitted(st) && TrimEnd(n.text) != [])
    && (n.tag == ToolArgs && Emitted(st) ==> Current(st).arguments == ['{'])
  }

  ghost predicate AllOrderly(st: State, nodes: seq<Node>)
    requires Valid(st)
    decreases |nodes|
  {
    nodes == [] || (Orderly(st, nodes[0]) && (StepValid(st, nodes[0]); AllOrderly(Step(st, nodes[0]), nodes[1..])))
  }

  predicate Named(st: State)
    requires Valid(st)
  {
    Emitted(st) ==> Current(st).name != []
  }

  lemma OrderlyStep(st: State, n: Node)
    requires Valid(st) && Named(st) && Orderly(st, n)
    ensures Safe(st, n) && (StepValid(st, n); Named(Step(st, n)))
  {
  }

  lemma {:induction false} OrderlyStreamsAreSafe(st: State, nodes: seq<Node>)
    requires Valid(st) && Named(st) && AllOrderly(st, nodes)
    ensures Streamable(st, nodes)
    decreases |nodes|
  {
    hide Step, Safe, Defined, Named;
    if nodes != [] {
      StepValid(st, nodes[0]);
      OrderlyStep(st, nodes[0]);
      assert Defined(st, nodes[0]);
      OrderlyStreamsAreSafe(Step(st, nodes[0]), nodes[1..]);
    }
  }

  // ----- Stable ids -----------------------------------------------------------

  /** The id cache after a message: every call without an entry adds its own id, or a generated one. */
  function IdsAfter(calls: seq<ToolCall>, ids: seq<string>, generate: nat -> string): seq<string>
    decreases |calls| - |ids|
  {
    if |calls| <= |ids| then ids
    else
      var id := calls[|ids|].id;
      IdsAfter(calls, ids + [if id == [] then generate(|ids|) else id], generate)
  }

  function WithIds(calls: seq<ToolCall>, ids: seq<string>): seq<ToolCall>
    requires |calls| <= |ids|
  {
    seq(|calls|, i requires 0 <= i < |calls| => calls[i].(id := ids[i]))
  }

  lemma {:induction false} IdsAfterExtends(calls: seq<ToolCall>, ids: seq<string>, generate: nat -> string)
    ensures ids <= IdsAfter(calls, ids, generate) && |calls| <= |IdsAfter(calls, ids, generate)|
    decreases |calls| - |ids|
  {
    if |calls| > |ids| {
      var id := calls[|ids|].id;
      IdsAfterExtends(calls, ids + [if id == [] then generate(|ids|) else id], generate);
    }
  }

  /** A call has the id cached for its position, or else the one it came with, or else a generated one. */
  lemma {:induction false} IdsAfterExactly(calls: seq<ToolCall>, ids: seq<string>, generate: nat -> string)
    ensures
      var after := IdsAfter(calls, ids, generate);
      && |after| == (if |calls| <= |ids| then |ids| else |calls|)
      && forall i :: 0 <= i < |after| ==>
           after[i] == if i < |ids| then ids[i] else if calls[i].id != [] then calls[i].id else generate(i)
    decreases |calls| - |ids|
  {
    if |calls| > |ids| {
      var id := calls[|ids|].id;
      IdsAfterExactly(calls, ids + [if id == [] then generate(|ids|) else id], generate);
    }
  }

  method SetToolCallIds(calls: seq<ToolCall>, ids: seq<string>, generate: nat -> string)
    returns (calls': seq<ToolCall>, ids': seq<string>)
    ensures ids' == IdsAfter(calls, ids, generate) && |calls| <= |ids'|
    ensures calls' == WithIds(calls, ids')
  {
    calls', ids' := calls, ids;
    for i := 0 to |calls|
      invariant |calls'| == |calls| && i <= |ids'| && ids <= ids'
      invariant |ids'| == if |ids| < i then i else |ids|
      invariant IdsAfter(calls, ids', generate) == IdsAfter(calls, ids, generate)
      invariant forall k :: 0 <= k < i ==> calls'[k] == calls[k].(id := ids'[k])
      invariant forall k :: i <= k < |calls| ==> calls'[k] == calls[k]
    {
      if |ids'| <= i {
        var id := calls'[i].id;
        if id == [] {
          id := generate(i);
        }
        ids' := ids' + [id];
      }
      calls' := calls'[i := calls'[i].(id := ids'[i])];
    }
  }

  // ----- A session ------------------------------------------------------------

  datatype Session = Session(chat: Message, ids: seq<string>)

  const NEW_SESSION := Session(EMPTY_MESSAGE, [])

  /** A parse result replaces the chat message unless it is empty, and the deltas lead from the old to the new one. */
  function Update(s: Session, parsed: Message, generate: nat -> string): (Session, Result<seq<Diff>, Error>) {
    if parsed == EMPTY_MESSAGE then (s, Ok([]))
    else
      var ids := IdsAfter(parsed.calls, s.ids, generate);
      IdsAfterExtends(parsed.calls, s.ids, generate);
      var chat := parsed.(calls := WithIds(parsed.calls, ids));
      (Session(chat, ids), Diffs(s.chat, chat))
  }

  /**
   An empty parse changes nothing. Any other is what the chat message then is, but for its ids, which are those cached
   before, and where there were none the calls' own or generated ones; the deltas lead there from the old message.
   */
  lemma UpdateExactly(s: Session, parsed: Message, generate: nat -> string)
    ensures Update(s, EMPTY_MESSAGE, generate) == (s, Ok([]))
    ensures
      parsed != EMPTY_MESSAGE ==>
        var (s', r) := Update(s, parsed, generate);
        && s'.chat.reasoning == parsed.reasoning && s'.chat.content == parsed.content
        && |s'.chat.calls| == |parsed.calls| <= |s'.ids| && s.ids <= s'.ids && r == Diffs(s.chat, s'.chat)
        && forall i :: 0 <= i < |parsed.calls| ==>
             var id := if i < |s.ids| then s.ids[i] else if parsed.calls[i].id != [] then parsed.calls[i].id else generate(i);
             s'.ids[i] == id && s'.chat.calls[i] == ToolCall(parsed.calls[i].name, parsed.calls[i].arguments, id)
  {
    hide IdsAfter, Diffs;
    IdsAfterExactly(parsed.calls, s.ids, generate);
    IdsAfterExtends(parsed.calls, s.ids, generate);
  }

  /** The session shows the parse result `p` under its own ids. */
  predicate Shows(s: Session, p: Message) {
    |p.calls| <= |s.ids| && s.chat == p.(calls := WithIds(p.calls, s.ids))
  }

  lemma UpdateFollows(s: Session, p: Message, q: Message, generate: nat -> string)
    requires Shows(s, p) && Continues(p, q)
    ensures var (s', r) := Update(s, q, generate);
            && r.Ok? && ApplyAll(s.chat, r.value) == s'.chat
            && Shows(s', q) && s.ids <= s'.ids
  {
    if q != EMPTY_MESSAGE {
      var ids := IdsAfter(q.calls, s.ids, generate);
      IdsAfterExtends(q.calls, s.ids, generate);
      var chat := q.(calls := WithIds(q.calls, ids));
      assert Extends(s.chat, chat);
      DiffsRebuildExactlyContinuations(s.chat, chat);
    }
  }

  function RunSession(s: Session, ps: seq<Message>, generate: nat -> string): (Session, Result<seq<Diff>, Error>)
    decreases |ps|
  {
    if ps == [] then (s, Ok([]))
    else
      match Update(s, ps[0], generate)
      case (s', Err(e)) => (s', Err(e))
      case (s', Ok(ds)) =>
        match RunSession(s', ps[1..], generate)
        case (s'', Err(e)) => (s'', Err(e))
        case (s'', Ok(rest)) => (s'', Ok(ds + rest))
  }

  ghost predicate Chain(p: Message, ps: seq<Message>)
    decreases |ps|
  {
    ps == [] || (Continues(p, ps[0]) && Chain(ps[0], ps[1..]))
  }

  lemma {:induction false} SessionFollows(s: Session, p: Message, ps: seq<Message>, generate: nat -> string)
    requires Shows(s, p) && Chain(p, ps)
    ensures var (s', r) := RunSession(s, ps, generate);
            && r.Ok? && ApplyAll(s.chat, r.value) == s'.chat
            && Shows(s', if ps == [] then p else ps[|ps| - 1]) && s.ids <= s'.ids
    decreases |ps|
  {
    hide Update, Shows, Continues, Diffs;
    if ps != [] {
      UpdateFollows(s, p, ps[0], generate);
      var (s1, r1) := Update(s, ps[0], generate);
      SessionFollows(s1, ps[0], ps[1..], generate);
      var (s2, r2) := RunSession(s1, ps[1..], generate);
      ApplyConcat(s.chat, r1.value, r2.value);
    }
  }

  ghost function Messages(streams: seq<seq<Node>>): seq<Message>
    requires forall i :: 0 <= i < |streams| ==> Sound(streams[i])
    decreases |streams|
  {
    if streams == [] then [] else [MessageOf(streams[0])] + Messages(streams[1..])
  }

  lemma EmptyContinues(m: Message)
    ensures Continues(EMPTY_MESSAGE, m)
  {
  }

  lemma {:induction false} MessagesChain(p: Message, streams: seq<seq<Node>>)
    requires forall i :: 0 <= i < |streams| ==> Sound(streams[i])
    requires forall i :: 0 <= i < |streams| - 1 ==> StreamGrows(streams[i], streams[i + 1])
    requires streams != [] ==> Continues(p, MessageOf(streams[0]))
    ensures Chain(p, Messages(streams)) && |Messages(streams)| == |streams|
    ensures streams != [] ==> Messages(streams)[|streams| - 1] == MessageOf(streams[|streams| - 1])
    decreases |streams|
  {
    hide Continues, MessageOf, Sound, StreamGrows;
    if streams != [] {
      var rest := streams[1..];
      forall i | 0 <= i < |rest| - 1 ensures StreamGrows(rest[i], rest[i + 1]) {
        assert StreamGrows(streams[i + 1], streams[i + 1 + 1]);
      }
      if rest != [] {
        assert StreamGrows(streams[0], streams[0 + 1]);
        StreamsContinue(streams[0], streams[1]);
      }
      MessagesChain(MessageOf(streams[0]), rest);
      assert Messages(streams)[1..] == Messages(rest);
    }
  }

  /**
   The whole run: for any chain of streams each continuing the one before, no delta is refused,
   the deltas rebuild from nothing exactly the message on show, and that is the last stream's
   message under the ids the session gave its calls.
   */
  lemma StreamingIsSound(streams: seq<seq<Node>>, generate: nat -> string)
    requires streams != []
    requires forall i :: 0 <= i < |streams| ==> Sound(streams[i])
    requires forall i :: 0 <= i < |streams| - 1 ==> StreamGrows(streams[i], streams[i + 1])
    ensures var (s, r) := RunSession(NEW_SESSION, Messages(streams), generate);
            && r.Ok?
            && ApplyAll(EMPTY_MESSAGE, r.value) == s.chat
            && Shows(s, MessageOf(streams[|streams| - 1]))
  {
    hide Continues, MessageOf, Sound, StreamGrows, Shows, RunSession, ApplyAll, Chain;
    EmptyContinues(MessageOf(streams[0]));
    MessagesChain(EMPTY_MESSAGE, streams);
    StartShowsNothing();
    SessionFollows(NEW_SESSION, EMPTY_MESSAGE, Messages(streams), generate);
  }

  lemma StartShowsNothing()
    ensures Shows(NEW_SESSION, EMPTY_MESSAGE)
  {
  }
}
