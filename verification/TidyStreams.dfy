/** Streams that a look at their tags and names shows to be sound, and what follows for whole runs of them. */
module TidyStreams {
  import opened Wrappers
  import opened MessageDiff
  import opened ToolCallMapper
  import opened Streaming
  import opened Announcements
  import PythonValue

  /** Where a stream stands: before any call, in a call without or with a name, or behind an unnamed call. */
  datatype Mode = Outside | Unnamed | Named | Gone

  /** `bare`: nothing but the opening brace was written for the call yet. */
  datatype Phase = Phase(mode: Mode, quoted: bool, bare: bool)

  const FIRST_PHASE := Phase(Outside, false, false)

  /**
   One name a call, and not a blank one; an arguments object before the name or while the call is bare,
   wrappers around arguments anywhere in it; and after an unnamed call nothing more about it.
   */
  function Next(ph: Phase, n: Node): Option<Phase> {
    if n.tag == ToolOpen then Some(Phase(Unnamed, false, true))
    else if n.tag == ArgOpen then Some(ph.(quoted := false))
    else if !UsesTool(n.tag) || ph.mode == Outside then Some(ph)
    else if ph.mode == Gone then None
    else if n.tag == ToolName then
      if ph.mode == Unnamed && TrimEnd(n.text) != [] then Some(ph.(mode := Named)) else None
    else if n.tag == ToolArgs then
      if !OpensObject(TrimEnd(n.text)) then Some(ph)
      else if ph.mode == Unnamed || ph.bare then Some(ph.(bare := false))
      else None
    else if n.tag == ArgName || n.tag == ArgValue then Some(ph.(bare := false))
    else if n.tag == ArgStringValue then Some(ph.(quoted := true, bare := false))
    else if n.tag == ArgClose then Some(ph.(quoted := false, bare := ph.bare && !ph.quoted))
    else if n.tag == ToolClose then Some(Phase(if ph.mode == Unnamed then Gone else Named, false, false))
    else Some(ph)
  }

  predicate TidyFrom(ph: Phase, nodes: seq<Node>)
    decreases |nodes|
  {
    nodes == [] || (Next(ph, nodes[0]).Some? && TidyFrom(Next(ph, nodes[0]).value, nodes[1..]))
  }

  predicate Tidy(nodes: seq<Node>) { TidyFrom(FIRST_PHASE, nodes) }

  /** The phase tells what the mapper's state is like. */
  predicate Agrees(ph: Phase, st: State)
    requires Valid(st)
  {
    && ph.quoted == st.quoteOpen
    && match ph.mode
       case Outside => st.cursor == NoTool && !ph.quoted
       case Unnamed => st.cursor == AtPending && st.pending.Some? && (ph.bare ==> st.buffer == [])
       case Named => st.cursor == AtLast && Current(st).name != [] && (ph.bare ==> Current(st).arguments == ['{'])
       case Gone => Dangling(st)
  }

  lemma NextAgrees(ph: Phase, st: State, n: Node)
    requires Valid(st) && Agrees(ph, st) && Next(ph, n).Some?
    ensures Defined(st, n) && Safe(st, n)
    ensures (StepValid(st, n); Agrees(Next(ph, n).value, Step(st, n)))
  {
    hide TrimEnd, Closed, ValueText, ArgEntry, Unquoted;
  }

  lemma {:induction false} TidyIsStreamable(ph: Phase, st: State, nodes: seq<Node>)
    requires Valid(st) && Agrees(ph, st) && TidyFrom(ph, nodes)
    ensures Streamable(st, nodes)
    decreases |nodes|
  {
    hide Agrees, Next, Step, Safe, Defined, Valid;
    if nodes != [] {
      NextAgrees(ph, st, nodes[0]);
      StepValid(st, nodes[0]);
      TidyIsStreamable(Next(ph, nodes[0]).value, Step(st, nodes[0]), nodes[1..]);
    }
  }

  lemma TidyIsSound(nodes: seq<Node>)
    requires Tidy(nodes)
    ensures Sound(nodes)
  {
    TidyIsStreamable(FIRST_PHASE, START, nodes);
  }

  function PhaseAfter(ph: Phase, nodes: seq<Node>): Phase
    requires TidyFrom(ph, nodes)
    decreases |nodes|
  {
    if nodes == [] then ph else PhaseAfter(Next(ph, nodes[0]).value, nodes[1..])
  }

  /** Tidiness is decided front to back; every initial part of a tidy stream is tidy. */
  lemma {:induction false} TidyConcat(ph: Phase, s: seq<Node>, t: seq<Node>)
    ensures TidyFrom(ph, s + t) <==> TidyFrom(ph, s) && TidyFrom(PhaseAfter(ph, s), t)
    decreases |s|
  {
    hide Next;
    if s == [] {
      assert s + t == t;
    } else {
      assert (s + t)[1..] == s[1..] + t;
      if Next(ph, s[0]).Some? {
        TidyConcat(Next(ph, s[0]).value, s[1..], t);
      }
    }
  }

  lemma {:induction false} RunAgrees(ph: Phase, st: State, nodes: seq<Node>)
    requires Valid(st) && Agrees(ph, st) && TidyFrom(ph, nodes)
    ensures AllDefined(st, nodes) && Agrees(PhaseAfter(ph, nodes), Run(st, nodes))
    decreases |nodes|
  {
    hide Agrees, Next, Step, Safe, Defined, Valid;
    if nodes != [] {
      NextAgrees(ph, st, nodes[0]);
      StepValid(st, nodes[0]);
      RunAgrees(Next(ph, nodes[0]).value, Step(st, nodes[0]), nodes[1..]);
    }
  }

  // ----- Only effects matter --------------------------------------------------

  /** Dropping nodes without effect keeps a stream tidy and leads to the same phase. */
  lemma {:induction false} EffectsAreTidy(ph: Phase, nodes: seq<Node>)
    requires TidyFrom(ph, nodes)
    ensures TidyFrom(ph, Effects(nodes)) && PhaseAfter(ph, Effects(nodes)) == PhaseAfter(ph, nodes)
    decreases |nodes|
  {
    if nodes != [] {
      var n, rest := nodes[0], nodes[1..];
      NextOfEffect(ph, n);
      EffectsAreTidy(Next(ph, n).value, rest);
      hide Next, Effect;
      if Effect(n).Some? {
        assert Effects(nodes)[1..] == Effects(rest);
      }
    }
  }

  lemma NextOfEffect(ph: Phase, n: Node)
    requires Next(ph, n).Some?
    ensures Next(ph, n) == if Effect(n).None? then Some(ph) else Next(ph, Effect(n).value)
  {
  }

  // ----- Growth ---------------------------------------------------------------

  /**
   The text of a node that has effect may become longer, in the phase before it, if names stay what they were,
   a Python value is cut cleanly, and a string value that was empty does not follow an open quote.
   */
  ghost predicate NodeExtends(ph: Phase, m: Node, n: Node) {
    && m.tag == n.tag && m.text <= n.text
    && match m.tag
       case ToolName => TrimEnd(m.text) == TrimEnd(n.text)
       case ArgName => Trim(m.text) == Trim(n.text)
       case ArgValue => PythonValue.CleanCut(n.text, |m.text|)
       case ArgStringValue => m.text == [] && n.text != [] ==> !ph.quoted
       case _ => true
  }

  /** Wrappers aside: more nodes, possibly behind a newest node that became longer. */
  ghost predicate StreamExtends(s: seq<Node>, t: seq<Node>)
    requires Tidy(s)
  {
    var e, f := Effects(s), Effects(t);
    e <= f ||
    (&& e != [] && |e| <= |f|
     && var k := |e| - 1;
        e[..k] == f[..k] && NodeExtends(PhaseOf(s, k), e[k], f[k]))
  }

  /** The phase before effect `k` of a tidy stream. */
  function PhaseOf(s: seq<Node>, k: nat): Phase
    requires Tidy(s) && k <= |Effects(s)|
  {
    EffectsAreTidy(FIRST_PHASE, s);
    FrontIsTidy(FIRST_PHASE, Effects(s), k);
    PhaseAfter(FIRST_PHASE, Effects(s)[..k])
  }

  lemma FrontIsTidy(ph: Phase, nodes: seq<Node>, k: nat)
    requires TidyFrom(ph, nodes) && k <= |nodes|
    ensures TidyFrom(ph, nodes[..k])
    ensures k < |nodes| ==> Next(PhaseAfter(ph, nodes[..k]), nodes[k]).Some?
  {
    TidyConcat(ph, nodes[..k], nodes[k..]);
    assert nodes == nodes[..k] + nodes[k..];
  }

  lemma {:induction false} EffectsHaveEffect(nodes: seq<Node>, k: nat)
    requires k < |Effects(nodes)|
    ensures Effects(nodes)[k].tag == ToolArgs ==> OpensObject(TrimEnd(Effects(nodes)[k].text))
    decreases |nodes|
  {
    if Effect(nodes[0]).None? {
      EffectsHaveEffect(nodes[1..], k);
    } else if k > 0 {
      EffectsHaveEffect(nodes[1..], k - 1);
    }
  }

  lemma LongerIsSafe(st: State, ph: Phase, m: Node, n: Node)
    requires Valid(st) && Agrees(ph, st) && NodeExtends(ph, m, n)
    requires m.tag == ToolArgs ==> OpensObject(TrimEnd(m.text))
    ensures GrowthSafe(st, m.tag, m.text, n.text)
  {
    hide PythonValue.CleanCut, TrimEnd, Trim;
  }

  lemma TidyStreamsGrow(s: seq<Node>, t: seq<Node>)
    requires Tidy(s) && Tidy(t) && StreamExtends(s, t)
    ensures StreamGrows(s, t)
  {
    hide GrowthSafe, NodeExtends, Effects, Run, AllDefined, PhaseAfter, Agrees;
    var e, f := Effects(s), Effects(t);
    if !(e <= f) {
      var k := |e| - 1;
      EffectsAreTidy(FIRST_PHASE, s);
      FrontIsTidy(FIRST_PHASE, e, k);
      StartAgrees();
      RunAgrees(FIRST_PHASE, START, e[..k]);
      EffectsHaveEffect(s, k);
      LongerIsSafe(Run(START, e[..k]), PhaseOf(s, k), e[k], f[k]);
      ExtendsInOrder(PhaseOf(s, k), e[k], f[k]);
    }
  }

  lemma StartAgrees()
    ensures Agrees(FIRST_PHASE, START)
  {
  }

  lemma ExtendsInOrder(ph: Phase, m: Node, n: Node)
    requires NodeExtends(ph, m, n)
    ensures m.tag == n.tag && m.text <= n.text
  {
  }

  lemma SoundAndGrowing(streams: seq<seq<Node>>)
    requires forall i :: 0 <= i < |streams| ==> Tidy(streams[i])
    requires forall i :: 0 <= i < |streams| - 1 ==> StreamExtends(streams[i], streams[i + 1])
    ensures forall i :: 0 <= i < |streams| ==> Sound(streams[i])
    ensures forall i :: 0 <= i < |streams| - 1 ==> StreamGrows(streams[i], streams[i + 1])
  {
    hide Tidy, StreamExtends, Sound, StreamGrows;
    forall i | 0 <= i < |streams| ensures Sound(streams[i]) {
      TidyIsSound(streams[i]);
    }
    forall i | 0 <= i < |streams| - 1 ensures StreamGrows(streams[i], streams[i + 1]) {
      TidyStreamsGrow(streams[i], streams[i + 1]);
    }
  }

  /**
   A whole run of tidy streams, each extending the one before: every delta is accepted, the deltas
   rebuild the final message from nothing, and each call is announced once.
   */
  lemma TidyStreamingIsSound(streams: seq<seq<Node>>, generate: nat -> string)
    requires streams != []
    requires forall i :: 0 <= i < |streams| ==> Tidy(streams[i])
    requires forall i :: 0 <= i < |streams| - 1 ==> StreamExtends(streams[i], streams[i + 1])
    ensures
      (SoundAndGrowing(streams);
       var u := RunSession(NEW_SESSION, Messages(streams), generate);
       && u.1.Ok?
       && ApplyAll(EMPTY_MESSAGE, u.1.value) == u.0.chat
       && Shows(u.0, MessageOf(streams[|streams| - 1]))
       && HearAll([], u.1.value) == Some(Headings(u.0.chat.calls)))
  {
    hide Tidy, StreamExtends, Sound, StreamGrows, RunSession, ApplyAll, HearAll, Shows, MessageOf;
    SoundAndGrowing(streams);
    StreamingIsSound(streams, generate);
    CallsAreAnnouncedOnce(streams, generate);
  }

  // ----- The streams the parsers build ----------------------------------------

  /** A stretch of a parse: text around calls, a call with tagged arguments, or one with an arguments object. */
  datatype Part =
    | Texts(nodes: seq<Node>)
    | TaggedCall(before: seq<Node>, name: string, between: seq<Node>, wrapper: Option<string>, inner: seq<Node>)
    | ObjectCall(before: seq<Node>, name: string, between: seq<Node>, args: string, after: seq<Node>)
    | ObjectFirstCall(before: seq<Node>, args: string, between: seq<Node>, name: string, after: seq<Node>)

  predicate TagsIn(nodes: seq<Node>, tags: set<Tag>) {
    forall i :: 0 <= i < |nodes| ==> nodes[i].tag in tags
  }

  const TEXT_TAGS := {Reasoning, Content, Untagged}
  const SIDE_TAGS := {ToolId, Untagged}
  const ARG_TAGS := {ToolId, Untagged, ArgOpen, ArgName, ArgValue, ArgStringValue, ArgClose}

  predicate PartOk(p: Part) {
    match p
    case Texts(nodes) => TagsIn(nodes, TEXT_TAGS)
    case TaggedCall(before, name, between, _, inner) =>
      TrimEnd(name) != [] && TagsIn(before, SIDE_TAGS) && TagsIn(between, SIDE_TAGS) && TagsIn(inner, ARG_TAGS)
    case ObjectCall(before, name, between, _, after) =>
      TrimEnd(name) != [] && TagsIn(before, SIDE_TAGS) && TagsIn(between, SIDE_TAGS) && TagsIn(after, SIDE_TAGS)
    case ObjectFirstCall(before, _, between, name, after) =>
      TrimEnd(name) != [] && TagsIn(before, SIDE_TAGS) && TagsIn(between, SIDE_TAGS) && TagsIn(after, SIDE_TAGS)
  }

  /** The nodes of a part, wrappers before what they wrap. */
  function PartNodes(p: Part): seq<Node> {
    match p
    case Texts(nodes) => nodes
    case TaggedCall(before, name, between, wrapper, inner) =>
      var args := if wrapper.Some? then [Node(ToolArgs, wrapper.value)] else [];
      [Node(ToolOpen, [])] + (before + ([Node(ToolName, name)] + (between + (args + (inner + [Node(ToolClose, [])])))))
    case ObjectCall(before, name, between, args, after) =>
      CallOfTwo(before, Node(ToolName, name), between, Node(ToolArgs, args), after)
    case ObjectFirstCall(before, args, between, name, after) =>
      CallOfTwo(before, Node(ToolArgs, args), between, Node(ToolName, name), after)
  }

  function CallOfTwo(before: seq<Node>, one: Node, between: seq<Node>, two: Node, after: seq<Node>): seq<Node> {
    [Node(ToolOpen, [])] + (before + ([one] + (between + ([two] + (after + [Node(ToolClose, [])])))))
  }

  function PartsNodes(parts: seq<Part>): seq<Node> {
    if parts == [] then [] else PartNodes(parts[0]) + PartsNodes(parts[1..])
  }

  /** From one phase on the nodes are tidy and lead to a phase of the given mode. */
  predicate Leads(ph: Phase, nodes: seq<Node>, mode: Mode, bare: bool) {
    TidyFrom(ph, nodes) && PhaseAfter(ph, nodes).mode == mode && (bare ==> PhaseAfter(ph, nodes).bare)
  }

  lemma LeadsOn(ph: Phase, s: seq<Node>, t: seq<Node>, mode: Mode, bare: bool)
    requires TidyFrom(ph, s) && Leads(PhaseAfter(ph, s), t, mode, bare)
    ensures Leads(ph, s + t, mode, bare)
  {
    TidyConcat(ph, s, t);
    PhaseConcat(ph, s, t);
  }

  lemma {:induction false} PhaseConcat(ph: Phase, s: seq<Node>, t: seq<Node>)
    requires TidyFrom(ph, s) && TidyFrom(PhaseAfter(ph, s), t)
    ensures TidyFrom(ph, s + t) && PhaseAfter(ph, s + t) == PhaseAfter(PhaseAfter(ph, s), t)
    decreases |s|
  {
    hide Next;
    if s == [] {
      assert s + t == t;
    } else {
      assert (s + t)[0] == s[0] && (s + t)[1..] == s[1..] + t;
      PhaseConcat(Next(ph, s[0]).value, s[1..], t);
    }
  }

  lemma OneLeads(ph: Phase, n: Node)
    requires Next(ph, n).Some?
    ensures TidyFrom(ph, [n]) && PhaseAfter(ph, [n]) == Next(ph, n).value
  {
    assert [n][1..] == [];
  }

  lemma {:induction false} SidesLead(ph: Phase, nodes: seq<Node>)
    requires TagsIn(nodes, SIDE_TAGS) && ph.mode != Gone
    ensures Leads(ph, nodes, ph.mode, ph.bare)
    decreases |nodes|
  {
    if nodes != [] {
      SidesLead(ph, nodes[1..]);
    }
  }

  lemma {:induction false} TextsLead(ph: Phase, nodes: seq<Node>)
    requires TagsIn(nodes, TEXT_TAGS)
    ensures Leads(ph, nodes, ph.mode, ph.bare)
    decreases |nodes|
  {
    if nodes != [] {
      TextsLead(ph, nodes[1..]);
    }
  }

  lemma {:induction false} ArgsLead(ph: Phase, nodes: seq<Node>)
    requires TagsIn(nodes, ARG_TAGS) && ph.mode == Named
    ensures Leads(ph, nodes, Named, false)
    decreases |nodes|
  {
    if nodes != [] {
      ArgsLead(Next(ph, nodes[0]).value, nodes[1..]);
    }
  }

  lemma TaggedLeads(ph: Phase, p: Part)
    requires p.TaggedCall? && PartOk(p)
    ensures Leads(ph, PartNodes(p), Named, false)
  {
    hide TidyFrom, PhaseAfter, TrimEnd, TagsIn;
    var begin, name, close := Node(ToolOpen, []), Node(ToolName, p.name), Node(ToolClose, []);
    var args := if p.wrapper.Some? then [Node(ToolArgs, p.wrapper.value)] else [];
    var ph1 := Next(ph, begin).value;
    OneLeads(ph, begin);
    SidesLead(ph1, p.before);
    var ph2 := PhaseAfter(ph1, p.before);
    OneLeads(ph2, name);
    var ph3 := Next(ph2, name).value;
    SidesLead(ph3, p.between);
    var ph4 := PhaseAfter(ph3, p.between);
    WrapperLeads(ph4, args);
    var ph5 := PhaseAfter(ph4, args);
    ArgsLead(ph5, p.inner);
    OneLeads(PhaseAfter(ph5, p.inner), close);
    hide Next;
    var tail := p.inner + [close];
    LeadsOn(ph5, p.inner, [close], Named, false);
    LeadsOn(ph4, args, tail, Named, false);
    LeadsOn(ph3, p.between, args + tail, Named, false);
    LeadsOn(ph2, [name], p.between + (args + tail), Named, false);
    LeadsOn(ph1, p.before, [name] + (p.between + (args + tail)), Named, false);
    LeadsOn(ph, [begin], p.before + ([name] + (p.between + (args + tail))), Named, false);
  }

  /** Behind a name with nothing but ids a wrapper of any text is accepted. */
  lemma WrapperLeads(ph: Phase, args: seq<Node>)
    requires ph.mode == Named && ph.bare && |args| <= 1 && (args != [] ==> args[0].tag == ToolArgs)
    ensures TidyFrom(ph, args) && PhaseAfter(ph, args).mode == Named
  {
    if args != [] {
      assert args == [args[0]];
      OneLeads(ph, args[0]);
    }
  }

  /** A name and an object, in either order, with ids around them. */
  lemma ObjectLeads(ph: Phase, before: seq<Node>, one: Node, between: seq<Node>, two: Node, after: seq<Node>)
    requires TagsIn(before, SIDE_TAGS) && TagsIn(between, SIDE_TAGS) && TagsIn(after, SIDE_TAGS)
    requires (one.tag == ToolName && two.tag == ToolArgs && TrimEnd(one.text) != [])
             || (one.tag == ToolArgs && two.tag == ToolName && TrimEnd(two.text) != [])
    ensures Leads(ph, CallOfTwo(before, one, between, two, after), Named, false)
  {
    hide TidyFrom, PhaseAfter, TrimEnd, TagsIn;
    var begin, close := Node(ToolOpen, []), Node(ToolClose, []);
    var ph1 := Next(ph, begin).value;
    OneLeads(ph, begin);
    SidesLead(ph1, before);
    var ph2 := PhaseAfter(ph1, before);
    OneLeads(ph2, one);
    var ph3 := Next(ph2, one).value;
    SidesLead(ph3, between);
    var ph4 := PhaseAfter(ph3, between);
    OneLeads(ph4, two);
    var ph5 := Next(ph4, two).value;
    SidesLead(ph5, after);
    OneLeads(PhaseAfter(ph5, after), close);
    hide Next;
    LeadsOn(ph5, after, [close], Named, false);
    var tail := [two] + (after + [close]);
    LeadsOn(ph4, [two], after + [close], Named, false);
    LeadsOn(ph3, between, tail, Named, false);
    LeadsOn(ph2, [one], between + tail, Named, false);
    LeadsOn(ph1, before, [one] + (between + tail), Named, false);
    LeadsOn(ph, [begin], before + ([one] + (between + tail)), Named, false);
  }

  lemma PartLeads(ph: Phase, p: Part)
    requires PartOk(p)
    ensures TidyFrom(ph, PartNodes(p))
  {
    hide TidyFrom, PhaseAfter, Next, TrimEnd, TagsIn, CallOfTwo;
    match p
    case Texts(nodes) => TextsLead(ph, nodes);
    case TaggedCall(_, _, _, _, _) => TaggedLeads(ph, p);
    case ObjectCall(before, name, between, args, after) =>
      ObjectLeads(ph, before, Node(ToolName, name), between, Node(ToolArgs, args), after);
    case ObjectFirstCall(before, args, between, name, after) =>
      ObjectLeads(ph, before, Node(ToolArgs, args), between, Node(ToolName, name), after);
  }

  lemma {:induction false} PartsLead(ph: Phase, parts: seq<Part>)
    requires forall i :: 0 <= i < |parts| ==> PartOk(parts[i])
    ensures TidyFrom(ph, PartsNodes(parts))
    decreases |parts|
  {
    hide PartOk, PartNodes, Next;
    if parts != [] {
      PartLeads(ph, parts[0]);
      PartsLead(PhaseAfter(ph, PartNodes(parts[0])), parts[1..]);
      TidyConcat(ph, PartNodes(parts[0]), PartsNodes(parts[1..]));
    }
  }

  /** Whatever calls the parsers build, in any number and cut off anywhere, the stream is tidy. */
  lemma BuiltStreamsAreTidy(parts: seq<Part>, k: nat)
    requires forall i :: 0 <= i < |parts| ==> PartOk(parts[i])
    requires k <= |PartsNodes(parts)|
    ensures Tidy(PartsNodes(parts)[..k])
  {
    PartsLead(FIRST_PHASE, parts);
    FrontIsTidy(FIRST_PHASE, PartsNodes(parts), k);
  }
}
