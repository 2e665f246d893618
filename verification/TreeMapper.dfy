/** The mapper that reads tool calls from nested trees, and its streams. */
module TreeMapper {
  import opened Wrappers
  import opened MessageDiff
  import opened PartialTree
  import Streaming

  const MAX_DEPTH := 3

  // ----- Searching ------------------------------------------------------------

  /** The first node with the mark, parents before their children, at most `depth` levels down. */
  function Find(ts: seq<Tree>, mark: Mark, depth: nat): Option<Tree>
    decreases depth, |ts|
  {
    if ts == [] || depth == 0 then None
    else if ts[0].mark == mark then Some(ts[0])
    else
      var below := Find(ts[0].children, mark, depth - 1);
      if below.Some? then below else Find(ts[1..], mark, depth)
  }

  /** The search loop. */
  method FindByTag(parent: Tree, mark: Mark, maxDepth: nat) returns (r: Option<Tree>)
    requires maxDepth > 0
    ensures r == Find(parent.children, mark, maxDepth)
    decreases maxDepth
  {
    for i := 0 to |parent.children|
      invariant Find(parent.children, mark, maxDepth) == Find(parent.children[i..], mark, maxDepth)
    {
      var child := parent.children[i];
      assert parent.children[i..][0] == child && parent.children[i..][1..] == parent.children[i + 1..];
      if child.mark == mark {
        return Some(child);
      }
      if maxDepth > 1 {
        var below := FindByTag(child, mark, maxDepth - 1);
        if below.Some? {
          return below;
        }
      }
    }
    return None;
  }

  /** All nodes at most `depth` levels down, parents before their children. */
  function Preorder(ts: seq<Tree>, depth: nat): seq<Tree>
    decreases depth, |ts|
  {
    if ts == [] || depth == 0 then [] else [ts[0]] + Preorder(ts[0].children, depth - 1) + Preorder(ts[1..], depth)
  }

  /** `r` is the first of the nodes with the mark, if any has it. */
  ghost predicate FirstWith(nodes: seq<Tree>, mark: Mark, r: Option<Tree>) {
    match r
    case None => forall i :: 0 <= i < |nodes| ==> nodes[i].mark != mark
    case Some(t) =>
      exists i :: 0 <= i < |nodes| && nodes[i] == t && t.mark == mark && forall j :: 0 <= j < i ==> nodes[j].mark != mark
  }

  lemma {:induction false} FindIsFirst(ts: seq<Tree>, mark: Mark, depth: nat)
    ensures FirstWith(Preorder(ts, depth), mark, Find(ts, mark, depth))
    decreases depth, |ts|
  {
    hide FirstWith;
    if ts == [] || depth == 0 {
      NoneWith(mark);
    } else {
      var below, behind := Find(ts[0].children, mark, depth - 1), Find(ts[1..], mark, depth);
      var inner, rest := Preorder(ts[0].children, depth - 1), Preorder(ts[1..], depth);
      FindIsFirst(ts[0].children, mark, depth - 1);
      FindIsFirst(ts[1..], mark, depth);
      FirstOfOne(ts[0], mark);
      FirstOfTwo([ts[0]], inner, mark, if ts[0].mark == mark then Some(ts[0]) else None, below);
      FirstOfTwo([ts[0]] + inner, rest, mark, if ts[0].mark == mark then Some(ts[0]) else below, behind);
    }
  }

  lemma NoneWith(mark: Mark)
    ensures FirstWith([], mark, None)
  {
  }

  lemma FirstOfOne(t: Tree, mark: Mark)
    ensures FirstWith([t], mark, if t.mark == mark then Some(t) else None)
  {
    assert [t][0] == t;
  }

  lemma FirstOfTwo(a: seq<Tree>, b: seq<Tree>, mark: Mark, x: Option<Tree>, y: Option<Tree>)
    requires FirstWith(a, mark, x) && FirstWith(b, mark, y)
    ensures FirstWith(a + b, mark, if x.Some? then x else y)
  {
    if x.Some? {
      var i :| 0 <= i < |a| && a[i] == x.value && x.value.mark == mark && forall j :: 0 <= j < i ==> a[j].mark != mark;
      assert (a + b)[i] == x.value;
    } else if y.Some? {
      var i :| 0 <= i < |b| && b[i] == y.value && y.value.mark == mark && forall j :: 0 <= j < i ==> b[j].mark != mark;
      assert (a + b)[|a| + i] == y.value;
    }
  }

  function Over(t: Tree): Tree {
    Tree(OtherRule, NoMark, [], [t], false)
  }

  /** A name is found three levels down, and no deeper. */
  lemma SearchReachesThreeLevels(t: Tree)
    requires t.mark == NameMark
    ensures NameOf(Over(Over(Over(t)))) == Some(t) && NameOf(Over(Over(Over(Over(t))))) == None
  {
    OneLevel(t, 1);
    OneLevel(Over(t), 2);
    OneLevel(Over(Over(t)), 3);
    OneLevel(Over(t), 1);
    OneLevel(Over(Over(t)), 2);
    OneLevel(Over(Over(Over(t))), 3);
    hide Find;
  }

  lemma OneLevel(t: Tree, depth: nat)
    requires depth > 0
    ensures Find([t], NameMark, depth) == if t.mark == NameMark then Some(t) else Find(t.children, NameMark, depth - 1)
    ensures Find([t], NameMark, 0) == None
  {
    assert [t][1..] == [];
  }

  // ----- Visiting -------------------------------------------------------------

  function NameOf(t: Tree): Option<Tree> { Find(t.children, NameMark, MAX_DEPTH) }

  function ArgsOf(t: Tree): Option<Tree> { Find(t.children, ArgsMark, MAX_DEPTH) }

  /** A call is emitted once its name is complete and its arguments have begun. */
  predicate Emits(t: Tree) {
    t.mark == ToolMark && NameOf(t).Some? && ArgsOf(t).Some? && !NameOf(t).value.partial
  }

  function ArgumentText(args: Tree): string {
    if args.children == [] then [] else ToJson(args.children[0])
  }

  function CallOf(t: Tree): ToolCall
    requires Emits(t)
  {
    ToolCall(NameOf(t).value.text, ArgumentText(ArgsOf(t).value), [])
  }

  function Visit(m: Message, t: Tree): Message
    decreases t, 0
  {
    match t.mark
    case ReasoningMark => m.(reasoning := m.reasoning + t.text)
    case ContentMark => m.(content := m.content + t.text)
    case ToolMark => if Emits(t) then m.(calls := m.calls + [CallOf(t)]) else m
    case _ => VisitAll(m, t.children)
  }

  function VisitAll(m: Message, ts: seq<Tree>): Message
    decreases ts, 1
  {
    if ts == [] then m else Visit(VisitAll(m, ts[..|ts| - 1]), ts[|ts| - 1])
  }

  class Mapper {
    var result: Message

    constructor ()
      ensures result == EMPTY_MESSAGE
    {
      result := EMPTY_MESSAGE;
    }

    method VisitNode(t: Tree)
      modifies this
      ensures result == Visit(old(result), t)
      decreases t
    {
      if t.mark == ReasoningMark {
        result := result.(reasoning := result.reasoning + t.text);
        return;
      }
      if t.mark == ContentMark {
        result := result.(content := result.content + t.text);
        return;
      }
      if t.mark == ToolMark {
        var name := FindByTag(t, NameMark, MAX_DEPTH);
        var args := FindByTag(t, ArgsMark, MAX_DEPTH);
        if name.Some? && args.Some? && !name.value.partial {
          var call := NO_CALL.(name := name.value.text);
          if args.value.children != [] {
            var text := PrintJson(args.value.children[0]);
            call := call.(arguments := text);
          }
          result := result.(calls := result.calls + [call]);
        }
        return;
      }
      ghost var start := result;
      for i := 0 to |t.children|
        invariant result == VisitAll(start, t.children[..i])
      {
        assert t.children[..i + 1][..i] == t.children[..i];
        VisitNode(t.children[i]);
      }
      assert t.children[..|t.children|] == t.children;
    }

    method FromAst(nodes: seq<Tree>)
      modifies this
      ensures result == VisitAll(old(result), nodes)
    {
      for i := 0 to |nodes|
        invariant result == VisitAll(old(result), nodes[..i])
      {
        assert nodes[..i + 1][..i] == nodes[..i];
        VisitNode(nodes[i]);
      }
      assert nodes[..|nodes|] == nodes;
    }
  }

  // ----- What is collected ----------------------------------------------------

  predicate IsGroup(t: Tree) {
    t.mark != ReasoningMark && t.mark != ContentMark && t.mark != ToolMark
  }

  /** The nodes that are no groups, in order. */
  function Leaves(ts: seq<Tree>): seq<Tree>
    decreases ts
  {
    if ts == [] then []
    else
      var last := ts[|ts| - 1];
      Leaves(ts[..|ts| - 1]) + (if IsGroup(last) then Leaves(last.children) else [last])
  }

  predicate NoGroups(ts: seq<Tree>) { forall i :: 0 <= i < |ts| ==> !IsGroup(ts[i]) }

  /** Nesting does not matter: a visit collects what the leaves give, from left to right. */
  lemma {:induction false} VisitCollectsLeaves(m: Message, ts: seq<Tree>)
    ensures NoGroups(Leaves(ts)) && VisitAll(m, ts) == VisitAll(m, Leaves(ts))
    decreases ts
  {
    if ts != [] {
      hide VisitAll, Leaves, Visit;
      var front, last := ts[..|ts| - 1], ts[|ts| - 1];
      VisitCollectsLeaves(m, front);
      var before := VisitAll(m, front);
      var leaves := if IsGroup(last) then Leaves(last.children) else [last];
      LeavesLast(ts);
      VisitConcat(m, Leaves(front), leaves);
      VisitLast(m, ts);
      if IsGroup(last) {
        VisitCollectsLeaves(before, last.children);
        VisitGroup(before, last);
      } else {
        VisitOne(before, last);
      }
    }
  }

  lemma LeavesLast(ts: seq<Tree>)
    requires ts != []
    ensures
      var last := ts[|ts| - 1];
      Leaves(ts) == Leaves(ts[..|ts| - 1]) + (if IsGroup(last) then Leaves(last.children) else [last])
  {
  }

  lemma VisitLast(m: Message, ts: seq<Tree>)
    requires ts != []
    ensures VisitAll(m, ts) == Visit(VisitAll(m, ts[..|ts| - 1]), ts[|ts| - 1])
  {
  }

  lemma VisitGroup(m: Message, t: Tree)
    requires IsGroup(t)
    ensures Visit(m, t) == VisitAll(m, t.children)
  {
  }

  lemma VisitOne(m: Message, t: Tree)
    ensures VisitAll(m, [t]) == Visit(m, t)
  {
    assert [t][..0] == [];
  }

  function TextOf(t: Tree, mark: Mark): string {
    if t.mark == mark then t.text else []
  }

  function CallIn(t: Tree): seq<ToolCall> {
    if Emits(t) then [CallOf(t)] else []
  }

  function TextsOf(ts: seq<Tree>, mark: Mark): string {
    if ts == [] then [] else TextsOf(ts[..|ts| - 1], mark) + TextOf(ts[|ts| - 1], mark)
  }

  function CallsOf(ts: seq<Tree>): seq<ToolCall> {
    if ts == [] then [] else CallsOf(ts[..|ts| - 1]) + CallIn(ts[|ts| - 1])
  }

  /** The message holds the texts and the complete calls of the leaves, each kind in order. */
  lemma {:induction false} VisitCollects(m: Message, ts: seq<Tree>)
    ensures
      var leaves := Leaves(ts);
      VisitAll(m, ts) == Message(m.reasoning + TextsOf(leaves, ReasoningMark), m.content + TextsOf(leaves, ContentMark),
                                 m.calls + CallsOf(leaves))
  {
    hide Leaves;
    VisitCollectsLeaves(m, ts);
    LeavesCollect(m, Leaves(ts));
  }

  lemma {:induction false} LeavesCollect(m: Message, ts: seq<Tree>)
    requires NoGroups(ts)
    ensures VisitAll(m, ts) == Message(m.reasoning + TextsOf(ts, ReasoningMark), m.content + TextsOf(ts, ContentMark),
                                       m.calls + CallsOf(ts))
    decreases |ts|
  {
    if ts != [] {
      var front, last := ts[..|ts| - 1], ts[|ts| - 1];
      LeavesCollect(m, front);
      VisitLast(m, ts);
      LeafAdds(VisitAll(m, front), last);
      hide VisitAll, Visit, TextOf, CallIn;
      Appended(m.reasoning, TextsOf(front, ReasoningMark), TextOf(last, ReasoningMark));
      Appended(m.content, TextsOf(front, ContentMark), TextOf(last, ContentMark));
      Appended(m.calls, CallsOf(front), CallIn(last));
    }
  }

  lemma Appended<T>(a: seq<T>, b: seq<T>, c: seq<T>)
    ensures (a + b) + c == a + (b + c)
  {
  }

  lemma LeafAdds(m: Message, t: Tree)
    requires !IsGroup(t)
    ensures Visit(m, t) ==
            Message(m.reasoning + TextOf(t, ReasoningMark), m.content + TextOf(t, ContentMark), m.calls + CallIn(t))
  {
    hide Find;
    assert m.reasoning + [] == m.reasoning && m.content + [] == m.content && m.calls + [] == m.calls;
  }

  // ----- Growth ---------------------------------------------------------------

  /**
   What an unfinished parse `t` may become: only a partial node changes; it keeps its rule and its mark, its text
   and its last child may grow, and children may follow. An unmarked partial node without text or children
   may become anything.
   */
  ghost predicate ParseGrows(t: Tree, u: Tree)
    decreases t, 1
  {
    || t == u
    || (t.partial && t.text == [] && t.mark == NoMark && t.children == [])
    || (t.partial && t.rule == u.rule && t.mark == u.mark && t.text <= u.text && ParsesGrow(t.children, u.children))
  }

  ghost predicate ParsesGrow(ts: seq<Tree>, us: seq<Tree>)
    decreases ts, 0
  {
    ts == [] ||
    (|ts| <= |us| && ts[..|ts| - 1] == us[..|ts| - 1] && ParseGrows(ts[|ts| - 1], us[|ts| - 1]))
  }

  /** A growing parse grows as its printer needs it to. */
  lemma {:induction false} ParsePrintsGrowing(t: Tree, u: Tree)
    requires ParseGrows(t, u)
    ensures Grows(t, u)
    decreases t, 1
  {
    if t != u && t.children != [] {
      ParsesPrintGrowing(t.children, u.children);
    }
  }

  lemma {:induction false} ParsesPrintGrowing(ts: seq<Tree>, us: seq<Tree>)
    requires ParsesGrow(ts, us)
    ensures ChildrenGrow(ts, us)
    decreases ts, 0
  {
    if ts != [] {
      ParsePrintsGrowing(ts[|ts| - 1], us[|ts| - 1]);
    }
  }

  lemma ParsesTail(ts: seq<Tree>, us: seq<Tree>)
    requires ParsesGrow(ts, us) && |ts| > 1
    ensures us != [] && ts[0] == us[0] && ParsesGrow(ts[1..], us[1..])
  {
    var k := |ts| - 1;
    assert ts[..k][0] == us[..k][0];
    assert ts[1..][..k - 1] == ts[..k][1..] && us[1..][..k - 1] == us[..k][1..];
    assert ts[1..][k - 1] == ts[k] && us[1..][k - 1] == us[k];
    hide ParseGrows;
  }

  /** What a search finds in a parse it finds in every longer one, grown. */
  lemma {:induction false} FindGrows(ts: seq<Tree>, us: seq<Tree>, mark: Mark, depth: nat)
    requires ParsesGrow(ts, us) && mark != NoMark && Find(ts, mark, depth).Some?
    ensures Find(us, mark, depth).Some? && ParseGrows(Find(ts, mark, depth).value, Find(us, mark, depth).value)
    decreases depth, |ts|
  {
    if |ts| > 1 {
      ParsesTail(ts, us);
      if ts[0].mark != mark && Find(ts[0].children, mark, depth - 1).None? {
        FindGrows(ts[1..], us[1..], mark, depth);
      }
    } else if ts[0].mark != mark && ts[0] != us[0] {
      assert Find(ts[1..], mark, depth) == None;
      FindGrows(ts[0].children, us[0].children, mark, depth - 1);
    }
  }

  lemma {:induction false} VisitContinues(m: Message, t: Tree)
    ensures Streaming.Continues(m, Visit(m, t))
    decreases t, 0
  {
    if IsGroup(t) {
      VisitAllContinues(m, t.children);
    }
  }

  lemma {:induction false} VisitAllContinues(m: Message, ts: seq<Tree>)
    ensures Streaming.Continues(m, VisitAll(m, ts))
    decreases ts, 1
  {
    hide Streaming.Continues, Visit;
    if ts == [] {
      Streaming.SameContinues(m);
    } else {
      var front, last := ts[..|ts| - 1], ts[|ts| - 1];
      VisitAllContinues(m, front);
      VisitContinues(VisitAll(m, front), last);
      Streaming.ContinuesTransitive(m, VisitAll(m, front), VisitAll(m, ts));
    }
  }

  lemma {:induction false} VisitConcat(m: Message, ts: seq<Tree>, more: seq<Tree>)
    ensures VisitAll(m, ts + more) == VisitAll(VisitAll(m, ts), more)
    decreases |more|
  {
    if more == [] {
      assert ts + more == ts;
    } else {
      var k := |more| - 1;
      assert (ts + more)[..|ts| + k] == ts + more[..k];
      VisitConcat(m, ts, more[..k]);
    }
  }

  /** An emitted call keeps its name, and its arguments only grow. */
  lemma CallGrowsOn(t: Tree, u: Tree)
    requires ParseGrows(t, u) && Emits(t)
    ensures Emits(u) && CallOf(t).name == CallOf(u).name && CallOf(t).arguments <= CallOf(u).arguments
  {
    if t != u {
      FindGrows(t.children, u.children, NameMark, MAX_DEPTH);
      FindGrows(t.children, u.children, ArgsMark, MAX_DEPTH);
      ArgumentsGrow(ArgsOf(t).value, ArgsOf(u).value);
    }
  }

  lemma ArgumentsGrow(args: Tree, args': Tree)
    requires ParseGrows(args, args')
    ensures ArgumentText(args) <= ArgumentText(args')
  {
    if args != args' && args.children != [] {
      ParsesPrintGrowing(args.children, args'.children);
      FirstGrows(args, args');
    }
  }

  lemma {:induction false} VisitGrows(m: Message, t: Tree, u: Tree)
    requires ParseGrows(t, u)
    ensures Streaming.Continues(Visit(m, t), Visit(m, u))
    decreases t, 0
  {
    if t == u {
      Streaming.SameContinues(Visit(m, t));
    } else if t.text == [] && t.mark == NoMark && t.children == [] {
      VisitContinues(m, u);
    } else if t.mark == ToolMark {
      if Emits(t) {
        CallGrowsOn(t, u);
      } else {
        VisitContinues(m, u);
      }
    } else if IsGroup(t) {
      VisitAllGrows(m, t.children, u.children);
    } else {
      Streaming.TextsContinue(m, t.text, u.text);
    }
  }

  /** Trees that grow at their newest end give a message that continues the earlier one. */
  lemma {:induction false} VisitAllGrows(m: Message, ts: seq<Tree>, us: seq<Tree>)
    requires ParsesGrow(ts, us)
    ensures Streaming.Continues(VisitAll(m, ts), VisitAll(m, us))
    decreases ts, 1
  {
    hide Streaming.Continues, Visit, ParseGrows;
    if ts == [] {
      VisitAllContinues(m, us);
    } else {
      var k := |ts| - 1;
      var before := VisitAll(m, ts[..k]);
      VisitGrows(before, ts[k], us[k]);
      var grown := us[..k + 1];
      assert grown[..k] == ts[..k];
      assert us == grown + us[k + 1..];
      VisitConcat(m, grown, us[k + 1..]);
      VisitAllContinues(VisitAll(m, grown), us[k + 1..]);
      Streaming.ContinuesTransitive(VisitAll(m, ts), VisitAll(m, grown), VisitAll(m, us));
    }
  }

  function MessageOf(ts: seq<Tree>): Message { VisitAll(EMPTY_MESSAGE, ts) }

  function Messages(streams: seq<seq<Tree>>): seq<Message> {
    seq(|streams|, i requires 0 <= i < |streams| => MessageOf(streams[i]))
  }

  lemma {:induction false} MessagesChain(p: Message, streams: seq<seq<Tree>>)
    requires forall i :: 0 <= i < |streams| - 1 ==> ParsesGrow(streams[i], streams[i + 1])
    requires streams != [] ==> Streaming.Continues(p, MessageOf(streams[0]))
    ensures Streaming.Chain(p, Messages(streams))
    decreases |streams|
  {
    hide Streaming.Continues, MessageOf, ParsesGrow;
    if streams != [] {
      var rest := streams[1..];
      forall i | 0 <= i < |rest| - 1 ensures ParsesGrow(rest[i], rest[i + 1]) {
        assert ParsesGrow(streams[i + 1], streams[i + 1 + 1]);
      }
      if rest != [] {
        assert ParsesGrow(streams[0], streams[0 + 1]);
        StreamGrows(streams[0], streams[1]);
      }
      MessagesChain(MessageOf(streams[0]), rest);
      assert Messages(streams)[1..] == Messages(rest);
    }
  }

  lemma StreamGrows(s: seq<Tree>, t: seq<Tree>)
    requires ParsesGrow(s, t)
    ensures Streaming.Continues(MessageOf(s), MessageOf(t))
  {
    VisitAllGrows(EMPTY_MESSAGE, s, t);
  }

  /** Over a whole run of growing trees no delta is refused, and the deltas rebuild the message on show. */
  lemma TreeStreamingIsSound(streams: seq<seq<Tree>>, generate: nat -> string)
    requires streams != []
    requires forall i :: 0 <= i < |streams| - 1 ==> ParsesGrow(streams[i], streams[i + 1])
    ensures
      var u := Streaming.RunSession(Streaming.NEW_SESSION, Messages(streams), generate);
      && u.1.Ok?
      && ApplyAll(EMPTY_MESSAGE, u.1.value) == u.0.chat
      && Streaming.Shows(u.0, MessageOf(streams[|streams| - 1]))
  {
    hide MessageOf, Streaming.Shows, Streaming.RunSession;
    Streaming.EmptyContinues(MessageOf(streams[0]));
    MessagesChain(EMPTY_MESSAGE, streams);
    Streaming.StartShowsNothing();
    Streaming.SessionFollows(Streaming.NEW_SESSION, EMPTY_MESSAGE, Messages(streams), generate);
  }
}
