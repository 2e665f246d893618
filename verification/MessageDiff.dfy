/** Deltas between successive versions of a chat message, and the receiver that puts them back together. */
module MessageDiff {
  import opened Wrappers

  datatype ToolCall = ToolCall(name: string, arguments: string, id: string)

  datatype Message = Message(reasoning: string, content: string, calls: seq<ToolCall>)

  /** `index` is None for a delta about the texts. */
  datatype Diff = Diff(reasoning: string, content: string, index: Option<nat>, call: ToolCall)

  datatype Error = NotAContinuation | FewerToolCalls | ToolCallMismatch

  const NO_CALL := ToolCall([], [], [])
  const EMPTY_MESSAGE := Message([], [], [])

  // ----- Computing the deltas -------------------------------------------------

  function StringDiff(last: string, current: string): Result<string, Error> {
    if last == [] then Ok(current)
    else if !(last <= current) then
      if current <= last then Ok([]) else Err(NotAContinuation)
    else Ok(current[|last|..])
  }

  function TextDiffs(a: Message, b: Message): Result<seq<Diff>, Error> {
    var reasoning := if a.reasoning == b.reasoning then Ok([]) else StringDiff(a.reasoning, b.reasoning);
    var content := if a.content == b.content then Ok([]) else StringDiff(a.content, b.content);
    if reasoning.Err? then Err(reasoning.error)
    else if content.Err? then Err(content.error)
    else
      Ok((if a.reasoning == b.reasoning then [] else [Diff(reasoning.value, [], None, NO_CALL)])
         + (if a.content == b.content then [] else [Diff([], content.value, None, NO_CALL)]))
  }

  function LastCallDiffs(a: Message, b: Message): Result<seq<Diff>, Error>
    requires |a.calls| <= |b.calls|
  {
    if a.calls == [] then Ok([])
    else
      var index := |a.calls| - 1;
      var p, n := a.calls[index], b.calls[index];
      if p.name != n.name && p.name != [] && n.name != [] && !(p.name <= n.name) then Err(ToolCallMismatch)
      else
        match StringDiff(p.arguments, n.arguments)
        case Err(e) => Err(e)
        case Ok(args) =>
          var renamed := p.id != n.id || p.name != n.name;
          if args == [] && !renamed then Ok([])
          else Ok([Diff([], [], Some(index), if renamed then ToolCall(n.name, args, n.id) else ToolCall([], args, []))])
  }

  function NewCallDiffs(b: Message, index: nat): seq<Diff>
    requires index <= |b.calls|
    decreases |b.calls| - index
  {
    if index == |b.calls| then []
    else [Diff([], [], Some(index), b.calls[index])] + NewCallDiffs(b, index + 1)
  }

  function Diffs(a: Message, b: Message): Result<seq<Diff>, Error> {
    var texts := TextDiffs(a, b);
    if texts.Err? then texts
    else if |b.calls| < |a.calls| then Err(FewerToolCalls)
    else
      match LastCallDiffs(a, b)
      case Err(e) => Err(e)
      case Ok(last) => Ok(texts.value + last + NewCallDiffs(b, |a.calls|))
  }

  method ComputeDiffs(a: Message, b: Message) returns (r: Result<seq<Diff>, Error>)
    ensures r == Diffs(a, b)
  {
    var diffs: seq<Diff> := [];
    if a.reasoning != b.reasoning {
      var delta := StringDiff(a.reasoning, b.reasoning);
      if delta.Err? {
        return Err(delta.error);
      }
      diffs := diffs + [Diff(delta.value, [], None, NO_CALL)];
    }
    if a.content != b.content {
      var delta := StringDiff(a.content, b.content);
      if delta.Err? {
        return Err(delta.error);
      }
      diffs := diffs + [Diff([], delta.value, None, NO_CALL)];
    }
    if |b.calls| < |a.calls| {
      return Err(FewerToolCalls);
    }
    ghost var texts := diffs;
    assert texts == TextDiffs(a, b).value;
    if a.calls != [] {
      var index := |a.calls| - 1;
      var p, n := a.calls[index], b.calls[index];
      if p.name != n.name && p.name != [] && n.name != [] {
        if !(p.name <= n.name) {
          return Err(ToolCallMismatch);
        }
      }
      var args := StringDiff(p.arguments, n.arguments);
      if args.Err? {
        return Err(args.error);
      }
      if args.value != [] || p.id != n.id || p.name != n.name {
        var delta := NO_CALL;
        if p.id != n.id || p.name != n.name {
          delta := delta.(id := n.id, name := n.name);
        }
        diffs := diffs + [Diff([], [], Some(index), delta.(arguments := args.value))];
      }
    }
    ghost var known := diffs;
    assert LastCallDiffs(a, b).Ok? && known == texts + LastCallDiffs(a, b).value;
    for index := |a.calls| to |b.calls|
      invariant diffs + NewCallDiffs(b, index) == known + NewCallDiffs(b, |a.calls|)
    {
      diffs := diffs + [Diff([], [], Some(index), b.calls[index])];
    }
    assert diffs + [] == diffs;
    return Ok(diffs);
  }

  // ----- Applying them --------------------------------------------------------

  /** A delta with a name or an id replaces both; argument text is always appended. */
  function Patch(c: ToolCall, d: ToolCall): ToolCall {
    var renamed := d.name != [] || d.id != [];
    ToolCall(if renamed then d.name else c.name, c.arguments + d.arguments, if renamed then d.id else c.id)
  }

  /** The receiver: it appends texts, patches the call at a known index and adds the one at the next index. */
  function Apply(m: Message, d: Diff): Message {
    var m' := m.(reasoning := m.reasoning + d.reasoning, content := m.content + d.content);
    match d.index
    case None => m'
    case Some(i) =>
      if i < |m.calls| then m'.(calls := m.calls[i := Patch(m.calls[i], d.call)])
      else if i == |m.calls| then m'.(calls := m.calls + [d.call])
      else m'
  }

  function ApplyAll(m: Message, ds: seq<Diff>): Message
    decreases |ds|
  {
    if ds == [] then m else ApplyAll(Apply(m, ds[0]), ds[1..])
  }

  lemma {:induction false} ApplyConcat(m: Message, ds: seq<Diff>, es: seq<Diff>)
    ensures ApplyAll(m, ds + es) == ApplyAll(ApplyAll(m, ds), es)
    decreases |ds|
  {
    if ds == [] {
      assert ds + es == es;
    } else {
      assert (ds + es)[0] == ds[0] && (ds + es)[1..] == ds[1..] + es;
      ApplyConcat(Apply(m, ds[0]), ds[1..], es);
    }
  }

  lemma {:induction false} ApplyNewCalls(m: Message, b: Message, index: nat)
    requires index == |m.calls| <= |b.calls|
    ensures ApplyAll(m, NewCallDiffs(b, index)) == m.(calls := m.calls + b.calls[index..])
    decreases |b.calls| - index
  {
    if index < |b.calls| {
      var d := Diff([], [], Some(index), b.calls[index]);
      var m' := Apply(m, d);
      assert m' == m.(calls := m.calls + [b.calls[index]]) by {
        assert m.reasoning + [] == m.reasoning && m.content + [] == m.content;
      }
      assert NewCallDiffs(b, index)[1..] == NewCallDiffs(b, index + 1);
      ApplyNewCalls(m', b, index + 1);
      assert m'.calls + b.calls[index + 1..] == m.calls + b.calls[index..];
    } else {
      assert m.calls + b.calls[index..] == m.calls;
    }
  }

  // ----- When the deltas rebuild the message ----------------------------------

  /** The arguments grow, the name grows or is dropped, and name and id do not both vanish. */
  predicate CallGrows(p: ToolCall, n: ToolCall) {
    && p.arguments <= n.arguments
    && (p.name <= n.name || n.name == [])
    && (n.name == [] && n.id == [] ==> p.name == [] && p.id == [])
  }

  /** `b` continues `a`: texts grow, calls are only added, and of the old calls only the last may grow. */
  ghost predicate Extends(a: Message, b: Message) {
    && a.reasoning <= b.reasoning
    && a.content <= b.content
    && |a.calls| <= |b.calls|
    && (forall i :: 0 <= i < |a.calls| - 1 ==> a.calls[i] == b.calls[i])
    && (a.calls != [] ==> CallGrows(a.calls[|a.calls| - 1], b.calls[|a.calls| - 1]))
  }

  lemma StringDiffAppends(a: string, b: string)
    ensures a <= b <==> StringDiff(a, b).Ok? && a + StringDiff(a, b).value == b
  {
    if a <= b {
      assert a + b[|a|..] == b;
      assert a == [] ==> a + b == b;
    } else if b <= a {
      assert a + [] == a;
    }
  }

  lemma ApplyTextDiffs(a: Message, b: Message)
    requires TextDiffs(a, b).Ok?
    ensures var m := ApplyAll(a, TextDiffs(a, b).value);
            && m.calls == a.calls
            && (m.reasoning == b.reasoning <==> a.reasoning <= b.reasoning)
            && (m.content == b.content <==> a.content <= b.content)
  {
    var ds := TextDiffs(a, b).value;
    StringDiffAppends(a.reasoning, b.reasoning);
    StringDiffAppends(a.content, b.content);
    assert a.reasoning + [] == a.reasoning && a.content + [] == a.content;
    var r := if a.reasoning == b.reasoning then [] else [Diff(StringDiff(a.reasoning, b.reasoning).value, [], None, NO_CALL)];
    var c := if a.content == b.content then [] else [Diff([], StringDiff(a.content, b.content).value, None, NO_CALL)];
    ApplyConcat(a, r, c);
    var m := ApplyAll(a, r);
    assert m.calls == a.calls && m.content == a.content;
    assert m.reasoning + [] == m.reasoning;
    assert r != [] ==> r[1..] == [];
    assert c != [] ==> c[1..] == [];
  }

  lemma ApplyLastCallDiffs(m: Message, a: Message, b: Message)
    requires |a.calls| <= |b.calls| && m.calls == a.calls && LastCallDiffs(a, b).Ok?
    ensures var m' := ApplyAll(m, LastCallDiffs(a, b).value);
            && m'.reasoning == m.reasoning && m'.content == m.content && |m'.calls| == |a.calls|
            && (forall i :: 0 <= i < |a.calls| - 1 ==> m'.calls[i] == a.calls[i])
            && (a.calls != [] ==>
                  (m'.calls[|a.calls| - 1] == b.calls[|a.calls| - 1]
                   <==> CallGrows(a.calls[|a.calls| - 1], b.calls[|a.calls| - 1])))
  {
    if a.calls != [] {
      var i := |a.calls| - 1;
      var p, n := a.calls[i], b.calls[i];
      StringDiffAppends(p.arguments, n.arguments);
      assert m.reasoning + [] == m.reasoning && m.content + [] == m.content;
      assert p.arguments + [] == p.arguments;
      var ds := LastCallDiffs(a, b).value;
      if ds != [] {
        assert ds[1..] == [];
        assert ApplyAll(m, ds) == Apply(m, ds[0]);
      }
    }
  }

  /** The deltas exist and rebuild the new message exactly when it continues the old one. */
  lemma DiffsRebuildExactlyContinuations(a: Message, b: Message)
    ensures Diffs(a, b).Ok? && ApplyAll(a, Diffs(a, b).value) == b <==> Extends(a, b)
  {
    DiffsFailExactlyWhenRefused(a, b);
    if Diffs(a, b).Ok? {
      DeltasRebuild(a, b);
    } else {
      hide Diffs, ApplyAll;
    }
  }

  /** What the deltas rebuild, where they exist. */
  lemma DeltasRebuild(a: Message, b: Message)
    requires Diffs(a, b).Ok?
    ensures ApplyAll(a, Diffs(a, b).value) == b <==> Extends(a, b)
  {
    DiffsParts(a, b);
    hide Diffs, TextDiffs, LastCallDiffs, NewCallDiffs, CallGrows;
    var texts, last := TextDiffs(a, b).value, LastCallDiffs(a, b).value;
    var added := NewCallDiffs(b, |a.calls|);
    var m1 := ApplyAll(a, texts);
    var m2 := ApplyAll(m1, last);
    ApplyTextDiffs(a, b);
    ApplyLastCallDiffs(m1, a, b);
    ApplyConcat(a, texts + last, added);
    ApplyConcat(a, texts, last);
    ApplyNewCalls(m2, b, |a.calls|);
    hide ApplyAll;
    RebuiltCalls(m2.calls, a, b);
  }

  lemma DiffsParts(a: Message, b: Message)
    requires Diffs(a, b).Ok?
    ensures TextDiffs(a, b).Ok? && |a.calls| <= |b.calls| && LastCallDiffs(a, b).Ok?
    ensures Diffs(a, b).value == TextDiffs(a, b).value + LastCallDiffs(a, b).value + NewCallDiffs(b, |a.calls|)
  {
  }

  lemma RebuiltCalls(calls: seq<ToolCall>, a: Message, b: Message)
    requires |calls| == |a.calls| <= |b.calls|
    requires forall i :: 0 <= i < |a.calls| - 1 ==> calls[i] == a.calls[i]
    ensures calls + b.calls[|a.calls|..] == b.calls
       <==> (forall i :: 0 <= i < |a.calls| - 1 ==> a.calls[i] == b.calls[i])
            && (a.calls != [] ==> calls[|a.calls| - 1] == b.calls[|a.calls| - 1])
  {
    var all := calls + b.calls[|a.calls|..];
    assert forall i :: 0 <= i < |calls| ==> all[i] == calls[i];
    if all == b.calls {
      assert forall i :: 0 <= i < |calls| ==> b.calls[i] == all[i];
    }
  }

  /** A text delta brings what the text has more, nothing if the text was cut back, and is refused otherwise. */
  lemma StringDiffExactly(a: string, b: string)
    ensures StringDiff(a, b) == if a <= b then Ok(b[|a|..]) else if b <= a then Ok([]) else Err(NotAContinuation)
  {
  }

  /** Calls that are new come whole, one delta each, in order. */
  lemma {:induction false} NewCallDiffsExactly(b: Message, index: nat)
    requires index <= |b.calls|
    ensures NewCallDiffs(b, index)
         == seq(|b.calls| - index, i requires 0 <= i < |b.calls| - index => Diff([], [], Some(index + i), b.calls[index + i]))
    decreases |b.calls| - index
  {
    if index < |b.calls| {
      NewCallDiffsExactly(b, index + 1);
    }
  }

  /** The delta about a call that was known: the rest of its arguments, and name and id if one of them changed. */
  function CallDelta(index: nat, p: ToolCall, n: ToolCall): seq<Diff>
    requires p.arguments <= n.arguments
  {
    if p == n then []
    else
      var heading := if p.name == n.name && p.id == n.id then NO_CALL else n;
      [Diff([], [], Some(index), heading.(arguments := n.arguments[|p.arguments|..]))]
  }

  lemma LastCallDiffsExactly(a: Message, b: Message)
    requires Extends(a, b) && a.calls != []
    ensures var i := |a.calls| - 1; LastCallDiffs(a, b) == Ok(CallDelta(i, a.calls[i], b.calls[i]))
  {
    var i := |a.calls| - 1;
    StringDiffExactly(a.calls[i].arguments, b.calls[i].arguments);
    hide StringDiff;
  }

  /**
   For a continuation the deltas are these, in this order: what the reasoning has more, what the content has more, what
   the last known call has more, and each new call as a whole; none for what did not change.
   */
  lemma DeltasExactly(a: Message, b: Message)
    requires Extends(a, b)
    ensures
      Diffs(a, b)
      == Ok((if a.reasoning == b.reasoning then [] else [Diff(b.reasoning[|a.reasoning|..], [], None, NO_CALL)])
            + (if a.content == b.content then [] else [Diff([], b.content[|a.content|..], None, NO_CALL)])
            + (if a.calls == [] then []
               else CallDelta(|a.calls| - 1, a.calls[|a.calls| - 1], b.calls[|a.calls| - 1]))
            + seq(|b.calls| - |a.calls|,
                  i requires 0 <= i < |b.calls| - |a.calls| => Diff([], [], Some(|a.calls| + i), b.calls[|a.calls| + i])))
    ensures Diffs(a, b) == Ok([]) <==> a == b
  {
    StringDiffExactly(a.reasoning, b.reasoning);
    StringDiffExactly(a.content, b.content);
    NewCallDiffsExactly(b, |a.calls|);
    if a.calls != [] {
      LastCallDiffsExactly(a, b);
    }
    hide StringDiff, LastCallDiffs, NewCallDiffs;
  }

  /** What `ComputeDiffs` refuses: anything but texts one of which starts the other, as many calls, and a name that grows. */
  predicate Accepts(a: Message, b: Message) {
    && (a.reasoning <= b.reasoning || b.reasoning <= a.reasoning)
    && (a.content <= b.content || b.content <= a.content)
    && |a.calls| <= |b.calls|
    && (a.calls != [] ==>
          var p, n := a.calls[|a.calls| - 1], b.calls[|a.calls| - 1];
          && (p.name <= n.name || n.name == [])
          && (p.arguments <= n.arguments || n.arguments <= p.arguments))
  }

  lemma DiffsFailExactlyWhenRefused(a: Message, b: Message)
    ensures Diffs(a, b).Ok? <==> Accepts(a, b)
  {
  }

  // ----- Whole runs -----------------------------------------------------------

  function RunDiffs(ms: seq<Message>): Result<seq<Diff>, Error>
    requires ms != []
    decreases |ms|
  {
    if |ms| == 1 then Ok([])
    else
      match Diffs(ms[0], ms[1])
      case Err(e) => Err(e)
      case Ok(ds) =>
        match RunDiffs(ms[1..])
        case Err(e) => Err(e)
        case Ok(rest) => Ok(ds + rest)
  }

  /** Along a run of continuations no delta fails, and all deltas together rebuild the last message. */
  lemma {:induction false} RunRebuilds(ms: seq<Message>)
    requires ms != []
    requires forall i :: 0 <= i < |ms| - 1 ==> Extends(ms[i], ms[i + 1])
    ensures RunDiffs(ms).Ok? && ApplyAll(ms[0], RunDiffs(ms).value) == ms[|ms| - 1]
    decreases |ms|
  {
    if |ms| > 1 {
      assert Extends(ms[0], ms[0 + 1]);
      DiffsRebuildExactlyContinuations(ms[0], ms[1]);
      forall i | 0 <= i < |ms[1..]| - 1 ensures Extends(ms[1..][i], ms[1..][i + 1]) {
        assert Extends(ms[i + 1], ms[i + 1 + 1]);
      }
      RunRebuilds(ms[1..]);
      ApplyConcat(ms[0], Diffs(ms[0], ms[1]).value, RunDiffs(ms[1..]).value);
    }
  }
}
