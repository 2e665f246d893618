/** A session that holds tool-call names back until they are needed, and a receiver that addresses calls by index. */
module FilteredSession {
  import opened Wrappers
  import opened MessageDiff
  import opened Streaming

  /** Deltas to send, and the calls whose name has been sent by then. */
  datatype Out = Out(diffs: seq<Diff>, sent: set<nat>)

  // ----- Filtering ------------------------------------------------------------

  function Header(chat: Message, i: nat): Diff
    requires i < |chat.calls|
  {
    Diff([], [], Some(i), ToolCall(chat.calls[i].name, [], chat.calls[i].id))
  }

  /** Before `d` goes out, the names held back go out, but for the call `d` itself is about to name. */
  function Flush(chat: Message, sent: set<nat>, d: Diff, i: nat): Out
    requires i <= |chat.calls|
    decreases |chat.calls| - i
  {
    if i == |chat.calls| then Out([], sent)
    else if i in sent || chat.calls[i].name == [] || (d.index == Some(i) && d.call.arguments == []) then
      Flush(chat, sent, d, i + 1)
    else
      var rest := Flush(chat, sent + {i}, d, i + 1);
      Out([Header(chat, i)] + rest.diffs, rest.sent)
  }

  predicate Addressed(chat: Message, d: Diff) {
    d.index.Some? ==> d.index.value < |chat.calls|
  }

  /** What goes out for `d` itself. */
  function Pass(chat: Message, partial: bool, sent: set<nat>, d: Diff): Out
    requires Addressed(chat, d)
  {
    if d.index == None then Out([d], sent)
    else
      var i := d.index.value;
      if i in sent then
        Out(if d.call.arguments == [] then [] else [d.(call := ToolCall([], d.call.arguments, []))], sent)
      else if d.call.arguments != [] || !partial then
        Out([d.(call := ToolCall(chat.calls[i].name, d.call.arguments, chat.calls[i].id))], sent + {i})
      else Out([], sent)
  }

  function FilterOne(chat: Message, partial: bool, sent: set<nat>, d: Diff): Out
    requires Addressed(chat, d)
  {
    var first := Flush(chat, sent, d, 0);
    var then' := Pass(chat, partial, first.sent, d);
    Out(first.diffs + then'.diffs, then'.sent)
  }

  function FilterAll(chat: Message, partial: bool, sent: set<nat>, ds: seq<Diff>): Out
    requires forall k :: 0 <= k < |ds| ==> Addressed(chat, ds[k])
    decreases |ds|
  {
    if ds == [] then Out([], sent)
    else
      var first := FilterOne(chat, partial, sent, ds[0]);
      var rest := FilterAll(chat, partial, first.sent, ds[1..]);
      Out(first.diffs + rest.diffs, rest.sent)
  }

  /** At the end of the message no name stays behind. */
  function FlushAll(chat: Message, sent: set<nat>, i: nat): Out
    requires i <= |chat.calls|
    decreases |chat.calls| - i
  {
    if i == |chat.calls| then Out([], sent)
    else if i in sent || chat.calls[i].name == [] then FlushAll(chat, sent, i + 1)
    else
      var rest := FlushAll(chat, sent + {i}, i + 1);
      Out([Header(chat, i)] + rest.diffs, rest.sent)
  }

  function Filter(chat: Message, partial: bool, sent: set<nat>, ds: seq<Diff>): Out
    requires forall k :: 0 <= k < |ds| ==> Addressed(chat, ds[k])
  {
    var all := FilterAll(chat, partial, sent, ds);
    if partial then all
    else
      var rest := FlushAll(chat, all.sent, 0);
      Out(all.diffs + rest.diffs, rest.sent)
  }

  // ----- What is held back ----------------------------------------------------

  /** `d` brings nothing of the arguments of call `i`. */
  predicate Bare(d: Diff, i: nat) {
    d.index == Some(i) && d.call.arguments == []
  }

  lemma {:induction false} FlushNames(chat: Message, sent: set<nat>, d: Diff, i: nat)
    requires i <= |chat.calls|
    ensures sent <= Flush(chat, sent, d, i).sent
    ensures forall j :: i <= j < |chat.calls| && chat.calls[j].name != [] && !Bare(d, j) ==> j in Flush(chat, sent, d, i).sent
    decreases |chat.calls| - i
  {
    if i < |chat.calls| {
      FlushNames(chat, sent, d, i + 1);
      FlushNames(chat, sent + {i}, d, i + 1);
    }
  }

  /** While a message is partial, no name is held back but that of the call whose bare delta came last. */
  lemma {:induction false} HeldBackExactly(chat: Message, sent: set<nat>, ds: seq<Diff>, i: nat)
    requires ds != [] && forall k :: 0 <= k < |ds| ==> Addressed(chat, ds[k])
    requires i < |chat.calls| && chat.calls[i].name != [] && !Bare(ds[|ds| - 1], i)
    ensures i in FilterAll(chat, true, sent, ds).sent
    decreases |ds|
  {
    var first := FilterOne(chat, true, sent, ds[0]);
    FlushNames(chat, sent, ds[0], 0);
    hide Flush;
    if |ds| > 1 {
      HeldBackExactly(chat, first.sent, ds[1..], i);
    }
  }

  lemma {:induction false} NothingToFlush(chat: Message, sent: set<nat>, d: Diff, i: nat)
    requires i <= |chat.calls|
    requires forall j :: 0 <= j < |chat.calls| && chat.calls[j].name != [] ==> j in sent || Bare(d, j)
    ensures Flush(chat, sent, d, i) == Out([], sent)
    decreases |chat.calls| - i
  {
    if i < |chat.calls| {
      NothingToFlush(chat, sent, d, i + 1);
    }
  }

  /** When all names before it are sent, a new call without arguments goes out only with the final update. */
  lemma BareCallIsHeldBack(chat: Message, sent: set<nat>, d: Diff, i: nat)
    requires i < |chat.calls| && i !in sent && Bare(d, i) && d.reasoning == [] && d.content == []
    requires forall j :: 0 <= j < |chat.calls| && chat.calls[j].name != [] ==> j in sent || j == i
    ensures Filter(chat, true, sent, [d]) == Out([], sent)
    ensures Filter(chat, false, sent, [d]) == Out([Header(chat, i)], sent + {i})
  {
    NothingToFlush(chat, sent, d, 0);
    NothingLeft(chat, sent + {i}, 0);
    FilterAlone(chat, true, sent, d);
    FilterAlone(chat, false, sent, d);
    hide Flush, FlushAll, FilterAll;
  }

  lemma FilterAlone(chat: Message, partial: bool, sent: set<nat>, d: Diff)
    requires Addressed(chat, d)
    ensures FilterAll(chat, partial, sent, [d]) == FilterOne(chat, partial, sent, d)
  {
    assert [d][1..] == [];
    hide FilterOne;
  }

  lemma {:induction false} NothingLeft(chat: Message, sent: set<nat>, i: nat)
    requires i <= |chat.calls|
    requires forall j :: 0 <= j < |chat.calls| && chat.calls[j].name != [] ==> j in sent
    ensures FlushAll(chat, sent, i) == Out([], sent)
    decreases |chat.calls| - i
  {
    if i < |chat.calls| {
      NothingLeft(chat, sent, i + 1);
    }
  }

  // ----- The receiver ---------------------------------------------------------

  datatype View = View(reasoning: string, content: string, calls: map<nat, ToolCall>)

  const EMPTY_VIEW := View([], [], map[])

  function Receive(v: View, d: Diff): View {
    var v' := v.(reasoning := v.reasoning + d.reasoning, content := v.content + d.content);
    if d.index == None then v'
    else
      var i := d.index.value;
      v'.(calls := v.calls[i := if i in v.calls then Patch(v.calls[i], d.call) else d.call])
  }

  function ReceiveAll(v: View, ds: seq<Diff>): View
    decreases |ds|
  {
    if ds == [] then v else ReceiveAll(Receive(v, ds[0]), ds[1..])
  }

  /** A call is headed once, by the first delta about it, and a named one before any of its arguments. */
  function Announce(known: set<nat>, d: Diff): Option<set<nat>> {
    if d.index == None then Some(known)
    else if d.index.value in known then if d.call.name == [] && d.call.id == [] then Some(known) else None
    else if d.call.name == [] || d.call.arguments == [] then Some(known + {d.index.value})
    else None
  }

  function AnnounceAll(known: set<nat>, ds: seq<Diff>): Option<set<nat>>
    decreases |ds|
  {
    if ds == [] then Some(known)
    else
      var next := Announce(known, ds[0]);
      if next.None? then None else AnnounceAll(next.value, ds[1..])
  }

  lemma {:induction false} ReceiveConcat(v: View, ds: seq<Diff>, es: seq<Diff>)
    ensures ReceiveAll(v, ds + es) == ReceiveAll(ReceiveAll(v, ds), es)
    decreases |ds|
  {
    if ds == [] {
      assert ds + es == es;
    } else {
      assert (ds + es)[0] == ds[0] && (ds + es)[1..] == ds[1..] + es;
      ReceiveConcat(Receive(v, ds[0]), ds[1..], es);
    }
  }

  lemma {:induction false} AnnounceConcat(known: set<nat>, ds: seq<Diff>, es: seq<Diff>)
    requires AnnounceAll(known, ds).Some?
    ensures AnnounceAll(known, ds + es) == AnnounceAll(AnnounceAll(known, ds).value, es)
    decreases |ds|
  {
    if ds == [] {
      assert ds + es == es;
    } else {
      assert (ds + es)[0] == ds[0] && (ds + es)[1..] == ds[1..] + es;
      AnnounceConcat(Announce(known, ds[0]).value, ds[1..], es);
    }
  }

  // ----- What the receiver has ------------------------------------------------

  function ArgumentsOf(m: Message, i: nat): string {
    if i < |m.calls| then m.calls[i].arguments else []
  }

  /**
   The view holds the texts of `m` and, of the calls named so far, the heading they have in `b` and the
   arguments they have in `m`; a call held back has no arguments in `m`.
   */
  predicate Mirrors(v: View, sent: set<nat>, m: Message, b: Message) {
    && v.reasoning == m.reasoning && v.content == m.content
    && v.calls.Keys == sent
    && (forall i :: i in sent ==>
          i < |b.calls| && v.calls[i] == ToolCall(b.calls[i].name, ArgumentsOf(m, i), b.calls[i].id))
    && (forall i :: 0 <= i < |m.calls| && i !in sent ==> m.calls[i].arguments == [])
  }

  /** The deltas take the receiver from one such view to another, and head calls as they should. */
  predicate Leads(v: View, sent: set<nat>, out: Out, m: Message, b: Message) {
    Mirrors(ReceiveAll(v, out.diffs), out.sent, m, b) && AnnounceAll(sent, out.diffs) == Some(out.sent)
  }

  lemma LeadsOn(v: View, sent: set<nat>, one: Out, two: Out, m: Message, m': Message, b: Message)
    requires Leads(v, sent, one, m, b) && Leads(ReceiveAll(v, one.diffs), one.sent, two, m', b)
    ensures Leads(v, sent, Out(one.diffs + two.diffs, two.sent), m', b)
  {
    hide Mirrors;
    ReceiveConcat(v, one.diffs, two.diffs);
    AnnounceConcat(sent, one.diffs, two.diffs);
  }

  lemma NothingLeads(v: View, sent: set<nat>, m: Message, b: Message)
    requires Mirrors(v, sent, m, b)
    ensures Leads(v, sent, Out([], sent), m, b)
  {
  }

  lemma HeaderLeads(v: View, sent: set<nat>, m: Message, b: Message, i: nat)
    requires Mirrors(v, sent, m, b) && i < |b.calls| && i !in sent
    ensures Leads(v, sent, Out([Header(b, i)], sent + {i}), m, b)
  {
    OneLeads(v, sent, Header(b, i));
    assert v.reasoning + [] == v.reasoning && v.content + [] == v.content;
  }

  lemma OneLeads(v: View, sent: set<nat>, d: Diff)
    ensures ReceiveAll(v, [d]) == Receive(v, d)
    ensures AnnounceAll(sent, [d]) == Announce(sent, d)
  {
    assert [d][1..] == [];
  }

  lemma {:induction false} FlushLeads(v: View, sent: set<nat>, m: Message, b: Message, d: Diff, i: nat)
    requires Mirrors(v, sent, m, b) && i <= |b.calls|
    ensures Leads(v, sent, Flush(b, sent, d, i), m, b)
    ensures sent <= Flush(b, sent, d, i).sent
    ensures forall j :: i <= j < |b.calls| && j !in Flush(b, sent, d, i).sent ==>
              b.calls[j].name == [] || (d.index == Some(j) && d.call.arguments == [])
    decreases |b.calls| - i
  {
    hide Mirrors, Leads;
    if i == |b.calls| {
      NothingLeads(v, sent, m, b);
    } else if i in sent || b.calls[i].name == [] || (d.index == Some(i) && d.call.arguments == []) {
      FlushLeads(v, sent, m, b, d, i + 1);
    } else {
      var one := Out([Header(b, i)], sent + {i});
      HeaderLeads(v, sent, m, b, i);
      LeadsToMirror(v, sent, one, m, b);
      FlushLeads(ReceiveAll(v, one.diffs), sent + {i}, m, b, d, i + 1);
      LeadsOn(v, sent, one, Flush(b, sent + {i}, d, i + 1), m, m, b);
    }
  }

  lemma LeadsToMirror(v: View, sent: set<nat>, out: Out, m: Message, b: Message)
    requires Leads(v, sent, out, m, b)
    ensures Mirrors(ReceiveAll(v, out.diffs), out.sent, m, b)
  {
  }

  lemma {:induction false} FlushAllLeads(v: View, sent: set<nat>, m: Message, b: Message, i: nat)
    requires Mirrors(v, sent, m, b) && i <= |b.calls|
    ensures Leads(v, sent, FlushAll(b, sent, i), m, b)
    ensures sent <= FlushAll(b, sent, i).sent
    ensures forall j :: i <= j < |b.calls| && j !in FlushAll(b, sent, i).sent ==> b.calls[j].name == []
    decreases |b.calls| - i
  {
    hide Mirrors, Leads;
    if i == |b.calls| {
      NothingLeads(v, sent, m, b);
    } else if i in sent || b.calls[i].name == [] {
      FlushAllLeads(v, sent, m, b, i + 1);
    } else {
      var one := Out([Header(b, i)], sent + {i});
      HeaderLeads(v, sent, m, b, i);
      LeadsToMirror(v, sent, one, m, b);
      FlushAllLeads(ReceiveAll(v, one.diffs), sent + {i}, m, b, i + 1);
      LeadsOn(v, sent, one, FlushAll(b, sent + {i}, i + 1), m, m, b);
    }
  }

  /** A delta is about the texts, or about a known call or the next one and carries no text. */
  predicate InTurn(m: Message, b: Message, d: Diff) {
    d.index.Some? ==> d.index.value <= |m.calls| && d.index.value < |b.calls| && d.reasoning == [] && d.content == []
  }

  lemma TextLeads(v: View, sent: set<nat>, m: Message, b: Message, d: Diff)
    requires Mirrors(v, sent, m, b) && d.index == None
    ensures Leads(v, sent, Out([d], sent), Apply(m, d), b)
  {
    OneLeads(v, sent, d);
  }

  lemma PassLeads(v: View, partial: bool, sent: set<nat>, m: Message, b: Message, d: Diff)
    requires Mirrors(v, sent, m, b) && InTurn(m, b, d)
    requires d.index.Some? && d.index.value !in sent && d.call.arguments != [] ==> b.calls[d.index.value].name == []
    ensures Leads(v, sent, Pass(b, partial, sent, d), Apply(m, d), b)
  {
    if d.index == None {
      TextLeads(v, sent, m, b, d);
    } else {
      ApplyToCall(m, d);
      var i, args := d.index.value, d.call.arguments;
      if i in sent {
        if args == [] {
          QuietDelta(v, sent, m, b, d);
          NothingLeads(v, sent, Apply(m, d), b);
        } else {
          ArgumentsLead(v, sent, m, b, d);
        }
      } else if args != [] || !partial {
        FirstLeads(v, sent, m, b, d);
      } else {
        QuietDelta(v, sent, m, b, d);
        NothingLeads(v, sent, Apply(m, d), b);
      }
    }
  }

  lemma ApplyToCall(m: Message, d: Diff)
    requires d.index.Some? && d.index.value <= |m.calls| && d.reasoning == [] && d.content == []
    ensures
      var m', i := Apply(m, d), d.index.value;
      && m'.reasoning == m.reasoning && m'.content == m.content
      && |m'.calls| == (if i == |m.calls| then |m.calls| + 1 else |m.calls|)
      && (forall j: nat :: ArgumentsOf(m', j) == if j == i then ArgumentsOf(m, i) + d.call.arguments else ArgumentsOf(m, j))
  {
    assert m.reasoning + [] == m.reasoning && m.content + [] == m.content;
    assert [] + d.call.arguments == d.call.arguments;
  }

  lemma QuietDelta(v: View, sent: set<nat>, m: Message, b: Message, d: Diff)
    requires Mirrors(v, sent, m, b) && InTurn(m, b, d) && d.index.Some? && d.call.arguments == []
    ensures Mirrors(v, sent, Apply(m, d), b)
  {
    ApplyToCall(m, d);
    var m' := Apply(m, d);
    assert forall j: nat :: ArgumentsOf(m', j) == ArgumentsOf(m, j);
    hide Apply;
    forall j | 0 <= j < |m'.calls| && j !in sent ensures m'.calls[j].arguments == [] {
      assert m'.calls[j].arguments == ArgumentsOf(m', j) == ArgumentsOf(m, j);
    }
  }

  lemma ArgumentsLead(v: View, sent: set<nat>, m: Message, b: Message, d: Diff)
    requires Mirrors(v, sent, m, b) && InTurn(m, b, d) && d.index.Some? && d.index.value in sent
    ensures Leads(v, sent, Out([d.(call := ToolCall([], d.call.arguments, []))], sent), Apply(m, d), b)
  {
    var e := d.(call := ToolCall([], d.call.arguments, []));
    OneLeads(v, sent, e);
    ApplyToCall(m, d);
    var m' := Apply(m, d);
    hide Apply;
    assert v.reasoning + [] == v.reasoning && v.content + [] == v.content;
    forall j | 0 <= j < |m'.calls| && j !in sent ensures m'.calls[j].arguments == [] {
      assert m'.calls[j].arguments == ArgumentsOf(m', j) == ArgumentsOf(m, j);
    }
  }

  lemma FirstLeads(v: View, sent: set<nat>, m: Message, b: Message, d: Diff)
    requires Mirrors(v, sent, m, b) && InTurn(m, b, d) && d.index.Some? && d.index.value !in sent
    requires d.call.arguments != [] ==> b.calls[d.index.value].name == []
    ensures
      var i := d.index.value;
      Leads(v, sent, Out([d.(call := ToolCall(b.calls[i].name, d.call.arguments, b.calls[i].id))], sent + {i}), Apply(m, d), b)
  {
    var i := d.index.value;
    var e := d.(call := ToolCall(b.calls[i].name, d.call.arguments, b.calls[i].id));
    OneLeads(v, sent, e);
    ApplyToCall(m, d);
    var m' := Apply(m, d);
    hide Apply;
    assert v.reasoning + [] == v.reasoning && v.content + [] == v.content;
    assert ArgumentsOf(m, i) == [] && [] + d.call.arguments == d.call.arguments;
    forall j | 0 <= j < |m'.calls| && j !in sent + {i} ensures m'.calls[j].arguments == [] {
      assert m'.calls[j].arguments == ArgumentsOf(m', j) == ArgumentsOf(m, j);
    }
  }

  lemma FilterOneLeads(v: View, partial: bool, sent: set<nat>, m: Message, b: Message, d: Diff)
    requires Mirrors(v, sent, m, b) && InTurn(m, b, d)
    ensures Addressed(b, d) && Leads(v, sent, FilterOne(b, partial, sent, d), Apply(m, d), b)
  {
    hide Mirrors, Leads, Flush, Pass, Apply;
    var first := Flush(b, sent, d, 0);
    FlushLeads(v, sent, m, b, d, 0);
    LeadsToMirror(v, sent, first, m, b);
    PassLeads(ReceiveAll(v, first.diffs), partial, first.sent, m, b, d);
    LeadsOn(v, sent, first, Pass(b, partial, first.sent, d), m, Apply(m, d), b);
  }

  /** Every delta in turn, each after those before it. */
  predicate AllInTurn(m: Message, b: Message, ds: seq<Diff>)
    decreases |ds|
  {
    ds == [] || (InTurn(m, b, ds[0]) && AllInTurn(Apply(m, ds[0]), b, ds[1..]))
  }

  lemma {:induction false} InTurnIsAddressed(m: Message, b: Message, ds: seq<Diff>, k: nat)
    requires AllInTurn(m, b, ds) && k < |ds|
    ensures Addressed(b, ds[k])
    decreases |ds|
  {
    if k > 0 {
      InTurnIsAddressed(Apply(m, ds[0]), b, ds[1..], k - 1);
    }
  }

  lemma AllAddressed(m: Message, b: Message, ds: seq<Diff>)
    requires AllInTurn(m, b, ds)
    ensures forall k :: 0 <= k < |ds| ==> Addressed(b, ds[k])
  {
    forall k | 0 <= k < |ds| ensures Addressed(b, ds[k]) {
      InTurnIsAddressed(m, b, ds, k);
    }
  }

  lemma {:induction false} FilterAllLeads(v: View, partial: bool, sent: set<nat>, m: Message, b: Message, ds: seq<Diff>)
    requires Mirrors(v, sent, m, b) && AllInTurn(m, b, ds)
    ensures (AllAddressed(m, b, ds); Leads(v, sent, FilterAll(b, partial, sent, ds), ApplyAll(m, ds), b))
    decreases |ds|
  {
    hide Mirrors, Leads, FilterOne, Apply, InTurn, Addressed;
    AllAddressed(m, b, ds);
    if ds == [] {
      NothingLeads(v, sent, m, b);
    } else {
      var d, rest := ds[0], ds[1..];
      var first := FilterOne(b, partial, sent, d);
      FilterOneLeads(v, partial, sent, m, b, d);
      LeadsToMirror(v, sent, first, Apply(m, d), b);
      var v' := ReceiveAll(v, first.diffs);
      AllAddressed(Apply(m, d), b, rest);
      FilterAllLeads(v', partial, first.sent, Apply(m, d), b, rest);
      LeadsOn(v, sent, first, FilterAll(b, partial, first.sent, rest), Apply(m, d), ApplyAll(m, ds), b);
    }
  }

  lemma FilterLeads(v: View, partial: bool, sent: set<nat>, m: Message, b: Message, ds: seq<Diff>)
    requires Mirrors(v, sent, m, b) && AllInTurn(m, b, ds)
    ensures (AllAddressed(m, b, ds); Leads(v, sent, Filter(b, partial, sent, ds), ApplyAll(m, ds), b))
    ensures !partial ==>
              (AllAddressed(m, b, ds);
               forall j :: 0 <= j < |b.calls| && j !in Filter(b, partial, sent, ds).sent ==> b.calls[j].name == [])
  {
    hide Mirrors, Leads, FilterAll, FlushAll, ApplyAll;
    AllAddressed(m, b, ds);
    FilterAllLeads(v, partial, sent, m, b, ds);
    if !partial {
      var all := FilterAll(b, partial, sent, ds);
      LeadsToMirror(v, sent, all, ApplyAll(m, ds), b);
      FlushAllLeads(ReceiveAll(v, all.diffs), all.sent, ApplyAll(m, ds), b, 0);
      LeadsOn(v, sent, all, FlushAll(b, all.sent, 0), ApplyAll(m, ds), ApplyAll(m, ds), b);
    }
  }

  // ----- The deltas of two messages are in turn -------------------------------

  lemma {:induction false} TurnsConcat(m: Message, b: Message, ds: seq<Diff>, es: seq<Diff>)
    requires AllInTurn(m, b, ds) && AllInTurn(ApplyAll(m, ds), b, es)
    ensures AllInTurn(m, b, ds + es)
    decreases |ds|
  {
    hide InTurn, Apply;
    if ds == [] {
      assert ds + es == es;
    } else {
      assert (ds + es)[0] == ds[0] && (ds + es)[1..] == ds[1..] + es;
      TurnsConcat(Apply(m, ds[0]), b, ds[1..], es);
    }
  }

  lemma {:induction false} TextTurns(m: Message, b: Message, ds: seq<Diff>)
    requires forall k :: 0 <= k < |ds| ==> ds[k].index == None
    ensures AllInTurn(m, b, ds)
    decreases |ds|
  {
    if ds != [] {
      TextTurns(Apply(m, ds[0]), b, ds[1..]);
    }
  }

  lemma {:induction false} NewCallTurns(m: Message, b: Message, index: nat)
    requires index == |m.calls| <= |b.calls|
    ensures AllInTurn(m, b, NewCallDiffs(b, index))
    decreases |b.calls| - index
  {
    if index < |b.calls| {
      var d := Diff([], [], Some(index), b.calls[index]);
      assert NewCallDiffs(b, index)[1..] == NewCallDiffs(b, index + 1);
      NewCallTurns(Apply(m, d), b, index + 1);
    }
  }

  lemma DiffsAreInTurn(a: Message, b: Message)
    requires Diffs(a, b).Ok?
    ensures AllInTurn(a, b, Diffs(a, b).value)
  {
    var texts, last, added := TextDiffs(a, b).value, LastCallDiffs(a, b).value, NewCallDiffs(b, |a.calls|);
    assert forall k :: 0 <= k < |texts| ==> texts[k].index == None;
    TextTurns(a, b, texts);
    ApplyTextDiffs(a, b);
    var m := ApplyAll(a, texts);
    LastCallTurn(m, a, b);
    ApplyLastCallDiffs(m, a, b);
    var m' := ApplyAll(m, last);
    NewCallTurns(m', b, |a.calls|);
    hide TextDiffs, LastCallDiffs, NewCallDiffs, AllInTurn, ApplyAll;
    TurnsConcat(a, b, texts, last);
    ApplyConcat(a, texts, last);
    TurnsConcat(a, b, texts + last, added);
  }

  lemma LastCallTurn(m: Message, a: Message, b: Message)
    requires |a.calls| <= |b.calls| && m.calls == a.calls && LastCallDiffs(a, b).Ok?
    ensures AllInTurn(m, b, LastCallDiffs(a, b).value)
  {
    var ds := LastCallDiffs(a, b).value;
    assert ds == [] || (|ds| == 1 && ds[1..] == [] && InTurn(m, b, ds[0]));
  }

  // ----- The session ----------------------------------------------------------

  datatype Filtered = Filtered(session: Session, sent: set<nat>)

  const NEW_FILTERED := Filtered(NEW_SESSION, {})

  function UpdateFiltered(f: Filtered, parsed: Message, partial: bool, generate: nat -> string): (Filtered, Result<seq<Diff>, Error>) {
    if parsed == EMPTY_MESSAGE then (f, Ok([]))
    else
      var u := Update(f.session, parsed, generate);
      if u.1.Err? then (Filtered(u.0, f.sent), u.1)
      else
        DiffsAreInTurn(f.session.chat, u.0.chat);
        AllAddressed(f.session.chat, u.0.chat, u.1.value);
        var out := Filter(u.0.chat, partial, f.sent, u.1.value);
        (Filtered(u.0, out.sent), Ok(out.diffs))
  }

  /** The filter is for what is sent only: the session is the same without it, and an empty parse sends nothing. */
  lemma FilterLeavesTheSession(f: Filtered, parsed: Message, partial: bool, generate: nat -> string)
    ensures UpdateFiltered(f, EMPTY_MESSAGE, partial, generate) == (f, Ok([]))
    ensures UpdateFiltered(f, parsed, partial, generate).0.session == Update(f.session, parsed, generate).0
    ensures UpdateFiltered(f, parsed, partial, generate).1.Ok? <==> Update(f.session, parsed, generate).1.Ok?
  {
    hide Diffs, Filter;
  }

  /** All updates but the last are partial. */
  function RunFiltered(f: Filtered, ps: seq<Message>, generate: nat -> string): (Filtered, Result<seq<Diff>, Error>)
    decreases |ps|
  {
    if ps == [] then (f, Ok([]))
    else
      var first := UpdateFiltered(f, ps[0], |ps| > 1, generate);
      if first.1.Err? then first
      else
        var rest := RunFiltered(first.0, ps[1..], generate);
        if rest.1.Err? then rest else (rest.0, Ok(first.1.value + rest.1.value))
  }

  /** The receiver has every call that has a name or arguments, and what it has is right. */
  predicate Rebuilt(v: View, b: Message) {
    && v.reasoning == b.reasoning && v.content == b.content
    && (forall i :: i in v.calls ==> i < |b.calls| && v.calls[i] == b.calls[i])
    && (forall i :: 0 <= i < |b.calls| && (b.calls[i].name != [] || b.calls[i].arguments != []) ==> i in v.calls)
  }

  /** A view of the old message is one of its calls under their headings in the new one. */
  lemma MirrorOfNext(v: View, f: Filtered, p: Message, q: Message, generate: nat -> string)
    requires Shows(f.session, p) && Continues(p, q) && Mirrors(v, f.sent, f.session.chat, f.session.chat)
    ensures Mirrors(v, f.sent, f.session.chat, Update(f.session, q, generate).0.chat)
  {
    hide Diffs, Update;
    UpdateFollows(f.session, p, q, generate);
    var a, b := f.session.chat, Update(f.session, q, generate).0.chat;
    forall i | i in f.sent
      ensures i < |b.calls| && b.calls[i].name == a.calls[i].name && b.calls[i].id == a.calls[i].id
    {
      assert p.calls[i].name == q.calls[i].name;
    }
  }

  /** What holds between two updates. */
  predicate Good(v: View, f: Filtered, p: Message) {
    Shows(f.session, p) && Mirrors(v, f.sent, f.session.chat, f.session.chat)
  }

  lemma UpdateLeads(v: View, f: Filtered, p: Message, q: Message, partial: bool, generate: nat -> string)
    requires Good(v, f, p) && Continues(p, q)
    ensures
      var u := UpdateFiltered(f, q, partial, generate);
      && u.1.Ok?
      && Good(ReceiveAll(v, u.1.value), u.0, q)
      && AnnounceAll(f.sent, u.1.value) == Some(u.0.sent)
      && (!partial ==> Rebuilt(ReceiveAll(v, u.1.value), u.0.session.chat))
  {
    if q == EMPTY_MESSAGE {
      EmptyEndsEmpty(v, f, p, q);
    } else {
      var s := f.session;
      UpdateFollows(s, p, q, generate);
      MirrorOfNext(v, f, p, q, generate);
      var u := Update(s, q, generate);
      var ds := u.1.value;
      DiffsAreInTurn(s.chat, u.0.chat);
      hide Mirrors, Filter, Diffs, Shows, Continues, AllInTurn, Update, ApplyAll;
      AllAddressed(s.chat, u.0.chat, ds);
      FilterLeads(v, partial, f.sent, s.chat, u.0.chat, ds);
      var out := Filter(u.0.chat, partial, f.sent, ds);
      LeadsToMirror(v, f.sent, out, u.0.chat, u.0.chat);
      if !partial {
        AllSentIsRebuilt(ReceiveAll(v, out.diffs), out.sent, u.0.chat);
      }
    }
  }

  lemma EmptyEndsEmpty(v: View, f: Filtered, p: Message, q: Message)
    requires Good(v, f, p) && Continues(p, q) && q == EMPTY_MESSAGE
    ensures p == q && Rebuilt(v, f.session.chat)
  {
  }

  lemma AllSentIsRebuilt(v: View, sent: set<nat>, b: Message)
    requires Mirrors(v, sent, b, b)
    requires forall j :: 0 <= j < |b.calls| && j !in sent ==> b.calls[j].name == []
    ensures Rebuilt(v, b)
  {
  }

  lemma {:induction false} RunLeads(v: View, f: Filtered, p: Message, ps: seq<Message>, generate: nat -> string)
    requires Good(v, f, p) && Chain(p, ps) && ps != []
    ensures
      var u := RunFiltered(f, ps, generate);
      && u.1.Ok?
      && Good(ReceiveAll(v, u.1.value), u.0, ps[|ps| - 1])
      && AnnounceAll(f.sent, u.1.value) == Some(u.0.sent)
      && Rebuilt(ReceiveAll(v, u.1.value), u.0.session.chat)
    decreases |ps|
  {
    hide UpdateFiltered, Good, Continues, Rebuilt;
    UpdateLeads(v, f, p, ps[0], |ps| > 1, generate);
    var first := UpdateFiltered(f, ps[0], |ps| > 1, generate);
    if |ps| > 1 {
      var v' := ReceiveAll(v, first.1.value);
      RunLeads(v', first.0, ps[0], ps[1..], generate);
      var rest := RunFiltered(first.0, ps[1..], generate);
      ReceiveConcat(v, first.1.value, rest.1.value);
      AnnounceConcat(f.sent, first.1.value, rest.1.value);
    } else {
      RunNoMore(first.0, ps[1..], generate);
      assert first.1.value + [] == first.1.value;
    }
  }

  lemma RunNoMore(f: Filtered, ps: seq<Message>, generate: nat -> string)
    requires ps == []
    ensures RunFiltered(f, ps, generate) == (f, Ok([]))
  {
  }

  lemma StartIsMirrored()
    ensures Mirrors(EMPTY_VIEW, {}, EMPTY_MESSAGE, EMPTY_MESSAGE)
  {
  }

  // ----- The loops ------------------------------------------------------------

  method FlushPending(chat: Message, sent: set<nat>, d: Diff, diffs: seq<Diff>) returns (diffs': seq<Diff>, sent': set<nat>)
    ensures diffs' == diffs + Flush(chat, sent, d, 0).diffs && sent' == Flush(chat, sent, d, 0).sent
  {
    diffs', sent' := diffs, sent;
    for i := 0 to |chat.calls|
      invariant diffs' + Flush(chat, sent', d, i).diffs == diffs + Flush(chat, sent, d, 0).diffs
      invariant Flush(chat, sent', d, i).sent == Flush(chat, sent, d, 0).sent
    {
      if i in sent' || chat.calls[i].name == [] {
        continue;
      }
      if d.index != Some(i) || d.call.arguments != [] {
        ghost var rest := Flush(chat, sent' + {i}, d, i + 1).diffs;
        assert diffs' + ([Header(chat, i)] + rest) == (diffs' + [Header(chat, i)]) + rest;
        diffs' := diffs' + [Header(chat, i)];
        sent' := sent' + {i};
      }
    }
  }

  method PassOn(chat: Message, partial: bool, sent: set<nat>, d: Diff, diffs: seq<Diff>)
      returns (diffs': seq<Diff>, sent': set<nat>)
    requires Addressed(chat, d)
    ensures diffs' == diffs + Pass(chat, partial, sent, d).diffs && sent' == Pass(chat, partial, sent, d).sent
  {
    diffs', sent' := diffs, sent;
    if d.index == None {
      diffs' := diffs' + [d];
    } else {
      var i := d.index.value;
      if i in sent {
        if d.call.arguments != [] {
          diffs' := diffs' + [d.(call := d.call.(name := [], id := []))];
        }
      } else if d.call.arguments != [] || !partial {
        diffs' := diffs' + [d.(call := d.call.(name := chat.calls[i].name, id := chat.calls[i].id))];
        sent' := sent' + {i};
      }
    }
  }

  method FlushAtEnd(chat: Message, sent: set<nat>, diffs: seq<Diff>) returns (diffs': seq<Diff>, sent': set<nat>)
    ensures diffs' == diffs + FlushAll(chat, sent, 0).diffs && sent' == FlushAll(chat, sent, 0).sent
  {
    diffs', sent' := diffs, sent;
    for i := 0 to |chat.calls|
      invariant diffs' + FlushAll(chat, sent', i).diffs == diffs + FlushAll(chat, sent, 0).diffs
      invariant FlushAll(chat, sent', i).sent == FlushAll(chat, sent, 0).sent
    {
      if i !in sent' && chat.calls[i].name != [] {
        ghost var rest := FlushAll(chat, sent' + {i}, i + 1).diffs;
        assert diffs' + ([Header(chat, i)] + rest) == (diffs' + [Header(chat, i)]) + rest;
        diffs' := diffs' + [Header(chat, i)];
        sent' := sent' + {i};
      }
    }
  }

  method FilterDiffs(chat: Message, partial: bool, sent: set<nat>, ds: seq<Diff>, diffs: seq<Diff>)
      returns (diffs': seq<Diff>, sent': set<nat>)
    requires forall k :: 0 <= k < |ds| ==> Addressed(chat, ds[k])
    ensures diffs' == diffs + Filter(chat, partial, sent, ds).diffs && sent' == Filter(chat, partial, sent, ds).sent
  {
    hide Flush, Pass, FlushAll, Addressed;
    diffs', sent' := diffs, sent;
    ghost var all := FilterAll(chat, partial, sent, ds);
    for k := 0 to |ds|
      invariant FilterAll(chat, partial, sent', ds[k..]).sent == all.sent
      invariant diffs' + FilterAll(chat, partial, sent', ds[k..]).diffs == diffs + all.diffs
    {
      ghost var rest := ds[k..];
      assert rest[0] == ds[k] && rest[1..] == ds[k + 1..];
      ghost var was, first := diffs', FilterOne(chat, partial, sent', ds[k]);
      ghost var tail := FilterAll(chat, partial, first.sent, ds[k + 1..]).diffs;
      ghost var flushed := Flush(chat, sent', ds[k], 0);
      diffs', sent' := FlushPending(chat, sent', ds[k], diffs');
      ghost var passed := Pass(chat, partial, sent', ds[k]);
      diffs', sent' := PassOn(chat, partial, sent', ds[k], diffs');
      assert was + ((flushed.diffs + passed.diffs) + tail) == ((was + flushed.diffs) + passed.diffs) + tail;
    }
    assert ds[|ds|..] == [] && diffs' + [] == diffs';
    if !partial {
      ghost var was := diffs';
      diffs', sent' := FlushAtEnd(chat, sent', diffs');
      assert (diffs + all.diffs) + FlushAll(chat, all.sent, 0).diffs == diffs + (all.diffs + FlushAll(chat, all.sent, 0).diffs);
    }
  }

  /** The state of a task's results. */
  class ResultState {
    var generatedText: string
    var chat: Message
    var ids: seq<string>
    var sentNames: set<nat>

    constructor ()
      ensures Value() == NEW_FILTERED && generatedText == []
    {
      generatedText, chat, ids, sentNames := [], EMPTY_MESSAGE, [], {};
    }

    function Value(): Filtered
      reads this
    {
      Filtered(Session(chat, ids), sentNames)
    }

    /**
     All text so far is parsed again, and the deltas lead from the old chat message to the new one;
     `diffs` is replaced without the filter and added to with it.
     */
    method UpdateChatMsg(textAdded: string, partial: bool, filter: bool, parse: (string, bool) -> Message,
                         generate: nat -> string, diffs: seq<Diff>) returns (r: Result<seq<Diff>, Error>)
      modifies this
      ensures generatedText == old(generatedText) + textAdded
      ensures !filter ==>
                var parsed := parse(generatedText, partial);
                var u := Update(old(Session(chat, ids)), parsed, generate);
                Session(chat, ids) == u.0 && sentNames == old(sentNames)
                && r == if parsed == EMPTY_MESSAGE then Ok(diffs) else u.1
      ensures filter ==>
                var u := UpdateFiltered(old(Value()), parse(generatedText, partial), partial, generate);
                Value() == u.0 && r == (if u.1.Ok? then Ok(diffs + u.1.value) else u.1)
    {
      hide Diffs, Filter;
      r := Ok(diffs);
      assert diffs + [] == diffs;
      generatedText := generatedText + textAdded;
      var previous := chat;
      var parsed := parse(generatedText, partial);
      if parsed != EMPTY_MESSAGE {
        var calls, ids' := SetToolCallIds(parsed.calls, ids, generate);
        ids := ids';
        chat := parsed.(calls := calls);
        var all := ComputeDiffs(previous, chat);
        if all.Err? || !filter {
          return all;
        }
        DiffsAreInTurn(previous, chat);
        AllAddressed(previous, chat, all.value);
        var filtered, sent := FilterDiffs(chat, partial, sentNames, all.value, diffs);
        sentNames := sent;
        r := Ok(filtered);
      }
    }
  }
}
