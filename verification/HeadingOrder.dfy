/** In which order a session that holds names back sends them, and the run theorem for its receiver. */
module HeadingOrder {
  import opened Wrappers
  import opened MessageDiff
  import opened ToolCallMapper
  import opened Streaming
  import opened FilteredSession
  import MessageContents
  import opened TidyStreams
  import opened Announcements

  // ----- A receiver that expects the next call --------------------------------

  /** A call is headed once, in turn, and a named one before any of its arguments. */
  function Expect(k: nat, d: Diff): Option<nat> {
    if d.index == None then Some(k)
    else if d.index.value < k then if d.call.name == [] && d.call.id == [] then Some(k) else None
    else if d.index.value == k && (d.call.name == [] || d.call.arguments == []) then Some(k + 1)
    else None
  }

  function ExpectAll(k: nat, ds: seq<Diff>): Option<nat>
    decreases |ds|
  {
    if ds == [] then Some(k)
    else
      var next := Expect(k, ds[0]);
      if next.None? then None else ExpectAll(next.value, ds[1..])
  }

  lemma {:induction false} ExpectConcat(k: nat, ds: seq<Diff>, es: seq<Diff>)
    ensures ExpectAll(k, ds + es) ==
            if ExpectAll(k, ds).None? then None else ExpectAll(ExpectAll(k, ds).value, es)
    decreases |ds|
  {
    if ds == [] {
      assert ds + es == es;
    } else {
      assert (ds + es)[0] == ds[0] && (ds + es)[1..] == ds[1..] + es;
      if Expect(k, ds[0]).Some? {
        ExpectConcat(Expect(k, ds[0]).value, ds[1..], es);
      }
    }
  }

  lemma ExpectOne(k: nat, d: Diff)
    ensures ExpectAll(k, [d]) == Expect(k, d)
  {
    assert [d][1..] == [];
  }

  // ----- Filtering in order ---------------------------------------------------

  /** The calls before the `k`th. */
  function Upto(k: nat): (s: set<nat>)
    ensures forall i: nat :: i in s <==> i < k
  {
    if k == 0 then {} else Upto(k - 1) + {k - 1}
  }

  lemma UptoNext(k: nat)
    ensures Upto(k) + {k} == Upto(k + 1)
  {
  }

  predicate AllNamed(calls: seq<ToolCall>) { forall i :: 0 <= i < |calls| ==> calls[i].name != [] }

  /** The deltas are sent in turn, and `k'` calls are headed by then. */
  predicate InOrder(k: nat, out: Out, k': nat) {
    ExpectAll(k, out.diffs) == Some(k') && out.sent == Upto(k')
  }

  /** `d` is about to head call `i` itself. */
  predicate Exempt(d: Diff, i: nat) {
    d.index == Some(i) && d.call.arguments == []
  }

  lemma {:induction false} FlushSkipsKnown(b: Message, k: nat, d: Diff, i: nat)
    requires i <= k <= |b.calls|
    ensures Flush(b, Upto(k), d, i) == Flush(b, Upto(k), d, k)
    decreases k - i
  {
    if i < k {
      assert i in Upto(k);
      FlushSkipsKnown(b, k, d, i + 1);
    }
  }

  /** Names held back leave in turn, up to the call `d` is about to head; if more follow it, they overtake it. */
  lemma {:induction false} FlushOrder(b: Message, k: nat, d: Diff)
    requires AllNamed(b.calls) && k <= |b.calls|
    ensures
      var out, n := Flush(b, Upto(k), d, k), |b.calls|;
      if d.index.Some? && Exempt(d, d.index.value) && k <= d.index.value < n then
        if d.index.value == n - 1 then InOrder(k, out, n - 1) else ExpectAll(k, out.diffs) == None
      else InOrder(k, out, n)
    decreases |b.calls| - k
  {
    var n := |b.calls|;
    if k < n {
      if Exempt(d, k) {
        assert k !in Upto(k);
        assert Flush(b, Upto(k), d, k) == Flush(b, Upto(k), d, k + 1);
        if k + 1 < n {
          NextOvertakes(b, k, d);
        }
      } else {
        UptoNext(k);
        FlushOrder(b, k + 1, d);
        var rest := Flush(b, Upto(k + 1), d, k + 1);
        var out := Flush(b, Upto(k), d, k);
        assert out == Out([Header(b, k)] + rest.diffs, rest.sent);
        ExpectOne(k, Header(b, k));
        ExpectConcat(k, [Header(b, k)], rest.diffs);
      }
    }
  }

  lemma NextOvertakes(b: Message, k: nat, d: Diff)
    requires AllNamed(b.calls) && k + 1 < |b.calls| && Exempt(d, k)
    ensures ExpectAll(k, Flush(b, Upto(k), d, k + 1).diffs) == None
  {
    assert k + 1 !in Upto(k);
    var out := Flush(b, Upto(k), d, k + 1);
    assert out.diffs[0] == Header(b, k + 1);
  }

  /** The first delta is about to head a call that others follow. */
  predicate Overtaken(b: Message, k: nat, ds: seq<Diff>) {
    ds != [] && ds[0].index.Some? && ds[0].call.arguments == [] && k <= ds[0].index.value < |b.calls| - 1
  }

  lemma PassOrder(b: Message, partial: bool, k: nat, d: Diff) returns (k': nat)
    requires Addressed(b, d) && k <= |b.calls|
    requires d.index.Some? && k <= d.index.value ==> d.index.value == k && d.call.arguments == []
    ensures InOrder(k, Pass(b, partial, Upto(k), d), k') && k <= k' <= |b.calls|
  {
    k' := k;
    if d.index.Some? && d.index.value == k && !partial {
      UptoNext(k);
      k' := k + 1;
    }
    if d.index.Some? {
      assert d.index.value in Upto(k) <==> d.index.value < k;
    }
    var out := Pass(b, partial, Upto(k), d);
    if out.diffs != [] {
      assert out.diffs == [out.diffs[0]];
      ExpectOne(k, out.diffs[0]);
    }
  }

  lemma OneOrder(b: Message, partial: bool, k: nat, d: Diff) returns (k': nat)
    requires AllNamed(b.calls) && k <= |b.calls| && Addressed(b, d) && !Overtaken(b, k, [d])
    ensures InOrder(k, FilterOne(b, partial, Upto(k), d), k') && |b.calls| - 1 <= k' <= |b.calls| && k <= k'
  {
    var n := |b.calls|;
    FlushSkipsKnown(b, k, d, 0);
    FlushOrder(b, k, d);
    var exempt := d.index.Some? && Exempt(d, d.index.value) && k <= d.index.value;
    var k1 := if exempt then n - 1 else n;
    var first := Flush(b, Upto(k), d, 0);
    hide Flush;
    assert InOrder(k, first, k1);
    k' := PassOrder(b, partial, k1, d);
    ExpectConcat(k, first.diffs, Pass(b, partial, Upto(k1), d).diffs);
  }

  /** Deltas are sent in turn unless the first of them is overtaken. */
  lemma {:induction false} AllOrder(b: Message, partial: bool, k: nat, ds: seq<Diff>) returns (k': nat)
    requires AllNamed(b.calls) && k <= |b.calls| && !Overtaken(b, k, ds)
    requires forall i :: 0 <= i < |ds| ==> Addressed(b, ds[i])
    ensures InOrder(k, FilterAll(b, partial, Upto(k), ds), k') && k <= k' <= |b.calls|
    decreases |ds|
  {
    hide FilterOne, Addressed;
    if ds == [] {
      k' := k;
    } else {
      var d, rest := ds[0], ds[1..];
      var k1 := OneOrder(b, partial, k, d);
      k' := AllOrder(b, partial, k1, rest);
      var first := FilterOne(b, partial, Upto(k), d);
      ExpectConcat(k, first.diffs, FilterAll(b, partial, Upto(k1), rest).diffs);
    }
  }

  lemma {:induction false} EndSkipsKnown(b: Message, k: nat, i: nat)
    requires i <= k <= |b.calls|
    ensures FlushAll(b, Upto(k), i) == FlushAll(b, Upto(k), k)
    decreases k - i
  {
    if i < k {
      assert i in Upto(k);
      EndSkipsKnown(b, k, i + 1);
    }
  }

  lemma {:induction false} EndOrder(b: Message, k: nat)
    requires AllNamed(b.calls) && k <= |b.calls|
    ensures InOrder(k, FlushAll(b, Upto(k), k), |b.calls|)
    decreases |b.calls| - k
  {
    if k < |b.calls| {
      assert k !in Upto(k);
      UptoNext(k);
      EndOrder(b, k + 1);
      var rest := FlushAll(b, Upto(k + 1), k + 1);
      ExpectOne(k, Header(b, k));
      ExpectConcat(k, [Header(b, k)], rest.diffs);
    }
  }

  lemma FilterOrder(b: Message, partial: bool, k: nat, ds: seq<Diff>) returns (k': nat)
    requires AllNamed(b.calls) && k <= |b.calls| && !Overtaken(b, k, ds)
    requires forall i :: 0 <= i < |ds| ==> Addressed(b, ds[i])
    ensures InOrder(k, Filter(b, partial, Upto(k), ds), k') && k <= k' <= |b.calls|
    ensures !partial ==> k' == |b.calls|
  {
    hide FilterAll, FlushAll, Addressed;
    k' := AllOrder(b, partial, k, ds);
    if !partial {
      EndSkipsKnown(b, k', 0);
      EndOrder(b, k');
      ExpectConcat(k, FilterAll(b, partial, Upto(k), ds).diffs, FlushAll(b, Upto(k'), 0).diffs);
      k' := |b.calls|;
    }
  }

  lemma OvertakenIsLost(b: Message, partial: bool, k: nat, ds: seq<Diff>)
    requires AllNamed(b.calls) && k <= |b.calls| && Overtaken(b, k, ds)
    requires forall i :: 0 <= i < |ds| ==> Addressed(b, ds[i])
    ensures ExpectAll(k, Filter(b, partial, Upto(k), ds).diffs) == None
  {
    var d := ds[0];
    FlushSkipsKnown(b, k, d, 0);
    FlushOrder(b, k, d);
    var first := Flush(b, Upto(k), d, 0);
    var all := FilterAll(b, partial, Upto(k), ds);
    hide Flush, Pass;
    var one := FilterOne(b, partial, Upto(k), d);
    ExpectConcat(k, first.diffs, Pass(b, partial, first.sent, d).diffs);
    ExpectConcat(k, one.diffs, FilterAll(b, partial, one.sent, ds[1..]).diffs);
    ExpectConcat(k, all.diffs, FlushAll(b, all.sent, 0).diffs);
  }

  // ----- Messages -------------------------------------------------------------

  /** Nothing precedes the delta of a new call without arguments, and another new call follows it. */
  predicate Overtakes(a: Message, b: Message) {
    && a.reasoning == b.reasoning && a.content == b.content
    && |a.calls| + 1 < |b.calls| && a.calls == b.calls[..|a.calls|]
    && b.calls[|a.calls|].arguments == []
  }

  lemma OvertakenExactly(a: Message, b: Message, k: nat)
    requires Extends(a, b) && Headings(a.calls) <= Headings(b.calls) && k <= |a.calls|
    ensures Diffs(a, b).Ok? && (Overtaken(b, k, Diffs(a, b).value) <==> Overtakes(a, b))
  {
    DiffsRebuildExactlyContinuations(a, b);
    var texts, last, added := TextDiffs(a, b).value, LastCallDiffs(a, b).value, NewCallDiffs(b, |a.calls|);
    var ds := Diffs(a, b).value;
    assert ds == texts + last + added;
    LastCallIsQuiet(a, b);
    if texts != [] {
      assert ds[0] == texts[0] && texts[0].index == None;
    } else if last != [] {
      assert ds[0] == last[0];
    } else {
      assert texts + last + added == added;
      if added != [] {
        assert added[0] == Diff([], [], Some(|a.calls|), b.calls[|a.calls|]);
      }
    }
  }

  lemma LastCallIsQuiet(a: Message, b: Message)
    requires Extends(a, b) && Headings(a.calls) <= Headings(b.calls) && LastCallDiffs(a, b).Ok?
    ensures LastCallDiffs(a, b).value == [] <==> a.calls == b.calls[..|a.calls|]
    ensures LastCallDiffs(a, b).value != [] ==> LastCallDiffs(a, b).value[0].call.arguments != []
  {
    if a.calls != [] {
      var i := |a.calls| - 1;
      var p, n := a.calls[i], b.calls[i];
      assert Headings(a.calls)[i] == Headings(b.calls)[i];
      assert p.name == n.name && p.id == n.id;
      StringDiffAppends(p.arguments, n.arguments);
      assert a.calls == b.calls[..i + 1] <==> p == n by {
        if p == n {
          assert forall j :: 0 <= j < |a.calls| ==> a.calls[j] == b.calls[j];
        } else {
          assert a.calls[i] != b.calls[..i + 1][i];
        }
      }
      assert p.arguments + [] == p.arguments;
    }
  }

  /** With the first `k` calls headed, an update heads the named calls of its message in turn exactly if none is overtaken. */
  lemma OrderKeptExactly(a: Message, b: Message, partial: bool, k: nat)
    requires Extends(a, b) && Headings(a.calls) <= Headings(b.calls) && AllNamed(b.calls) && k <= |a.calls|
    ensures
      (DiffsRebuildExactlyContinuations(a, b);
       DiffsAreInTurn(a, b);
       AllAddressed(a, b, Diffs(a, b).value);
       ExpectAll(k, Filter(b, partial, Upto(k), Diffs(a, b).value).diffs).Some? <==> !Overtakes(a, b))
  {
    DiffsRebuildExactlyContinuations(a, b);
    DiffsAreInTurn(a, b);
    var ds := Diffs(a, b).value;
    AllAddressed(a, b, ds);
    OvertakenExactly(a, b, k);
    hide Diffs, Overtakes, Overtaken, Filter, AllInTurn, Extends, Addressed;
    if Overtaken(b, k, ds) {
      OvertakenIsLost(b, partial, k, ds);
    } else {
      var k' := FilterOrder(b, partial, k, ds);
    }
  }

  /** The smallest update in which a call is overtaken: two new calls, the first without arguments. */
  lemma SecondIsNamedFirst(one: ToolCall, two: ToolCall, partial: bool)
    requires one.name != [] && two.name != [] && one.arguments == []
    ensures
      var b := Message([], [], [one, two]);
      && Diffs(EMPTY_MESSAGE, b).Ok?
      && (DiffsAreInTurn(EMPTY_MESSAGE, b);
          AllAddressed(EMPTY_MESSAGE, b, Diffs(EMPTY_MESSAGE, b).value);
          ExpectAll(0, Filter(b, partial, {}, Diffs(EMPTY_MESSAGE, b).value).diffs) == None)
  {
    var b := Message([], [], [one, two]);
    DiffsRebuildExactlyContinuations(EMPTY_MESSAGE, b);
    OrderKeptExactly(EMPTY_MESSAGE, b, partial, 0);
  }

  // ----- Runs -----------------------------------------------------------------

  /** Every call has a name, and every one but the newest has arguments. */
  predicate Ready(calls: seq<ToolCall>) {
    AllNamed(calls) && forall i :: 0 <= i < |calls| - 1 ==> calls[i].arguments != []
  }

  lemma UpdateOrder(f: Filtered, p: Message, q: Message, partial: bool, k: nat, generate: nat -> string) returns (k': nat)
    requires Shows(f.session, p) && Continues(p, q) && f.sent == Upto(k) && k <= |p.calls| && Ready(q.calls)
    ensures
      var u := UpdateFiltered(f, q, partial, generate);
      && u.1.Ok? && Shows(u.0.session, q)
      && ExpectAll(k, u.1.value) == Some(k') && u.0.sent == Upto(k') && k <= k' <= |q.calls|
      && (!partial ==> k' == |q.calls|)
  {
    if q == EMPTY_MESSAGE {
      k' := k;
      assert p == q;
    } else {
      UpdateFollows(f.session, p, q, generate);
      UpdateKeepsHeadings(f.session, p, q, generate);
      var a, b := f.session.chat, Update(f.session, q, generate).0.chat;
      OvertakenExactly(a, b, k);
      DiffsAreInTurn(a, b);
      var ds := Diffs(a, b).value;
      AllAddressed(a, b, ds);
      assert Update(f.session, q, generate).1 == Ok(ds);
      hide Diffs, Extends, Filter, AllInTurn, Addressed, Overtaken, Update, Shows, Continues;
      k' := FilterOrder(b, partial, k, ds);
    }
  }

  /** The chat after an update extends the one before, its known headings unchanged, and no call of a ready message is overtaken. */
  lemma UpdateKeepsHeadings(s: Session, p: Message, q: Message, generate: nat -> string)
    requires Shows(s, p) && Continues(p, q) && Ready(q.calls) && q != EMPTY_MESSAGE
    ensures
      var b := Update(s, q, generate).0.chat;
      && Extends(s.chat, b) && Headings(s.chat.calls) <= Headings(b.calls)
      && AllNamed(b.calls) && |b.calls| == |q.calls| && |s.chat.calls| == |p.calls| && !Overtakes(s.chat, b)
  {
    var s' := Update(s, q, generate).0;
    UpdateFollows(s, p, q, generate);
    UpdateIsShown(s, q, generate);
    hide *;
    ShownExtends(s, p, s', q);
    ShownHeadings(s, p, s', q);
    ReadyToo(q.calls, s'.chat.calls);
    NotOvertaken(s.chat, s'.chat);
  }

  lemma ShownExtends(s: Session, p: Message, s': Session, q: Message)
    requires Shows(s, p) && Continues(p, q) && Shows(s', q) && s.ids <= s'.ids
    ensures Extends(s.chat, s'.chat) && |s.chat.calls| == |p.calls|
  {
  }

  lemma ShownHeadings(s: Session, p: Message, s': Session, q: Message)
    requires Shows(s, p) && Continues(p, q) && Shows(s', q) && s.ids <= s'.ids
    ensures Headings(s.chat.calls) <= Headings(s'.chat.calls)
  {
    forall i | 0 <= i < |p.calls|
      ensures Headings(s.chat.calls)[i] == Headings(s'.chat.calls)[i]
    {
      assert p.calls[i].name == q.calls[i].name;
    }
  }

  lemma ReadyToo(calls: seq<ToolCall>, calls': seq<ToolCall>)
    requires Ready(calls) && |calls'| == |calls|
    requires forall i :: 0 <= i < |calls| ==> calls'[i].name == calls[i].name && calls'[i].arguments == calls[i].arguments
    ensures Ready(calls') && AllNamed(calls')
  {
  }

  lemma UpdateIsShown(s: Session, q: Message, generate: nat -> string)
    requires q != EMPTY_MESSAGE
    ensures
      var b := Update(s, q, generate).0.chat;
      && |b.calls| == |q.calls|
      && forall i :: 0 <= i < |q.calls| ==> b.calls[i].name == q.calls[i].name && b.calls[i].arguments == q.calls[i].arguments
  {
    hide Diffs;
  }

  lemma NotOvertaken(a: Message, b: Message)
    requires Ready(b.calls)
    ensures !Overtakes(a, b)
  {
  }

  lemma {:induction false} RunOrder(f: Filtered, p: Message, ps: seq<Message>, k: nat, generate: nat -> string)
    requires Shows(f.session, p) && Chain(p, ps) && ps != [] && f.sent == Upto(k) && k <= |p.calls|
    requires forall i :: 0 <= i < |ps| ==> Ready(ps[i].calls)
    ensures
      var u := RunFiltered(f, ps, generate);
      u.1.Ok? && ExpectAll(k, u.1.value) == Some(|ps[|ps| - 1].calls|)
    decreases |ps|
  {
    hide UpdateFiltered, Continues, Shows, Ready;
    var k' := UpdateOrder(f, p, ps[0], |ps| > 1, k, generate);
    var first := UpdateFiltered(f, ps[0], |ps| > 1, generate);
    var rest := RunFiltered(first.0, ps[1..], generate);
    if |ps| > 1 {
      RunOrder(first.0, ps[0], ps[1..], k', generate);
      ExpectConcat(k, first.1.value, rest.1.value);
    } else {
      RunNoMore(first.0, ps[1..], generate);
      assert first.1.value + [] == first.1.value;
    }
  }

  /**
   Over a run of growing messages ended by a final update, no delta is refused, the filtered deltas rebuild the
   final message, each call is headed once, a named one before any of its arguments, and calls are headed in turn
   if no message has a call without a name, or one without arguments ahead of another.
   */
  lemma FilteredRunIsSound(ps: seq<Message>, generate: nat -> string)
    requires ps != [] && Chain(EMPTY_MESSAGE, ps)
    ensures
      var u := RunFiltered(NEW_FILTERED, ps, generate);
      && u.1.Ok?
      && Rebuilt(ReceiveAll(EMPTY_VIEW, u.1.value), u.0.session.chat)
      && Shows(u.0.session, ps[|ps| - 1])
      && AnnounceAll({}, u.1.value).Some?
      && ((forall i :: 0 <= i < |ps| ==> Ready(ps[i].calls)) ==> ExpectAll(0, u.1.value) == Some(|ps[|ps| - 1].calls|))
  {
    hide RunFiltered, Rebuilt, ReceiveAll, AnnounceAll, ExpectAll, Chain, Shows, Mirrors, Ready;
    StartShowsNothing();
    StartIsMirrored();
    RunLeads(EMPTY_VIEW, NEW_FILTERED, EMPTY_MESSAGE, ps, generate);
    if forall i :: 0 <= i < |ps| ==> Ready(ps[i].calls) {
      assert Upto(0) == {};
      RunOrder(NEW_FILTERED, EMPTY_MESSAGE, ps, 0, generate);
    }
  }

  /** The same for the streams of the tagged mapper: named calls are headed in turn, as it leaves no call without arguments. */
  lemma FilteredStreamingIsSound(streams: seq<seq<Node>>, generate: nat -> string)
    requires streams != []
    requires forall i :: 0 <= i < |streams| ==> Sound(streams[i])
    requires forall i :: 0 <= i < |streams| - 1 ==> StreamGrows(streams[i], streams[i + 1])
    ensures
      var u := RunFiltered(NEW_FILTERED, Messages(streams), generate);
      var final := MessageOf(streams[|streams| - 1]);
      && u.1.Ok?
      && Rebuilt(ReceiveAll(EMPTY_VIEW, u.1.value), u.0.session.chat)
      && Shows(u.0.session, final)
      && AnnounceAll({}, u.1.value).Some?
      && (AllNamed(final.calls) ==> ExpectAll(0, u.1.value) == Some(|final.calls|))
  {
    hide Continues, MessageOf, Sound, StreamGrows, RunFiltered, Rebuilt, ReceiveAll, AnnounceAll, ExpectAll, Chain, Shows, Ready, AllNamed;
    EmptyContinues(MessageOf(streams[0]));
    MessagesChain(EMPTY_MESSAGE, streams);
    var ps := Messages(streams);
    FilteredRunIsSound(ps, generate);
    if AllNamed(MessageOf(streams[|streams| - 1]).calls) {
      forall i | 0 <= i < |ps| ensures Ready(ps[i].calls) {
        NamedBefore(EMPTY_MESSAGE, ps, i);
        MessagesAt(streams, i);
        SoundCallsHaveArguments(streams[i]);
        NamedWithArguments(ps[i].calls);
      }
    }
  }

  lemma {:induction false} MessagesAt(streams: seq<seq<Node>>, i: nat)
    requires i < |streams| && forall j :: 0 <= j < |streams| ==> Sound(streams[j])
    ensures |Messages(streams)| == |streams| && Messages(streams)[i] == MessageOf(streams[i])
    decreases |streams|
  {
    hide MessageOf, Sound;
    if |streams| > 1 {
      MessagesAt(streams[1..], if i > 0 then i - 1 else 0);
    }
  }

  lemma SoundCallsHaveArguments(nodes: seq<Node>)
    requires Sound(nodes)
    ensures forall i :: 0 <= i < |MessageOf(nodes).calls| ==> MessageOf(nodes).calls[i].arguments != []
  {
    MessageContents.MappedCallsHaveArguments(START, nodes);
  }

  lemma NamedWithArguments(calls: seq<ToolCall>)
    requires AllNamed(calls) && forall i :: 0 <= i < |calls| ==> calls[i].arguments != []
    ensures Ready(calls)
  {
  }

  /** If the last message of a chain has only named calls, so have those before it. */
  lemma {:induction false} NamedBefore(p: Message, ps: seq<Message>, i: nat)
    requires Chain(p, ps) && i < |ps| && AllNamed(ps[|ps| - 1].calls)
    ensures AllNamed(ps[i].calls)
    decreases |ps| - i, |ps|
  {
    hide Continues, AllNamed;
    if i > 0 {
      NamedBefore(ps[0], ps[1..], i - 1);
    } else if |ps| > 1 {
      NamedBefore(ps[0], ps[1..], 0);
      NamesContinueBack(ps[0], ps[1]);
    }
  }

  lemma NamesContinueBack(p: Message, q: Message)
    requires Continues(p, q) && AllNamed(q.calls)
    ensures AllNamed(p.calls)
  {
    forall i | 0 <= i < |p.calls| ensures p.calls[i].name == q.calls[i].name {
    }
  }

  // ----- Tidy streams ---------------------------------------------------------

  lemma NextKeepsNames(ph: Phase, st: State, n: Node)
    requires Valid(st) && Agrees(ph, st) && Next(ph, n).Some? && Defined(st, n) && AllNamed(st.result.calls)
    ensures AllNamed(Step(st, n).result.calls)
  {
    hide TrimEnd, Closed, ValueText, ArgEntry, Unquoted;
  }

  lemma {:induction false} TidyKeepsNames(ph: Phase, st: State, nodes: seq<Node>)
    requires Valid(st) && Agrees(ph, st) && TidyFrom(ph, nodes) && AllDefined(st, nodes) && AllNamed(st.result.calls)
    ensures AllNamed(Run(st, nodes).result.calls)
    decreases |nodes|
  {
    hide Agrees, Next, Step, Safe, Defined, Valid, AllNamed;
    if nodes != [] {
      NextAgrees(ph, st, nodes[0]);
      StepValid(st, nodes[0]);
      NextKeepsNames(ph, st, nodes[0]);
      TidyKeepsNames(Next(ph, nodes[0]).value, Step(st, nodes[0]), nodes[1..]);
    }
  }

  /** Runs of tidy streams, filtered: nothing is refused or lost, and calls are headed once, in turn, before their arguments. */
  lemma TidyFilteredStreamingIsSound(streams: seq<seq<Node>>, generate: nat -> string)
    requires streams != []
    requires forall i :: 0 <= i < |streams| ==> Tidy(streams[i])
    requires forall i :: 0 <= i < |streams| - 1 ==> StreamExtends(streams[i], streams[i + 1])
    ensures
      (SoundAndGrowing(streams);
       var u := RunFiltered(NEW_FILTERED, Messages(streams), generate);
       var final := MessageOf(streams[|streams| - 1]);
       && u.1.Ok?
       && Rebuilt(ReceiveAll(EMPTY_VIEW, u.1.value), u.0.session.chat)
       && Shows(u.0.session, final)
       && ExpectAll(0, u.1.value) == Some(|final.calls|))
  {
    hide Tidy, StreamExtends, Sound, StreamGrows, RunFiltered, Rebuilt, ReceiveAll, AnnounceAll, ExpectAll, Shows, MessageOf, AllNamed;
    SoundAndGrowing(streams);
    FilteredStreamingIsSound(streams, generate);
    TidyCallsAreNamed(streams[|streams| - 1]);
  }

  lemma TidyCallsAreNamed(nodes: seq<Node>)
    requires Tidy(nodes) && Sound(nodes)
    ensures AllNamed(MessageOf(nodes).calls)
  {
    StartAgrees();
    TidyKeepsNames(FIRST_PHASE, START, nodes);
  }
}
