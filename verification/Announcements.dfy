/** A client that learns a tool call's name and id from one delta and never has to revise them. */
module Announcements {
  import opened Wrappers
  import opened MessageDiff
  import opened ToolCallMapper
  import opened Streaming

  datatype Heading = Heading(name: string, id: string)

  function Headings(calls: seq<ToolCall>): (hs: seq<Heading>)
    ensures |hs| == |calls|
  {
    seq(|calls|, i requires 0 <= i < |calls| => Heading(calls[i].name, calls[i].id))
  }

  /** A known call may only gain arguments; a new one must be the next in order. */
  function Hear(known: seq<Heading>, d: Diff): Option<seq<Heading>> {
    if d.index == None then Some(known)
    else if d.index.value < |known| then if d.call.name == [] && d.call.id == [] then Some(known) else None
    else if d.index.value == |known| then Some(known + [Heading(d.call.name, d.call.id)])
    else None
  }

  function HearAll(known: seq<Heading>, ds: seq<Diff>): Option<seq<Heading>>
    decreases |ds|
  {
    if ds == [] then Some(known)
    else
      var next := Hear(known, ds[0]);
      if next.None? then None else HearAll(next.value, ds[1..])
  }

  lemma {:induction false} HearConcat(known: seq<Heading>, ds: seq<Diff>, es: seq<Diff>)
    ensures HearAll(known, ds + es) ==
            if HearAll(known, ds).None? then None else HearAll(HearAll(known, ds).value, es)
    decreases |ds|
  {
    if ds == [] {
      assert ds + es == es;
    } else {
      assert (ds + es)[1..] == ds[1..] + es;
      if Hear(known, ds[0]).Some? {
        HearConcat(Hear(known, ds[0]).value, ds[1..], es);
      }
    }
  }

  /** What was heard is never taken back. */
  lemma {:induction false} HeardStays(known: seq<Heading>, ds: seq<Diff>)
    ensures HearAll(known, ds).Some? ==> known <= HearAll(known, ds).value
    decreases |ds|
  {
    if ds != [] && Hear(known, ds[0]).Some? {
      HeardStays(Hear(known, ds[0]).value, ds[1..]);
    }
  }

  lemma {:induction false} NewCallsHeard(b: Message, index: nat)
    requires index <= |b.calls|
    ensures HearAll(Headings(b.calls[..index]), NewCallDiffs(b, index)) == Some(Headings(b.calls))
    decreases |b.calls| - index
  {
    if index == |b.calls| {
      assert b.calls[..index] == b.calls;
    } else {
      var known := Headings(b.calls[..index]);
      var next := Headings(b.calls[..index + 1]);
      assert next == known + [Heading(b.calls[index].name, b.calls[index].id)];
      NewCallsHeard(b, index + 1);
    }
  }

  lemma TextsHeard(known: seq<Heading>, a: Message, b: Message)
    requires TextDiffs(a, b).Ok?
    ensures HearAll(known, TextDiffs(a, b).value) == Some(known)
  {
    var ds := TextDiffs(a, b).value;
    assert forall i :: 0 <= i < |ds| ==> ds[i].index == None;
    TextsOnlyHeard(known, ds);
  }

  lemma {:induction false} TextsOnlyHeard(known: seq<Heading>, ds: seq<Diff>)
    requires forall i :: 0 <= i < |ds| ==> ds[i].index == None
    ensures HearAll(known, ds) == Some(known)
    decreases |ds|
  {
    if ds != [] {
      TextsOnlyHeard(known, ds[1..]);
    }
  }

  lemma LastCallHeard(a: Message, b: Message)
    requires |a.calls| <= |b.calls| && LastCallDiffs(a, b).Ok?
    requires Headings(a.calls) == Headings(b.calls[..|a.calls|])
    ensures HearAll(Headings(a.calls), LastCallDiffs(a, b).value) == Some(Headings(a.calls))
  {
    if a.calls != [] {
      var i := |a.calls| - 1;
      assert Headings(a.calls)[i] == Headings(b.calls[..|a.calls|])[i];
      assert a.calls[i].name == b.calls[i].name && a.calls[i].id == b.calls[i].id;
      var ds := LastCallDiffs(a, b).value;
      assert ds == [] || (|ds| == 1 && ds[1..] == [] && Hear(Headings(a.calls), ds[0]) == Some(Headings(a.calls)));
    }
  }

  /** The client ends up with the names and ids of the new message exactly when no known one changed. */
  lemma HeardExactly(a: Message, b: Message)
    requires Diffs(a, b).Ok?
    ensures HearAll(Headings(a.calls), Diffs(a, b).value) == Some(Headings(b.calls)) <==>
            Headings(a.calls) <= Headings(b.calls)
  {
    hide TextDiffs, LastCallDiffs, NewCallDiffs, HearAll;
    var known := Headings(a.calls);
    HeardStays(known, Diffs(a, b).value);
    if known <= Headings(b.calls) {
      var texts, last := TextDiffs(a, b).value, LastCallDiffs(a, b).value;
      var added := NewCallDiffs(b, |a.calls|);
      assert known == Headings(b.calls[..|a.calls|]);
      TextsHeard(known, a, b);
      LastCallHeard(a, b);
      NewCallsHeard(b, |a.calls|);
      HearConcat(known, texts, last);
      HearConcat(known, texts + last, added);
    }
  }

  lemma UpdateHeard(s: Session, p: Message, q: Message, generate: nat -> string)
    requires Shows(s, p) && Continues(p, q)
    ensures
      var u := Update(s, q, generate);
      u.1.Ok? && HearAll(Headings(s.chat.calls), u.1.value) == Some(Headings(u.0.chat.calls))
  {
    hide Diffs, HearAll;
    UpdateFollows(s, p, q, generate);
    var u := Update(s, q, generate);
    if q != EMPTY_MESSAGE {
      var chat := u.0.chat;
      HeardExactly(s.chat, chat);
      forall i | 0 <= i < |p.calls|
        ensures Headings(s.chat.calls)[i] == Headings(chat.calls)[i]
      {
        assert p.calls[i].name == q.calls[i].name;
      }
    } else {
      assert HearAll(Headings(s.chat.calls), []) == Some(Headings(s.chat.calls)) by {
        TextsOnlyHeard(Headings(s.chat.calls), []);
      }
    }
  }

  lemma {:induction false} SessionHeard(s: Session, p: Message, ps: seq<Message>, generate: nat -> string)
    requires Shows(s, p) && Chain(p, ps)
    ensures
      var u := RunSession(s, ps, generate);
      u.1.Ok? && HearAll(Headings(s.chat.calls), u.1.value) == Some(Headings(u.0.chat.calls))
    decreases |ps|
  {
    hide Update, Shows, Continues, HearAll;
    if ps == [] {
      TextsOnlyHeard(Headings(s.chat.calls), []);
    } else {
      UpdateFollows(s, p, ps[0], generate);
      UpdateHeard(s, p, ps[0], generate);
      var first := Update(s, ps[0], generate);
      SessionHeard(first.0, ps[0], ps[1..], generate);
      var rest := RunSession(first.0, ps[1..], generate);
      HearConcat(Headings(s.chat.calls), first.1.value, rest.1.value);
    }
  }

  /**
   Over a whole run each tool call is announced by exactly one delta, in order and with its final
   name and id, and every later delta about it brings arguments only.
   */
  lemma CallsAreAnnouncedOnce(streams: seq<seq<Node>>, generate: nat -> string)
    requires streams != []
    requires forall i :: 0 <= i < |streams| ==> Sound(streams[i])
    requires forall i :: 0 <= i < |streams| - 1 ==> StreamGrows(streams[i], streams[i + 1])
    ensures
      var u := RunSession(NEW_SESSION, Messages(streams), generate);
      u.1.Ok? && HearAll([], u.1.value) == Some(Headings(u.0.chat.calls))
  {
    hide Continues, MessageOf, Sound, StreamGrows, Update;
    EmptyContinues(MessageOf(streams[0]));
    MessagesChain(EMPTY_MESSAGE, streams);
    assert Headings([]) == [];
    SessionHeard(NEW_SESSION, EMPTY_MESSAGE, Messages(streams), generate);
  }
}
