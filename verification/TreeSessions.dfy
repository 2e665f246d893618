/** Sessions over growing trees: what runs of the tree mapper keep. */
module TreeSessions {
  import opened Wrappers
  import opened MessageDiff
  import opened PartialTree
  import opened TreeMapper
  import opened UnfinishedTrees
  import Streaming
  import Announcements
  import FilteredSession
  import HeadingOrder

  /** Every call is announced by one delta, in order, with its final name; later deltas about it bring arguments only. */
  lemma TreeCallsAreAnnouncedOnce(streams: seq<seq<Tree>>, generate: nat -> string)
    requires streams != []
    requires forall i :: 0 <= i < |streams| - 1 ==> ParsesGrow(streams[i], streams[i + 1])
    ensures
      var u := Streaming.RunSession(Streaming.NEW_SESSION, Messages(streams), generate);
      u.1.Ok? && Announcements.HearAll([], u.1.value) == Some(Announcements.Headings(u.0.chat.calls))
  {
    hide ParsesGrow, MessageOf, Messages, Streaming.RunSession, Announcements.HearAll, Streaming.Shows, Streaming.Chain;
    TreesChain(streams);
    Streaming.StartShowsNothing();
    assert Announcements.Headings([]) == [];
    Announcements.SessionHeard(Streaming.NEW_SESSION, EMPTY_MESSAGE, Messages(streams), generate);
  }

  lemma TreesChain(streams: seq<seq<Tree>>)
    requires streams != []
    requires forall i :: 0 <= i < |streams| - 1 ==> ParsesGrow(streams[i], streams[i + 1])
    ensures Streaming.Chain(EMPTY_MESSAGE, Messages(streams)) && |Messages(streams)| == |streams|
  {
    hide ParsesGrow, MessageOf;
    Streaming.EmptyContinues(MessageOf(streams[0]));
    MessagesChain(EMPTY_MESSAGE, streams);
  }

  /**
   A session that holds names back refuses nothing and loses nothing; calls are headed in turn if every call has
   a name and every one but the newest has begun its arguments, as in a grammar that reads calls one after the other.
   */
  lemma TreeFilteredStreamingIsSound(streams: seq<seq<Tree>>, generate: nat -> string)
    requires streams != []
    requires forall i :: 0 <= i < |streams| - 1 ==> ParsesGrow(streams[i], streams[i + 1])
    ensures
      var u := FilteredSession.RunFiltered(FilteredSession.NEW_FILTERED, Messages(streams), generate);
      var final := MessageOf(streams[|streams| - 1]);
      && u.1.Ok?
      && FilteredSession.Rebuilt(FilteredSession.ReceiveAll(FilteredSession.EMPTY_VIEW, u.1.value), u.0.session.chat)
      && Streaming.Shows(u.0.session, final)
      && FilteredSession.AnnounceAll({}, u.1.value).Some?
      && ((forall i :: 0 <= i < |streams| ==> HeadsReady(streams[i])) ==>
            HeadingOrder.ExpectAll(0, u.1.value) == Some(|final.calls|))
  {
    hide ParsesGrow, MessageOf, HeadsReady, HeadingOrder.Ready, Streaming.Chain, Streaming.Shows;
    hide FilteredSession.RunFiltered, FilteredSession.Rebuilt, FilteredSession.ReceiveAll, FilteredSession.AnnounceAll;
    TreesChain(streams);
    var ps := Messages(streams);
    HeadingOrder.FilteredRunIsSound(ps, generate);
    if forall i :: 0 <= i < |streams| ==> HeadsReady(streams[i]) {
      forall i | 0 <= i < |ps| ensures HeadingOrder.Ready(ps[i].calls) {
        assert HeadsReady(streams[i]);
        HeadsReadyIsReady(streams[i]);
      }
    }
  }

  /** Of the tool nodes that emit, each has a name, and each but the last some argument text. */
  predicate HeadsReady(ts: seq<Tree>) {
    var calls := CallsOf(Leaves(ts));
    && (forall i :: 0 <= i < |calls| ==> calls[i].name != [])
    && (forall i :: 0 <= i < |calls| - 1 ==> calls[i].arguments != [])
  }

  lemma HeadsReadyIsReady(ts: seq<Tree>)
    requires HeadsReady(ts)
    ensures HeadingOrder.Ready(MessageOf(ts).calls)
  {
    VisitCollects(EMPTY_MESSAGE, ts);
    assert [] + CallsOf(Leaves(ts)) == CallsOf(Leaves(ts));
  }

  /**
   The arguments of an emitted call, cut off wherever they may be, are JSON for the value read so far, but for the
   missing closers; once they are read to their end nothing is missing.
   */
  lemma EmittedCallIsJson(t: Tree)
    requires Emits(t) && ArgsOf(t).value.children != [] && ValueShape(ArgsOf(t).value.children[0])
    ensures
      var args := ArgsOf(t).value.children[0];
      && CallOf(t).name == NameOf(t).value.text
      && IsJson(CallOf(t).arguments + Closers(args), SoFar(args))
      && (IsValueNode(args) ==> IsJson(CallOf(t).arguments, ValueOf(args)))
  {
    hide IsJson, ToJson, ValueShape, IsValueNode, NameOf, ArgsOf;
    var args := ArgsOf(t).value.children[0];
    UnfinishedTreePrintsWhatWasRead(args);
    if IsValueNode(args) {
      FinishedTreePrintsItsValue(args);
    }
  }

  /** A tool node as the grammar builds it: an opening node over the name, and the arguments over a dictionary. */
  predicate IsCallTree(t: Tree) {
    && t.mark == ToolMark && |t.children| == 2
    && t.children[0].mark == NoMark && |t.children[0].children| == 1 && t.children[0].children[0].mark == NameMark
    && t.children[0].children[0].children == []
    && t.children[1].mark == ArgsMark && |t.children[1].children| == 1
  }

  /** Such a node gives one call, under the name it holds, with what its dictionary prints. */
  lemma BuiltCallIsEmitted(t: Tree)
    requires IsCallTree(t) && !t.children[0].children[0].partial
    ensures CallIn(t) == [ToolCall(t.children[0].children[0].text, ToJson(t.children[1].children[0]), [])]
    ensures ArgsOf(t) == Some(t.children[1])
  {
    hide ToJson;
    var open, args := t.children[0], t.children[1];
    var name := open.children[0];
    FoundBelow(open, name, NameMark, t.children);
    assert Find(name.children, ArgsMark, 1) == None;
    assert Find(open.children[1..], ArgsMark, 2) == None;
    assert Find(open.children, ArgsMark, 2) == None;
    assert t.children[1..][0] == args;
    assert Find(t.children[1..], ArgsMark, 3) == Some(args);
  }

  lemma FoundBelow(open: Tree, name: Tree, mark: Mark, ts: seq<Tree>)
    requires ts != [] && ts[0] == open && open.mark != mark && open.children == [name] && name.mark == mark
    ensures Find(ts, mark, MAX_DEPTH) == Some(name)
  {
    assert Find(open.children, mark, 2) == Some(name);
  }

  /** A dictionary that has begun prints at least its brace, so a call whose arguments were begun has arguments. */
  lemma ReadArgumentsPrint(t: Tree)
    requires Emits(t) && ArgsOf(t).value.children != []
    requires var dict := ArgsOf(t).value.children[0]; dict.rule == Dict && dict.text != []
    ensures CallOf(t).arguments != []
  {
  }
}
