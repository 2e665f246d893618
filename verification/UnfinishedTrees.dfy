/** An unfinished tree prints all that was read: with the missing closers behind it, it is JSON for the value so far. */
module UnfinishedTrees {
  import opened Wrappers
  import opened JsonText
  import opened PartialTree

  // ----- Shapes ---------------------------------------------------------------

  /** A value as the argument grammar builds it, whole or cut off; only the last child of a cut node may be cut. */
  predicate ValueShape(t: Tree) {
    IsValueNode(t) ||
    (t.partial
     && match t.rule
        case Number => true
        case Bool => true
        case Null => true
        case StringValue => |t.children| <= 1 && (t.children != [] ==> t.children[0].rule == StringContent)
        case Array =>
          forall i :: 0 <= i < |t.children| ==>
            t.children[i].rule == Value && if i < |t.children| - 1 then IsValueNode(t.children[i]) else ValueShape(t.children[i])
        case Dict =>
          forall i :: 0 <= i < |t.children| ==>
            if i < |t.children| - 1 then IsValuePair(t.children[i]) else PairShape(t.children[i])
        case Value => |t.children| <= 1 && (t.children != [] ==> t.children[0].rule != Value && ValueShape(t.children[0]))
        case _ => false)
  }

  predicate IsValuePair(t: Tree) {
    IsPair(t) && IsValueNode(t.children[1])
  }

  predicate KeyShape(t: Tree) {
    IsKey(t) ||
    (t.partial && t.rule == DictKey && |t.children| <= 1 && (t.children != [] ==> t.children[0].rule == DictKeyName))
  }

  predicate PairShape(t: Tree) {
    IsValuePair(t) ||
    (t.partial && t.rule == DictPair && |t.children| <= 2
     && (|t.children| == 1 ==> KeyShape(t.children[0]))
     && (|t.children| == 2 ==> IsKey(t.children[0]) && t.children[1].rule == Value && ValueShape(t.children[1])))
  }

  // ----- What was read --------------------------------------------------------

  /** The key as far as it was read. */
  function KeySoFar(t: Tree): string
    requires PairShape(t)
  {
    if t.text == [] || t.children == [] then []
    else
      var key := t.children[0];
      if key.text == [] || key.children == [] then [] else key.children[0].text
  }

  /** The value as far as it was read; null where it was not begun. */
  function SoFar(t: Tree): Json
    requires ValueShape(t)
    decreases t
  {
    if IsValueNode(t) then ValueOf(t)
    else if t.text == [] then Atom("null")
    else match t.rule
      case StringValue => Text(if t.children == [] then [] else t.children[0].text)
      case Array => List(seq(|t.children|, i requires 0 <= i < |t.children| => ItemSoFar(t, i)))
      case Dict =>
        Object(
          seq(|t.children|, i requires 0 <= i < |t.children| => KeySoFar(t.children[i])),
          seq(|t.children|, i requires 0 <= i < |t.children| => MemberSoFar(t.children[i])))
      case Value => if t.children == [] then Atom("null") else SoFar(t.children[0])
      case _ => Atom(t.text)
  }

  function ItemSoFar(t: Tree, i: nat): Json
    requires t.partial && t.rule == Array && ValueShape(t) && i < |t.children|
    decreases t, 0
  {
    SoFar(t.children[i])
  }

  function MemberSoFar(t: Tree): Json
    requires PairShape(t)
    decreases t
  {
    if t.text == [] || |t.children| < 2 then Atom("null") else SoFar(t.children[1])
  }

  // ----- What is missing ------------------------------------------------------

  /** What is missing behind the printed text; null stands for a value that was not begun. */
  function Closers(t: Tree): string
    requires ValueShape(t)
    decreases t
  {
    if IsValueNode(t) then []
    else if t.text == [] then "null"
    else match t.rule
      case StringValue => ['\"']
      case Array => (if t.children == [] then [] else Closers(t.children[|t.children| - 1])) + [']']
      case Dict => (if t.children == [] then [] else PairClosers(t.children[|t.children| - 1])) + ['}']
      case Value => if t.children == [] then "null" else Closers(t.children[0])
      case _ => []
  }

  function KeyClosers(t: Tree): string
    requires KeyShape(t)
  {
    if IsKey(t) then [] else if t.text == [] then ['\"', '\"', ':'] else ['\"', ':']
  }

  function PairClosers(t: Tree): string
    requires PairShape(t)
    decreases t
  {
    if IsValuePair(t) then []
    else if t.text == [] || t.children == [] then ['\"', '\"', ':'] + "null"
    else if |t.children| == 1 then KeyClosers(t.children[0]) + "null"
    else Closers(t.children[1])
  }

  // ----- Proof ----------------------------------------------------------------

  /** What stands behind the colon once the pair is closed. */
  function MemberText(t: Tree): string
    requires PairShape(t)
  {
    if t.text == [] || |t.children| < 2 then "null" else ToJson(t.children[1]) + Closers(t.children[1])
  }

  function Completed(t: Tree): string
    requires ValueShape(t)
  {
    ToJson(t) + Closers(t)
  }

  lemma KeyCompletes(t: Tree)
    requires KeyShape(t)
    ensures ToJson(t) + KeyClosers(t)
         == (['\"'] + (Escape(if t.text == [] || t.children == [] then [] else t.children[0].text) + ['\"'])) + [':']
  {
    hide Escape;
    if IsKey(t) {
      KeyPrints(t);
    } else if t.text == [] || t.children == [] {
      NothingEscaped();
    } else {
      NamePrints(t.children[0]);
    }
  }

  lemma NothingEscaped()
    ensures Escape([]) == []
  {
  }

  lemma NamePrints(t: Tree)
    requires t.rule == DictKeyName
    ensures ToJson(t) == t.text
  {
  }

  lemma KeyMember(name: string, value: string)
    ensures IsMemberText(((['\"'] + (Escape(name) + ['\"'])) + [':']) + value, name, value)
  {
    var k := ['\"'] + (Escape(name) + ['\"']);
    QuotedIsStringText(name);
    assert IsStringText(k, name);
  }

  lemma ShortSequence(ts: seq<Tree>)
    ensures |ts| == 0 ==> Sequence(ts) == []
    ensures |ts| == 1 ==> Sequence(ts) == ToJson(ts[0])
    ensures |ts| == 2 ==> Sequence(ts) == ToJson(ts[0]) + ToJson(ts[1])
  {
    hide ToJson;
    if |ts| == 1 {
      assert ts[..0] == [];
    } else if |ts| == 2 {
      assert ts[..1][..0] == [] && ts[..1][0] == ts[0];
    }
  }

  lemma PairPrints(t: Tree)
    requires t.rule == DictPair
    ensures ToJson(t) == if t.text == [] then [] else Sequence(t.children)
  {
  }

  /** A pair cut anywhere is completed to a member with the key so far. */
  lemma PairCompletes(t: Tree)
    requires PairShape(t)
    ensures IsMemberText(ToJson(t) + PairClosers(t), KeySoFar(t), MemberText(t))
  {
    hide ToJson, Escape, ValueShape, IsMemberText, Closers;
    if IsValuePair(t) {
      WholePairCompletes(t);
    } else {
      CutPairText(t);
      KeyMember(KeySoFar(t), MemberText(t));
    }
  }

  lemma CutPairText(t: Tree)
    requires PairShape(t) && !IsValuePair(t)
    ensures ToJson(t) + PairClosers(t)
         == ((['\"'] + (Escape(KeySoFar(t)) + ['\"'])) + [':']) + MemberText(t)
  {
    hide ToJson, Escape, ValueShape, Closers, KeyClosers;
    PairPrints(t);
    ShortSequence(t.children);
    if t.text == [] || t.children == [] {
      NothingEscaped();
      NullMember();
    } else {
      var key := t.children[0];
      KeyCompletes(key);
      if |t.children| == 1 {
        Grouped(ToJson(key), KeyClosers(key), "null");
      } else {
        assert KeyClosers(key) == [] by { WholeKeyClosed(key); }
        NothingBehind(ToJson(key));
        Grouped(ToJson(key), ToJson(t.children[1]), Closers(t.children[1]));
      }
    }
  }

  lemma WholeKeyClosed(t: Tree)
    requires IsKey(t)
    ensures KeyShape(t) && KeyClosers(t) == []
  {
  }

  lemma NullMember()
    ensures ((['\"'] + ([] + ['\"'])) + [':']) + "null" == [] + (['\"', '\"', ':'] + "null")
  {
  }

  lemma Grouped(a: string, b: string, c: string)
    ensures (a + b) + c == a + (b + c)
  {
  }

  lemma WholePairCompletes(t: Tree)
    requires IsValuePair(t)
    ensures PairShape(t) && IsMemberText(ToJson(t) + PairClosers(t), KeySoFar(t), MemberText(t))
  {
    hide ToJson, IsMemberText;
    PairIsMember(t);
    FinishedClosed(t.children[1]);
    NothingBehind(ToJson(t));
    NothingBehind(ToJson(t.children[1]));
  }

  lemma NothingBehind(s: string)
    ensures s + [] == s
  {
  }

  lemma FinishedClosed(t: Tree)
    requires IsValueNode(t)
    ensures ValueShape(t) && Closers(t) == [] && SoFar(t) == ValueOf(t)
  {
  }

  /** Text behind the last of several joined texts stands behind them all. */
  lemma JoinedBehind(texts: seq<string>, c: string)
    requires texts != []
    ensures CommaJoin(texts[|texts| - 1 := texts[|texts| - 1] + c]) == CommaJoin(texts) + c
  {
    var n := |texts| - 1;
    assert texts[n := texts[n] + c][..n] == texts[..n];
    hide CommaJoin;
    JoinLast(texts);
    JoinLast(texts[n := texts[n] + c]);
  }

  lemma JoinLast(texts: seq<string>)
    requires texts != []
    ensures CommaJoin(texts)
         == CommaJoin(texts[..|texts| - 1]) + (if texts[..|texts| - 1] == [] then [] else [',']) + texts[|texts| - 1]
  {
  }

  /** The printed members, the last one completed. */
  function WithLast(ts: seq<Tree>, c: string): (texts: seq<string>)
    ensures |texts| == |ts|
    ensures forall i :: 0 <= i < |ts| ==> texts[i] == if i < |ts| - 1 then ToJson(ts[i]) else ToJson(ts[i]) + c
  {
    seq(|ts|, i requires 0 <= i < |ts| => if i < |ts| - 1 then ToJson(ts[i]) else ToJson(ts[i]) + c)
  }

  lemma MembersBehind(ts: seq<Tree>, c: string)
    requires ts == [] ==> c == []
    ensures Members(ts) + c == CommaJoin(WithLast(ts, c))
  {
    hide ToJson, CommaJoin;
    MembersAreJoined(ts);
    if ts == [] {
      assert Printed(ts) == WithLast(ts, c) == [];
      NothingBehind(Members(ts));
    } else {
      var texts := Printed(ts);
      JoinedBehind(texts, c);
      assert texts[|texts| - 1 := texts[|texts| - 1] + c] == WithLast(ts, c);
    }
  }

  lemma ListOf(text: string, items: seq<Json>, texts: seq<string>)
    requires |texts| == |items| && text == ['['] + CommaJoin(texts) + [']']
    requires forall i :: 0 <= i < |items| ==> IsJson(texts[i], items[i])
    ensures IsJson(text, List(items))
  {
    hide CommaJoin;
  }

  lemma CompletedIs(t: Tree)
    requires ValueShape(t)
    ensures Completed(t) == ToJson(t) + Closers(t)
  {
  }

  lemma Enclosed(open: string, inner: string, c: string, close: string)
    ensures (open + inner) + (c + close) == open + (inner + c) + close
  {
  }

  lemma CutArrayCompletes(t: Tree)
    requires t.partial && t.rule == Array && ValueShape(t) && t.text != []
    requires forall i :: 0 <= i < |t.children| ==> IsJson(Completed(t.children[i]), SoFar(t.children[i]))
    ensures IsJson(Completed(t), SoFar(t))
  {
    var c := if t.children == [] then [] else Closers(t.children[|t.children| - 1]);
    var texts := WithLast(t.children, c);
    CutArrayText(t, c, texts);
    CutArrayItems(t, c, texts);
    hide *;
    ListOf(Completed(t), SoFar(t).items, texts);
  }

  lemma CutArrayText(t: Tree, c: string, texts: seq<string>)
    requires t.partial && t.rule == Array && ValueShape(t) && t.text != []
    requires c == if t.children == [] then [] else Closers(t.children[|t.children| - 1])
    requires texts == WithLast(t.children, c)
    ensures Completed(t) == ['['] + CommaJoin(texts) + [']']
    ensures SoFar(t).List? && |SoFar(t).items| == |texts|
  {
    hide *;
    CutArrayParts(t, c);
    MembersBehind(t.children, c);
    Enclosed(['['], Members(t.children), c, [']']);
    CompletedIs(t);
  }

  lemma CutArrayParts(t: Tree, c: string)
    requires t.partial && t.rule == Array && ValueShape(t) && t.text != []
    requires c == if t.children == [] then [] else Closers(t.children[|t.children| - 1])
    ensures ToJson(t) == ['['] + Members(t.children) && Closers(t) == c + [']']
    ensures SoFar(t).List? && |SoFar(t).items| == |t.children|
    ensures t.children == [] ==> c == []
  {
    assert !IsValueNode(t);
    NothingBehind(['['] + Members(t.children));
    hide Members;
  }

  lemma CutArrayItems(t: Tree, c: string, texts: seq<string>)
    requires t.partial && t.rule == Array && ValueShape(t) && t.text != []
    requires c == if t.children == [] then [] else Closers(t.children[|t.children| - 1])
    requires texts == WithLast(t.children, c)
    requires forall i :: 0 <= i < |t.children| ==> IsJson(Completed(t.children[i]), SoFar(t.children[i]))
    ensures SoFar(t).List? && |SoFar(t).items| == |texts|
    ensures forall i :: 0 <= i < |texts| ==> IsJson(texts[i], SoFar(t).items[i])
  {
    hide IsJson, ToJson;
    assert !IsValueNode(t);
    forall i | 0 <= i < |texts| ensures IsJson(texts[i], SoFar(t).items[i]) {
      assert SoFar(t).items[i] == SoFar(t.children[i]);
      if i < |texts| - 1 {
        FinishedClosed(t.children[i]);
        NothingBehind(ToJson(t.children[i]));
      }
      assert texts[i] == Completed(t.children[i]);
    }
  }

  lemma CutDictText(t: Tree, c: string, texts: seq<string>)
    requires t.partial && t.rule == Dict && ValueShape(t) && t.text != []
    requires c == if t.children == [] then [] else PairClosers(t.children[|t.children| - 1])
    requires texts == WithLast(t.children, c)
    ensures Completed(t) == ['{'] + CommaJoin(texts) + ['}']
    ensures SoFar(t).Object? && |SoFar(t).keys| == |SoFar(t).values| == |texts|
  {
    hide *;
    CutDictParts(t, c);
    MembersBehind(t.children, c);
    Enclosed(['{'], Members(t.children), c, ['}']);
    CompletedIs(t);
  }

  lemma CutDictParts(t: Tree, c: string)
    requires t.partial && t.rule == Dict && ValueShape(t) && t.text != []
    requires c == if t.children == [] then [] else PairClosers(t.children[|t.children| - 1])
    ensures ToJson(t) == ['{'] + Members(t.children) && Closers(t) == c + ['}']
    ensures SoFar(t).Object? && |SoFar(t).keys| == |SoFar(t).values| == |t.children|
    ensures t.children == [] ==> c == []
  {
    assert !IsValueNode(t);
    NothingBehind(['{'] + Members(t.children));
    hide Members;
  }

  /** All pairs of a dictionary but the last are whole. */
  lemma PairsShape(t: Tree, i: nat)
    requires t.partial && t.rule == Dict && ValueShape(t) && i < |t.children|
    ensures PairShape(t.children[i]) && (i < |t.children| - 1 ==> IsValuePair(t.children[i]))
  {
    assert !IsValueNode(t);
  }

  lemma MemberOf(t: Tree, i: nat)
    requires t.partial && t.rule == Dict && ValueShape(t) && t.text != [] && i < |t.children|
    ensures PairShape(t.children[i]) && SoFar(t).Object? && |SoFar(t).keys| == |SoFar(t).values| == |t.children|
    ensures SoFar(t).keys[i] == KeySoFar(t.children[i]) && SoFar(t).values[i] == MemberSoFar(t.children[i])
  {
    assert !IsValueNode(t);
    PairsShape(t, i);
  }

  function MemberTexts(ts: seq<Tree>): (texts: seq<string>)
    requires forall i :: 0 <= i < |ts| ==> PairShape(ts[i])
    ensures |texts| == |ts| && forall i :: 0 <= i < |ts| ==> texts[i] == MemberText(ts[i])
  {
    seq(|ts|, i requires 0 <= i < |ts| => MemberText(ts[i]))
  }

  lemma WholePairClosed(t: Tree)
    requires IsValuePair(t)
    ensures PairShape(t) && PairClosers(t) == []
  {
  }

  lemma CutDictMember(t: Tree, c: string, texts: seq<string>, i: nat)
    requires t.partial && t.rule == Dict && ValueShape(t) && t.text != [] && i < |t.children|
    requires c == PairClosers(t.children[|t.children| - 1]) && texts == WithLast(t.children, c)
    ensures SoFar(t).Object? && |SoFar(t).keys| == |t.children| && PairShape(t.children[i])
    ensures IsMemberText(texts[i], SoFar(t).keys[i], MemberText(t.children[i]))
  {
    hide IsMemberText, ToJson, ValueShape, PairShape, IsValuePair, SoFar, KeySoFar, MemberText, PairClosers;
    MemberOf(t, i);
    PairsShape(t, i);
    PairCompletes(t.children[i]);
    if i < |t.children| - 1 {
      WholePairClosed(t.children[i]);
      NothingBehind(ToJson(t.children[i]));
    }
  }

  lemma CutDictCompletes(t: Tree)
    requires t.partial && t.rule == Dict && ValueShape(t) && t.text != []
    requires forall i :: 0 <= i < |t.children| ==>
               PairShape(t.children[i]) && IsJson(MemberText(t.children[i]), MemberSoFar(t.children[i]))
    ensures IsJson(Completed(t), SoFar(t))
  {
    hide IsJson, IsMemberText, ValueShape, PairShape, SoFar, MemberText, PairClosers, Completed, MemberSoFar, Closers;
    hide CommaJoin, ToJson, KeySoFar;
    var c := if t.children == [] then [] else PairClosers(t.children[|t.children| - 1]);
    var texts, inner := WithLast(t.children, c), MemberTexts(t.children);
    CutDictText(t, c, texts);
    var v := SoFar(t);
    forall i | 0 <= i < |t.children|
      ensures IsMemberText(texts[i], v.keys[i], inner[i]) && IsJson(inner[i], v.values[i])
    {
      MemberOf(t, i);
      CutDictMember(t, c, texts, i);
    }
    ObjectOf(Completed(t), v.keys, v.values, texts, inner);
  }

  /** Where a pair has its value, the text behind the colon is the value completed; elsewhere it is null. */
  lemma MemberIsJson(t: Tree)
    requires PairShape(t)
    requires |t.children| == 2 && ValueShape(t.children[1]) ==> IsJson(Completed(t.children[1]), SoFar(t.children[1]))
    ensures IsJson(MemberText(t), MemberSoFar(t))
  {
    hide ToJson, SoFar, Closers;
    if t.text == [] || |t.children| < 2 {
      NullIsJson();
    } else {
      PairValueShape(t);
      hide IsJson, ValueShape, PairShape;
    }
  }

  lemma PairValueShape(t: Tree)
    requires PairShape(t) && |t.children| == 2
    ensures ValueShape(t.children[1])
  {
  }

  lemma NullIsJson()
    ensures IsJson("null", Atom("null"))
  {
  }

  lemma NothingPrinted(t: Tree)
    requires t.text == [] || (t.rule == Value && t.children == [])
    ensures ToJson(t) == []
  {
  }

  lemma CutStringCompletes(t: Tree)
    requires t.partial && t.rule == StringValue && ValueShape(t) && t.text != []
    ensures IsJson(Completed(t), SoFar(t))
  {
    assert !IsValueNode(t);
    var chars := if t.children == [] then [] else t.children[0].text;
    QuotedIsStringText(chars);
    if t.children != [] {
      assert ToJson(t.children[0]) == Escape(chars);
      assert ToJson(t) == ['\"'] + (Escape(chars) + []);
    } else {
      NothingEscaped();
    }
    assert Completed(t) == ['\"'] + (Escape(chars) + ['\"']);
    hide ToJson, Completed, Decode, Escape;
  }

  /** A string cut off in its text prints a quote and a text that decodes to all of the characters read. */
  lemma CutStringPrintsItsText(t: Tree)
    requires t.partial && t.rule == StringValue && t.text != []
    requires |t.children| == 1 && t.children[0].rule == StringContent
    ensures ToJson(t) != [] && ToJson(t)[0] == '\"' && Decode(ToJson(t)[1..]) == Some(t.children[0].text)
  {
    var chars := t.children[0].text;
    EscapeRoundTrip(chars);
    assert ToJson(t.children[0]) == Escape(chars);
    assert ToJson(t)[1..] == Escape(chars);
    hide Decode;
  }

  /**
   Nothing that was read is withheld: what a tree of the value shape prints, cut off wherever it may be, is a JSON
   document for the value read so far once the missing closers stand behind it.
   */
  lemma {:induction false} UnfinishedTreePrintsWhatWasRead(t: Tree)
    requires ValueShape(t)
    ensures IsJson(ToJson(t) + Closers(t), SoFar(t))
    decreases t
  {
    if IsValueNode(t) {
      FinishedTreePrintsItsValue(t);
      FinishedClosed(t);
      NothingBehind(ToJson(t));
    } else if t.text == [] {
      NullCompletes(t);
    } else {
      match t.rule
      case StringValue => CutStringCompletes(t);
      case Array =>
        forall i | 0 <= i < |t.children|
          ensures ValueShape(t.children[i]) && IsJson(Completed(t.children[i]), SoFar(t.children[i]))
        {
          UnfinishedTreePrintsWhatWasRead(t.children[i]);
        }
        CutArrayCompletes(t);
      case Dict =>
        forall i | 0 <= i < |t.children|
          ensures PairShape(t.children[i]) && IsJson(MemberText(t.children[i]), MemberSoFar(t.children[i]))
        {
          PairsShape(t, i);
          if |t.children[i].children| == 2 && ValueShape(t.children[i].children[1]) {
            UnfinishedTreePrintsWhatWasRead(t.children[i].children[1]);
          }
          MemberIsJson(t.children[i]);
        }
        CutDictCompletes(t);
      case Value =>
        if t.children == [] {
          NullCompletes(t);
        } else {
          UnfinishedTreePrintsWhatWasRead(t.children[0]);
        }
      case _ => NothingBehind(ToJson(t));
    }
  }

  lemma NullCompletes(t: Tree)
    requires t.partial && ValueShape(t) && (t.text == [] || (t.rule == Value && t.children == []))
    ensures IsJson(ToJson(t) + Closers(t), SoFar(t))
  {
    NothingPrinted(t);
    NullIsJson();
    assert [] + "null" == "null";
  }
}
