/** Printing a possibly unfinished argument tree as JSON text. */
module PartialTree {
  import opened Wrappers
  import opened JsonText

  datatype Rule =
    | Number | Bool | Null
    | StringContent | StringValue
    | Array
    | DictKeyName | DictKey | DictPair | Dict
    | Value
    | OtherRule

  /** What a node is to the mapper that visits the whole parse. */
  datatype Mark = ReasoningMark | ContentMark | ToolMark | NameMark | ArgsMark | NoMark

  datatype Tree = Tree(rule: Rule, mark: Mark, text: string, children: seq<Tree>, partial: bool)

  function ToJson(t: Tree): string
    decreases t, 1
  {
    if t.text == [] then []
    else match t.rule
      case Number => t.text
      case Bool => t.text
      case Null => t.text
      case StringContent => Escape(t.text)
      case StringValue => ['\"'] + (if t.children == [] then [] else ToJson(t.children[0]) + Unless(t.partial, ['\"']))
      case Array => ['['] + Members(t.children) + Unless(t.partial, [']'])
      case DictKeyName => t.text
      case DictKey =>
        ['\"'] + (if t.children == [] then [] else Escape(ToJson(t.children[0]))) + Unless(t.partial, ['\"', ':'])
      case DictPair => Sequence(t.children)
      case Dict => ['{'] + Members(t.children) + Unless(t.partial, ['}'])
      case Value => if t.children == [] then [] else ToJson(t.children[0])
      case OtherRule => []
  }

  function Unless(partial: bool, closer: string): string {
    if partial then [] else closer
  }

  /** The printed children with commas between them. */
  function Members(ts: seq<Tree>): string
    decreases ts, 0
  {
    if ts == [] then []
    else
      var front := ts[..|ts| - 1];
      Members(front) + (if front == [] then [] else [',']) + ToJson(ts[|ts| - 1])
  }

  /** The printed children one after the other. */
  function Sequence(ts: seq<Tree>): string
    decreases ts, 0
  {
    if ts == [] then [] else Sequence(ts[..|ts| - 1]) + ToJson(ts[|ts| - 1])
  }

  /** The printer, appending to a buffer child by child. */
  method PrintJson(t: Tree) returns (result: string)
    ensures result == ToJson(t)
    decreases t
  {
    if t.text == [] {
      return [];
    }
    match t.rule
    case Number => return t.text;
    case Bool => return t.text;
    case Null => return t.text;
    case StringContent => return Escape(t.text);
    case StringValue =>
      result := ['\"'];
      if t.children != [] {
        var inner := PrintJson(t.children[0]);
        result := result + inner;
        if !t.partial {
          result := result + ['\"'];
        }
      }
      assert t.children != [] ==> result == ['\"'] + (ToJson(t.children[0]) + Unless(t.partial, ['\"']));
    case Array =>
      result := PrintMembers(t, ['[']);
      if !t.partial {
        result := result + [']'];
      }
    case DictKeyName => return t.text;
    case DictKey =>
      result := ['\"'];
      if t.children != [] {
        var name := PrintJson(t.children[0]);
        result := result + Escape(name);
      }
      if !t.partial {
        result := result + ['\"', ':'];
      }
    case DictPair =>
      result := [];
      for i := 0 to |t.children|
        invariant result == Sequence(t.children[..i])
      {
        var child := PrintJson(t.children[i]);
        result := result + child;
        assert t.children[..i + 1][..i] == t.children[..i];
      }
      assert t.children[..|t.children|] == t.children;
    case Dict =>
      result := PrintMembers(t, ['{']);
      if !t.partial {
        result := result + ['}'];
      }
    case Value =>
      if t.children == [] {
        return [];
      }
      result := PrintJson(t.children[0]);
    case OtherRule => return [];
  }

  method PrintMembers(t: Tree, opener: string) returns (result: string)
    ensures result == opener + Members(t.children)
    decreases t, 0
  {
    result := opener;
    var addComma := false;
    for i := 0 to |t.children|
      invariant addComma == (i > 0)
      invariant result == opener + Members(t.children[..i])
    {
      if addComma {
        result := result + [','];
      }
      addComma := true;
      var child := PrintJson(t.children[i]);
      result := result + child;
      assert t.children[..i + 1][..i] == t.children[..i];
    }
    assert t.children[..|t.children|] == t.children;
  }

  // ----- Growth ---------------------------------------------------------------

  /**
   `u` is what an unfinished parse `t` may become: only a partial node changes; it keeps
   its rule and its finished children, its text and its last child may grow, and children
   may follow. A partial node without text may become anything.
   */
  ghost predicate Grows(t: Tree, u: Tree)
    decreases t, 1
  {
    || t == u
    || (t.partial && t.text == [])
    || (t.partial && t.rule == u.rule && t.text <= u.text && ChildrenGrow(t.children, u.children))
  }

  ghost predicate ChildrenGrow(ts: seq<Tree>, us: seq<Tree>)
    decreases ts, 0
  {
    ts == [] ||
    (|ts| <= |us| && ts[..|ts| - 1] == us[..|ts| - 1] && Grows(ts[|ts| - 1], us[|ts| - 1]))
  }

  /** Everything printed for an unfinished tree stays printed. */
  lemma {:induction false} PrintedTextGrows(t: Tree, u: Tree)
    requires Grows(t, u)
    ensures ToJson(t) <= ToJson(u)
    decreases t, 1
  {
    if t != u && t.text != [] {
      assert u.text != [];
      FirstGrows(t, u);
      match t.rule
      case StringContent => EscapeKeepsPrefixes(t.text, u.text);
      case DictKey =>
        if t.children != [] {
          EscapeKeepsPrefixes(ToJson(t.children[0]), ToJson(u.children[0]));
        }
      case Array => MembersGrow(t.children, u.children);
      case Dict => MembersGrow(t.children, u.children);
      case DictPair => SequenceGrows(t.children, u.children);
      case _ =>
    }
  }

  lemma {:induction false} FirstGrows(t: Tree, u: Tree)
    requires ChildrenGrow(t.children, u.children)
    ensures t.children != [] ==> u.children != [] && ToJson(t.children[0]) <= ToJson(u.children[0])
    decreases t, 0
  {
    if |t.children| == 1 {
      PrintedTextGrows(t.children[0], u.children[0]);
    } else if t.children != [] {
      assert t.children[0] == t.children[..|t.children| - 1][0] == u.children[..|t.children| - 1][0];
    }
  }

  lemma {:induction false} MembersGrow(ts: seq<Tree>, us: seq<Tree>)
    requires ChildrenGrow(ts, us)
    ensures Members(ts) <= Members(us)
    decreases ts, 0
  {
    if ts != [] {
      var n := |ts|;
      var grown := us[..n];
      PrintedTextGrows(ts[n - 1], us[n - 1]);
      assert grown[..n - 1] == ts[..n - 1] && grown[n - 1] == us[n - 1];
      LastMemberGrows(ts, grown);
      MembersOfFront(us, n);
    }
  }

  lemma LastMemberGrows(ts: seq<Tree>, us: seq<Tree>)
    requires ts != [] && |us| == |ts| && us[..|ts| - 1] == ts[..|ts| - 1]
    requires ToJson(ts[|ts| - 1]) <= ToJson(us[|ts| - 1])
    ensures Members(ts) <= Members(us)
  {
    hide ToJson;
  }

  lemma {:induction false} MembersOfFront(us: seq<Tree>, n: nat)
    requires n <= |us|
    ensures Members(us[..n]) <= Members(us)
    decreases |us| - n
  {
    if n == |us| {
      assert us[..n] == us;
    } else {
      assert us[..n + 1][..n] == us[..n];
      assert Members(us[..n]) <= Members(us[..n + 1]);
      MembersOfFront(us, n + 1);
    }
  }

  lemma {:induction false} SequenceGrows(ts: seq<Tree>, us: seq<Tree>)
    requires ChildrenGrow(ts, us)
    ensures Sequence(ts) <= Sequence(us)
    decreases ts, 0
  {
    if ts != [] {
      var n := |ts|;
      PrintedTextGrows(ts[n - 1], us[n - 1]);
      assert us[..n][..n - 1] == ts[..n - 1];
      assert Sequence(ts) <= Sequence(us[..n]);
      SequenceOfFront(us, n);
    }
  }

  lemma {:induction false} SequenceOfFront(us: seq<Tree>, n: nat)
    requires n <= |us|
    ensures Sequence(us[..n]) <= Sequence(us)
    decreases |us| - n
  {
    if n == |us| {
      assert us[..n] == us;
    } else {
      assert us[..n + 1][..n] == us[..n];
      assert Sequence(us[..n]) <= Sequence(us[..n + 1]);
      SequenceOfFront(us, n + 1);
    }
  }

  // ----- What a finished tree prints ------------------------------------------

  datatype Json =
    | Atom(text: string)
    | Text(chars: string)
    | List(items: seq<Json>)
    | Object(keys: seq<string>, values: seq<Json>)

  function CommaJoin(texts: seq<string>): string {
    if texts == [] then []
    else
      var front := texts[..|texts| - 1];
      CommaJoin(front) + (if front == [] then [] else [',']) + texts[|texts| - 1]
  }

  ghost predicate IsStringText(text: string, chars: string) {
    |text| >= 2 && text[0] == '\"' && text[|text| - 1] == '\"' && Decode(text[1..|text| - 1]) == Some(chars)
  }

  ghost predicate IsMemberText(text: string, key: string, value: string) {
    exists k: string :: IsStringText(k, key) && text == k + [':'] + value
  }

  /** `text` is a JSON document for `v`. */
  ghost predicate IsJson(text: string, v: Json)
    decreases v
  {
    match v
    case Atom(s) => text == s
    case Text(chars) => IsStringText(text, chars)
    case List(items) =>
      exists texts: seq<string> ::
        && |texts| == |items| && text == ['['] + CommaJoin(texts) + [']']
        && forall i :: 0 <= i < |items| ==> IsJson(texts[i], items[i])
    case Object(keys, values) =>
      && |keys| == |values|
      && exists texts: seq<string>, inner: seq<string> ::
           && |texts| == |inner| == |values| && text == ['{'] + CommaJoin(texts) + ['}']
           && forall i :: 0 <= i < |values| ==> IsMemberText(texts[i], keys[i], inner[i]) && IsJson(inner[i], values[i])
  }

  predicate Finished(t: Tree) {
    !t.partial && t.text != []
  }

  /** A finished `key:` node over its name. */
  predicate IsKey(t: Tree) {
    Finished(t) && t.rule == DictKey && |t.children| == 1 && t.children[0].rule == DictKeyName
  }

  predicate IsPair(t: Tree) {
    Finished(t) && t.rule == DictPair && |t.children| == 2 && IsKey(t.children[0]) && t.children[1].rule == Value
  }

  /** A finished node of the shape the argument grammar builds for a value. */
  predicate IsValueNode(t: Tree) {
    && Finished(t)
    && match t.rule
       case Number => true
       case Bool => true
       case Null => true
       case StringValue => |t.children| == 1 && t.children[0].rule == StringContent
       case Array => forall i :: 0 <= i < |t.children| ==> t.children[i].rule == Value && IsValueNode(t.children[i])
       case Dict => forall i :: 0 <= i < |t.children| ==> IsPair(t.children[i]) && IsValueNode(t.children[i].children[1])
       case Value => |t.children| == 1 && t.children[0].rule != Value && IsValueNode(t.children[0])
       case _ => false
  }

  /** The value a finished node stands for. */
  function ValueOf(t: Tree): (r: Json)
    requires IsValueNode(t)
    ensures t.rule == Dict ==> r.Object? && |r.keys| == |r.values| == |t.children|
  {
    match t.rule
    case StringValue => Text(t.children[0].text)
    case Array => List(seq(|t.children|, i requires 0 <= i < |t.children| => ValueOf(t.children[i])))
    case Dict =>
      Object(
        seq(|t.children|, i requires 0 <= i < |t.children| => t.children[i].children[0].children[0].text),
        seq(|t.children|, i requires 0 <= i < |t.children| => ValueOf(t.children[i].children[1])))
    case Value => ValueOf(t.children[0])
    case _ => Atom(t.text)
  }

  function Printed(ts: seq<Tree>): (texts: seq<string>)
    ensures |texts| == |ts| && forall i :: 0 <= i < |ts| ==> texts[i] == ToJson(ts[i])
  {
    seq(|ts|, i requires 0 <= i < |ts| => ToJson(ts[i]))
  }

  lemma {:induction false} MembersAreJoined(ts: seq<Tree>)
    ensures Members(ts) == CommaJoin(Printed(ts))
  {
    if ts != [] {
      var n := |ts| - 1;
      MembersAreJoined(ts[..n]);
      assert Printed(ts)[..n] == Printed(ts[..n]);
    }
  }

  lemma QuotedIsStringText(chars: string)
    ensures IsStringText(['\"'] + (Escape(chars) + ['\"']), chars)
  {
    var text := ['\"'] + (Escape(chars) + ['\"']);
    assert text[1..|text| - 1] == Escape(chars);
    EscapeRoundTrip(chars);
  }

  lemma KeyPrints(key: Tree)
    requires IsKey(key)
    ensures ToJson(key) == (['\"'] + (Escape(key.children[0].text) + ['\"'])) + [':']
  {
    var name := key.children[0];
    assert ToJson(name) == name.text;
  }

  lemma PairIsMember(t: Tree)
    requires IsPair(t)
    ensures IsMemberText(ToJson(t), t.children[0].children[0].text, ToJson(t.children[1]))
  {
    var key, value := t.children[0], t.children[1];
    var name := key.children[0].text;
    var k := ['\"'] + (Escape(name) + ['\"']);
    QuotedIsStringText(name);
    KeyPrints(key);
    assert t.children[..1] == [key] && t.children[..1][..0] == [];
    assert Sequence(t.children[..1]) == k + [':'];
    assert ToJson(t) == k + [':'] + ToJson(value);
    assert IsStringText(k, name);
  }

  lemma ArrayPrints(t: Tree)
    requires IsValueNode(t) && t.rule == Array
    requires forall i :: 0 <= i < |t.children| ==> IsJson(ToJson(t.children[i]), ValueOf(t.children[i]))
    ensures IsJson(ToJson(t), ValueOf(t))
  {
    MembersAreJoined(t.children);
    var texts, items := Printed(t.children), ValueOf(t).items;
    assert ToJson(t) == ['['] + CommaJoin(texts) + [']'];
    assert forall i :: 0 <= i < |items| ==> IsJson(texts[i], items[i]);
  }

  lemma DictText(t: Tree)
    requires Finished(t) && t.rule == Dict
    ensures ToJson(t) == ['{'] + Members(t.children) + ['}']
  {
  }

  lemma DictPrints(t: Tree)
    requires IsValueNode(t) && t.rule == Dict
    requires forall i :: 0 <= i < |t.children| ==>
               IsJson(ToJson(t.children[i].children[1]), ValueOf(t.children[i].children[1]))
    ensures IsJson(ToJson(t), ValueOf(t))
  {
    hide ToJson, IsMemberText, CommaJoin;
    MembersAreJoined(t.children);
    DictText(t);
    var texts, inner, v := Printed(t.children), ValueTexts(t.children), ValueOf(t);
    hide IsJson;
    forall i | 0 <= i < |t.children|
      ensures IsMemberText(texts[i], v.keys[i], inner[i]) && IsJson(inner[i], v.values[i])
    {
      PairIsMember(t.children[i]);
    }
    ObjectOf(ToJson(t), v.keys, v.values, texts, inner);
  }

  lemma ObjectOf(text: string, keys: seq<string>, values: seq<Json>, texts: seq<string>, inner: seq<string>)
    requires |keys| == |texts| == |inner| == |values| && text == ['{'] + CommaJoin(texts) + ['}']
    requires forall i :: 0 <= i < |values| ==> IsMemberText(texts[i], keys[i], inner[i])
    requires forall i :: 0 <= i < |values| ==> IsJson(inner[i], values[i])
    ensures IsJson(text, Object(keys, values))
  {
    hide IsStringText, CommaJoin, IsMemberText;
  }

  function ValueTexts(ts: seq<Tree>): (texts: seq<string>)
    requires forall i :: 0 <= i < |ts| ==> |ts[i].children| == 2
    ensures |texts| == |ts| && forall i :: 0 <= i < |ts| ==> texts[i] == ToJson(ts[i].children[1])
  {
    seq(|ts|, i requires 0 <= i < |ts| => ToJson(ts[i].children[1]))
  }

  /** A finished tree prints a JSON document for the value it stands for. */
  lemma {:induction false} FinishedTreePrintsItsValue(t: Tree)
    requires IsValueNode(t)
    ensures IsJson(ToJson(t), ValueOf(t))
    decreases t
  {
    match t.rule
    case StringValue =>
      QuotedIsStringText(t.children[0].text);
      assert ToJson(t.children[0]) == Escape(t.children[0].text);
    case Array =>
      forall i | 0 <= i < |t.children| ensures IsJson(ToJson(t.children[i]), ValueOf(t.children[i])) {
        FinishedTreePrintsItsValue(t.children[i]);
      }
      ArrayPrints(t);
    case Dict =>
      forall i | 0 <= i < |t.children|
        ensures IsJson(ToJson(t.children[i].children[1]), ValueOf(t.children[i].children[1]))
      {
        FinishedTreePrintsItsValue(t.children[i].children[1]);
      }
      DictPrints(t);
    case Value => FinishedTreePrintsItsValue(t.children[0]);
    case _ =>
  }
}
