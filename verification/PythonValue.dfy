/**
 The rewriter that turns Python-style argument values into JSON: single-quoted
 strings become double-quoted ones and True/False/None become JSON literals.
 */
module PythonValue {
  import opened Wrappers
  import opened JsonText

  datatype Mode = Bare | Single | Double

  predicate IsWordChar(c: char) {
    'a' <= c <= 'z' || 'A' <= c <= 'Z' || '0' <= c <= '9' || c == '_'
  }

  /** The end of the run of word characters that starts at `i`. */
  function WordEnd(s: string, i: nat): (e: nat)
    requires i <= |s|
    ensures i <= e <= |s|
    ensures forall j :: i <= j < e ==> IsWordChar(s[j])
    ensures e < |s| ==> !IsWordChar(s[e])
    decreases |s| - i
  {
    if i < |s| && IsWordChar(s[i]) then WordEnd(s, i + 1) else i
  }

  /** The JSON spelling of a word that is an initial part of a Python literal. */
  function LiteralFor(word: string): (js: Option<string>)
    ensures js.Some? ==> |js.value| == |word|
  {
    if word <= "True" then Some("true"[..|word|])
    else if word <= "False" then Some("false"[..|word|])
    else if word <= "None" then Some("null"[..|word|])
    else None
  }

  predicate StartsLiteral(s: string, i: nat)
    requires i < |s|
  {
    (s[i] == 'T' || s[i] == 'F' || s[i] == 'N') && (i == 0 || !IsWordChar(s[i - 1]))
  }

  /** One turn of the rewriter: how much input it takes, what it writes, and the mode it leaves. */
  datatype Move = Move(width: nat, out: string, mode: Mode)

  function Next(s: string, i: nat, m: Mode): (r: Move)
    requires i < |s|
    ensures 1 <= r.width <= |s| - i
  {
    var c := s[i];
    if c == '\\' && i + 1 < |s| then
      var next := s[i + 1];
      if m == Single then
        if next == '\'' then Move(2, ['\''], m) else Move(2, ['\\', next], m)
      else if m == Double then Move(2, ['\\', next], m)
      else Move(1, ['\\'], m)
    else if c == '\"' then
      if m == Single then Move(1, ['\\', '\"'], m)
      else Move(1, ['\"'], if m == Double then Bare else Double)
    else if c == '\'' then
      if m == Double then Move(1, ['\''], m)
      else Move(1, ['\"'], if m == Single then Bare else Single)
    else if m == Bare && StartsLiteral(s, i) then
      match LiteralFor(s[i..WordEnd(s, i)])
      case Some(js) => Move(WordEnd(s, i) - i, js, m)
      case None => Move(1, [c], m)
    else Move(1, [c], m)
  }

  function Rewrite(s: string, i: nat, m: Mode): string
    requires i <= |s|
    decreases |s| - i
  {
    if i == |s| then []
    else var r := Next(s, i, m); r.out + Rewrite(s, i + r.width, r.mode)
  }

  function Normalize(s: string): string {
    Rewrite(s, 0, Bare)
  }

  /** Measures the word at `i` and looks it up among the literals. */
  method MatchLiteral(input: string, i: nat) returns (n: nat, js: Option<string>)
    requires i < |input| && IsWordChar(input[i])
    ensures i + n == WordEnd(input, i) && n > 0
    ensures js == LiteralFor(input[i..i + n])
  {
    n := 0;
    while i + n < |input| && IsWordChar(input[i + n])
      invariant 0 <= n <= |input| - i
      invariant WordEnd(input, i + n) == WordEnd(input, i)
    {
      n := n + 1;
    }
    js := LookUp(input[i..i + n]);
  }

  /** The loop over the literals. */
  method LookUp(token: string) returns (js: Option<string>)
    ensures js == LiteralFor(token)
  {
    var literals := [("True", "true"), ("False", "false"), ("None", "null")];
    js := None;
    for k := 0 to |literals|
      invariant js.None?
      invariant 0 < k ==> !(token <= "True")
      invariant 1 < k ==> !(token <= "False")
      invariant 2 < k ==> !(token <= "None")
    {
      if token <= literals[k].0 {
        js := Some(literals[k].1[..|token|]);
        return;
      }
    }
  }

  lemma Reassociate(a: string, b: string, c: string)
    ensures (a + b) + c == a + (b + c)
  {
  }

  function ModeOf(inSingle: bool, inDouble: bool): Mode {
    if inSingle then Single else if inDouble then Double else Bare
  }

  /** One turn of the loop: what it appends, how far it moves, and the flags it leaves. */
  method Turn(input: string, i: nat, inSingle: bool, inDouble: bool)
    returns (out: string, width: nat, inSingle': bool, inDouble': bool)
    requires i < |input| && !(inSingle && inDouble)
    ensures Move(width, out, ModeOf(inSingle', inDouble')) == Next(input, i, ModeOf(inSingle, inDouble))
    ensures !(inSingle' && inDouble')
  {
    hide LiteralFor, WordEnd;
    var c := input[i];
    inSingle', inDouble' := inSingle, inDouble;
    if c == '\\' && i + 1 < |input| {
      var next := input[i + 1];
      if inSingle {
        if next == '\'' {
          return ['\''], 2, inSingle, inDouble;
        }
        if next == '\"' {
          return ['\\', '\"'], 2, inSingle, inDouble;
        }
        return [c, next], 2, inSingle, inDouble;
      }
      if inDouble {
        return [c, next], 2, inSingle, inDouble;
      }
      return [c], 1, inSingle, inDouble;
    }
    out, width := [c], 1;
    if c == '\"' {
      if inSingle {
        out := ['\\', '\"'];
      } else {
        inDouble' := !inDouble;
      }
    } else if c == '\'' {
      if !inDouble {
        inSingle' := !inSingle;
        out := ['\"'];
      }
    } else if !inSingle && !inDouble && (c == 'T' || c == 'F' || c == 'N') && (i == 0 || !IsWordChar(input[i - 1])) {
      var n, js := MatchLiteral(input, i);
      if js.Some? {
        out, width := js.value, n;
      }
    }
  }

  /** The rewriting loop over its two flags. */
  method NormalizeQuotes(input: string) returns (result: string)
    ensures result == Normalize(input)
  {
    result := [];
    var inSingle, inDouble := false, false;
    var i := 0;
    while i < |input|
      invariant 0 <= i <= |input|
      invariant !(inSingle && inDouble)
      invariant result + Rewrite(input, i, ModeOf(inSingle, inDouble)) == Normalize(input)
    {
      var out, width, inSingle', inDouble' := Turn(input, i, inSingle, inDouble);
      Reassociate(result, out, Rewrite(input, i + width, ModeOf(inSingle', inDouble')));
      result, i, inSingle, inDouble := result + out, i + width, inSingle', inDouble';
    }
  }

  // ----- Streaming: what a cut of the input does to the output ----------------

  /**
   The two ways a cut at `k` can tear the piece that starts at `i`: it separates a
   backslash from the single quote it protects, or it makes the beginning of an
   ordinary word look like the beginning of a literal.
   */
  predicate Tears(s: string, k: nat, i: nat, m: Mode)
    requires i < k < |s|
  {
    || (m == Single && i + 1 == k && s[i] == '\\' && s[k] == '\'')
    || (m == Bare && StartsLiteral(s, i) && k < WordEnd(s, i)
        && LiteralFor(s[i..k]).Some? && LiteralFor(s[i..WordEnd(s, i)]).None?)
  }

  predicate CleanCutFrom(s: string, k: nat, i: nat, m: Mode)
    requires i <= |s| && k < |s|
    decreases |s| - i
  {
    i < k ==> !Tears(s, k, i, m) && var r := Next(s, i, m); CleanCutFrom(s, k, i + r.width, r.mode)
  }

  /** Whether the text may be shown up to `k` and later continued without taking output back. */
  predicate CleanCut(s: string, k: nat)
    requires k <= |s|
  {
    k < |s| ==> CleanCutFrom(s, k, 0, Bare)
  }

  lemma {:induction false} WordEndOfCut(s: string, k: nat, i: nat)
    requires i <= k <= |s|
    ensures WordEnd(s[..k], i) == if WordEnd(s, i) <= k then WordEnd(s, i) else k
    decreases |s| - i
  {
    if i < k && IsWordChar(s[i]) {
      WordEndOfCut(s, k, i + 1);
    }
  }

  /** Two words that start the same literal have JSON spellings one of which starts the other. */
  lemma LiteralPrefix(a: string, b: string)
    requires [] < a <= b
    ensures LiteralFor(b).Some? ==> LiteralFor(a).Some? && LiteralFor(a).value <= LiteralFor(b).value
    ensures LiteralFor(a).Some? ==> LiteralFor(a).value[0] != a[0]
  {
    assert a[0] == b[0];
    if LiteralFor(b).Some? {
      assert b[0] == "True"[0] || b[0] == "False"[0] || b[0] == "None"[0];
    }
  }

  /** A piece that ends before the cut is rewritten the same with and without the rest. */
  lemma NextBeforeCut(s: string, k: nat, i: nat, m: Mode)
    requires i < k < |s| && !Tears(s, k, i, m)
    requires i + Next(s, i, m).width <= k
    ensures Next(s[..k], i, m) == Next(s, i, m)
  {
    var p := s[..k];
    assert p[i] == s[i] && (i > 0 ==> p[i - 1] == s[i - 1]) && (i + 1 < k ==> p[i + 1] == s[i + 1]);
    if m == Bare && StartsLiteral(s, i) {
      WordOfCut(s, k, i);
      WordBeforeCut(s, k, i);
      hide LiteralFor, WordEnd;
    } else {
      hide LiteralFor, WordEnd, Tears;
    }
  }

  /** The word at `i` as the cut leaves it. */
  lemma WordOfCut(s: string, k: nat, i: nat)
    requires i < k < |s| && StartsLiteral(s, i)
    ensures StartsLiteral(s[..k], i) && i < WordEnd(s, i)
    ensures WordEnd(s[..k], i) == if WordEnd(s, i) <= k then WordEnd(s, i) else k
    ensures s[..k][i..WordEnd(s[..k], i)] == s[i..WordEnd(s[..k], i)]
  {
    WordEndOfCut(s, k, i);
    Subslice(s, 0, k, i, WordEnd(s[..k], i));
    hide WordEnd;
  }

  /** Unless the cut tears it, a word is looked up with the same result or read letter by letter in both texts. */
  lemma WordBeforeCut(s: string, k: nat, i: nat)
    requires i < k < |s| && StartsLiteral(s, i) && !Tears(s, k, i, Bare)
    requires i + Next(s, i, Bare).width <= k
    ensures
      var e, e' := WordEnd(s, i), WordEnd(s[..k], i);
      LiteralFor(s[..k][i..e']) == LiteralFor(s[i..e]) && (e == e' || LiteralFor(s[i..e]).None?)
  {
    WordOfCut(s, k, i);
    hide LiteralFor, WordEnd;
  }

  lemma NextAcrossCut(s: string, k: nat, i: nat, m: Mode)
    requires i < k < |s|
    requires !Tears(s, k, i, m) ==> k < i + Next(s, i, m).width
    ensures i + Next(s[..k], i, m).width == k
    ensures !Tears(s, k, i, m) ==> Next(s[..k], i, m).out <= Next(s, i, m).out
    ensures Tears(s, k, i, m) ==>
              Next(s[..k], i, m).out != [] && Next(s, i, m).out != [] && Next(s[..k], i, m).out[0] != Next(s, i, m).out[0]
  {
    if m == Bare && StartsLiteral(s, i) {
      WordAcrossCut(s, k, i);
    } else {
      CharAcrossCut(s, k, i, m);
    }
  }

  lemma CharAcrossCut(s: string, k: nat, i: nat, m: Mode)
    requires i < k < |s| && !(m == Bare && StartsLiteral(s, i))
    requires !Tears(s, k, i, m) ==> k < i + Next(s, i, m).width
    ensures i + Next(s[..k], i, m).width == k
    ensures !Tears(s, k, i, m) ==> Next(s[..k], i, m).out <= Next(s, i, m).out
    ensures Tears(s, k, i, m) ==> Next(s[..k], i, m).out == ['\\'] && Next(s, i, m).out == ['\'']
  {
    var p := s[..k];
    assert p[i] == s[i] && (i > 0 ==> p[i - 1] == s[i - 1]) && (i + 1 < k ==> p[i + 1] == s[i + 1]);
    hide LiteralFor, WordEnd;
  }

  lemma WordAcrossCut(s: string, k: nat, i: nat)
    requires i < k < |s| && StartsLiteral(s, i)
    requires !Tears(s, k, i, Bare) ==> k < i + Next(s, i, Bare).width
    ensures i + Next(s[..k], i, Bare).width == k
    ensures !Tears(s, k, i, Bare) ==> Next(s[..k], i, Bare).out <= Next(s, i, Bare).out
    ensures Tears(s, k, i, Bare) ==>
              Next(s[..k], i, Bare).out != [] && Next(s, i, Bare).out == [s[i]] && Next(s[..k], i, Bare).out[0] != s[i]
  {
    WordOfCut(s, k, i);
    var e, e' := WordEnd(s, i), WordEnd(s[..k], i);
    PrefixOfSlice(s, i, k, e);
    LiteralMove(s, i);
    LiteralMove(s[..k], i);
    assert s[..k][i] == s[i];
    if k <= e {
      assert e' == k;
      LiteralPrefix(s[i..k], s[i..e]);
      hide LiteralFor, WordEnd, Next;
    }
  }

  /** How a word that may be a literal is rewritten. */
  lemma LiteralMove(s: string, i: nat)
    requires i < |s| && StartsLiteral(s, i)
    ensures
      var e := WordEnd(s, i);
      var js := LiteralFor(s[i..e]);
      Next(s, i, Bare) == if js.Some? then Move(e - i, js.value, Bare) else Move(1, [s[i]], Bare)
  {
    hide LiteralFor;
  }

  lemma PrefixOfSlice(s: string, i: nat, k: nat, e: nat)
    requires i < k <= |s| && i < e <= |s|
    ensures k <= e ==> [] < s[i..k] <= s[i..e]
  {
  }

  /** The output for a cut text is an initial part of the output for the whole text exactly when the cut is clean. */
  lemma {:induction false} RewriteOfCut(s: string, k: nat, i: nat, m: Mode)
    requires i <= k < |s|
    ensures Rewrite(s[..k], i, m) <= Rewrite(s, i, m) <==> CleanCutFrom(s, k, i, m)
    decreases k - i
  {
    hide Next, Tears;
    var p := s[..k];
    if i < k {
      var r := Next(s, i, m);
      if !Tears(s, k, i, m) && i + r.width <= k {
        NextBeforeCut(s, k, i, m);
        RewriteOfCut(s, k, i + r.width, r.mode);
        SamePrefix(r.out, Rewrite(p, i + r.width, r.mode), Rewrite(s, i + r.width, r.mode));
      } else {
        NextAcrossCut(s, k, i, m);
        var t := Next(p, i, m);
        assert Rewrite(p, i, m) == t.out;
        assert Rewrite(s, i, m)[..|r.out|] == r.out;
      }
    }
  }

  lemma SamePrefix(a: string, b: string, c: string)
    ensures a + b <= a + c <==> b <= c
  {
    if b <= c {
      assert a + c == a + b + c[|b|..];
    }
    if a + b <= a + c {
      assert b == (a + b)[|a|..] == (a + c)[..|a + b|][|a|..];
      assert c[..|b|] == (a + c)[..|a + b|][|a|..];
    }
  }

  lemma NormalizeKeepsPrefixes(s: string, k: nat)
    requires k <= |s|
    ensures Normalize(s[..k]) <= Normalize(s) <==> CleanCut(s, k)
  {
    if k < |s| {
      RewriteOfCut(s, k, 0, Bare);
    } else {
      assert s[..k] == s;
    }
  }

  /** Two cuts that are not clean: in a word that begins like a literal, and behind a backslash in single quotes. */
  lemma OutputIsTakenBack()
    ensures !(Normalize("T") <= Normalize("Tx"))
    ensures !(Normalize("'\\") <= Normalize("'\\'"))
  {
    var s, t := "Tx", "'\\'";
    assert s[..1] == "T" && t[..2] == "'\\";
    assert WordEnd(s, 2) == 2 && WordEnd(s, 1) == 2 && WordEnd(s, 0) == 2;
    assert s[0..1] == "T" && s[0..2] == s && LiteralFor("T").Some?;
    assert !(s <= "True") by {
      assert "True"[1] != s[1];
    }
    assert !(s <= "False") && !(s <= "None");
    assert Tears(s, 1, 0, Bare);
    NormalizeKeepsPrefixes(s, 1);
    assert Next(t, 0, Bare) == Move(1, ['\"'], Single);
    assert Tears(t, 2, 1, Single) && !CleanCutFrom(t, 2, 1, Single);
    NormalizeKeepsPrefixes(t, 2);
  }

  /** A test on the text alone that makes a cut clean. */
  lemma OrdinaryCutIsClean(s: string, k: nat)
    requires k <= |s|
    requires forall i :: 0 <= i < |s| && StartsLiteral(s, i) ==> LiteralFor(s[i..WordEnd(s, i)]).Some?
    requires 0 < k < |s| ==> !(s[k - 1] == '\\' && s[k] == '\'')
    ensures CleanCut(s, k)
  {
    if k < |s| {
      OrdinaryCutIsCleanFrom(s, k, 0, Bare);
    }
  }

  lemma {:induction false} OrdinaryCutIsCleanFrom(s: string, k: nat, i: nat, m: Mode)
    requires i <= |s| && k < |s|
    requires forall i :: 0 <= i < |s| && StartsLiteral(s, i) ==> LiteralFor(s[i..WordEnd(s, i)]).Some?
    requires 0 < k ==> !(s[k - 1] == '\\' && s[k] == '\'')
    ensures CleanCutFrom(s, k, i, m)
    decreases |s| - i
  {
    if i < k {
      OrdinaryCutIsCleanFrom(s, k, i + Next(s, i, m).width, Next(s, i, m).mode);
    }
  }

  // ----- Meaning --------------------------------------------------------------

  /** The characters a Python string body denotes, for the escapes Python shares with JSON and `\'`. */
  function PyDecode(s: string): Option<string>
    decreases |s|
  {
    if s == [] then Some([])
    else if s[0] == '\\' then
      if |s| > 1 && s[1] == '\'' then Push('\'', PyDecode(s[2..]))
      else if |s| > 1 && s[1] == '/' then None
      else
        match DecodeEscape(s)
        case None => None
        case Some((c, n)) => Push(c, PyDecode(s[n..]))
    else if s[0] == '\'' || s[0] < ' ' then None
    else Push(s[0], PyDecode(s[1..]))
  }

  // ----- The escapes of Python ------------------------------------------------

  predicate IsOctal(c: char) { '0' <= c <= '7' }

  /** Up to three octal digits behind the backslash, and the end of them. */
  function OctalEscape(s: string): (r: (string, nat))
    requires |s| >= 2 && IsOctal(s[1])
    ensures 2 <= r.1 <= |s|
  {
    var first := (s[1] - '0') as nat;
    if |s| == 2 || !IsOctal(s[2]) then ([first as char], 2)
    else
      var second := 8 * first + (s[2] - '0') as nat;
      if |s| == 3 || !IsOctal(s[3]) then ([second as char], 3)
      else ([(8 * second + (s[3] - '0') as nat) as char], 4)
  }

  function HexNumber(s: string): Option<nat> {
    if s == [] then Some(0)
    else
      match (HexNumber(s[..|s| - 1]), HexValue(s[|s| - 1]))
      case (Some(n), Some(d)) => Some(16 * n + d)
      case _ => None
  }

  /** A character given by the `k` hexadecimal digits behind a backslash and a letter. */
  function HexEscape(s: string, k: nat): (r: Option<(string, nat)>)
    ensures r.Some? ==> r.value.1 == 2 + k <= |s| && |r.value.0| == 1
  {
    if |s| < 2 + k then None
    else
      match HexNumber(s[2..2 + k])
      case None => None
      case Some(n) =>
        if 0xD800 <= n < 0xE000 || n >= 0x110000 then None else Some(([n as char], 2 + k))
  }

  function LetterEscape(c: char): Option<char> {
    if c == '\'' || c == '\"' || c == '\\' then Some(c)
    else if c == 'a' then Some('\U{0007}')
    else if c == 'b' then Some('\U{0008}')
    else if c == 'f' then Some('\U{000C}')
    else if c == 'n' then Some('\n')
    else if c == 'r' then Some('\r')
    else if c == 't' then Some('\t')
    else if c == 'v' then Some('\U{000B}')
    else None
  }

  /** What an escape means in a Python string; an unknown one means itself. Names of characters are not looked up. */
  function PyEscape(s: string): (r: Option<(string, nat)>)
    requires |s| >= 2 && s[0] == '\\'
    ensures r.Some? ==> 2 <= r.value.1 <= |s|
  {
    var c := s[1];
    if LetterEscape(c).Some? then Some(([LetterEscape(c).value], 2))
    else if c == '\n' then Some(([], 2))
    else if IsOctal(c) then Some(OctalEscape(s))
    else if c == 'x' then HexEscape(s, 2)
    else if c == 'u' then HexEscape(s, 4)
    else if c == 'U' then HexEscape(s, 8)
    else if c == 'N' then None
    else Some((s[..2], 2))
  }

  /** The characters a Python string body between two such quotes denotes. */
  function PyMeaning(s: string, quote: char): Option<string>
    decreases |s|
  {
    if s == [] then Some([])
    else if s[0] == '\\' then
      if |s| < 2 then None
      else
        match PyEscape(s)
        case None => None
        case Some((text, n)) => Join(text, PyMeaning(s[n..], quote))
    else if s[0] == quote || s[0] == '\n' || s[0] == '\r' then None
    else Push(s[0], PyMeaning(s[1..], quote))
  }

  function Join(text: string, rest: Option<string>): Option<string> {
    if rest.Some? then Some(text + rest.value) else None
  }

  /**
   Every escape is one that Python and JSON share, or `\'` between single quotes; `\/` is not shared,
   as Python keeps its backslash; and no control character stands for itself.
   */
  predicate SharedEscapes(s: string, quote: char)
    decreases |s|
  {
    if s == [] then true
    else if s[0] == '\\' then
      |s| > 1 &&
      if s[1] == '\'' then quote == '\'' && SharedEscapes(s[2..], quote)
      else s[1] != '/' && DecodeEscape(s).Some? && SharedEscapes(s[DecodeEscape(s).value.1..], quote)
    else s[0] >= ' ' && SharedEscapes(s[1..], quote)
  }

  /** A single-quoted body as the rewriter leaves it. */
  function Requote(s: string): string
    decreases |s|
  {
    if s == [] then []
    else if s[0] == '\\' && |s| > 1 then
      (if s[1] == '\'' then ['\''] else ['\\', s[1]]) + Requote(s[2..])
    else (if s[0] == '\"' then ['\\', '\"'] else [s[0]]) + Requote(s[1..])
  }

  lemma RequoteUnicode(s: string, code: string)
    requires |code| == 4 && forall i :: 0 <= i < 4 ==> HexValue(code[i]).Some?
    ensures Requote(code + s) == code + Requote(s)
  {
    assert (code + s)[1..][1..][1..][1..] == s;
    assert (code + s)[1..][0] == code[1] && (code + s)[1..][1..][0] == code[2] && (code + s)[1..][1..][1..][0] == code[3];
    var t3 := (code + s)[1..][1..][1..];
    var t2 := (code + s)[1..][1..];
    var t1 := (code + s)[1..];
    assert Requote(t3) == [code[3]] + Requote(s);
    assert Requote(t2) == [code[2]] + Requote(t3);
    assert Requote(t1) == [code[1]] + Requote(t2);
  }

  /** A body that means something in Python means the same in JSON once requoted. */
  lemma {:induction false} RequoteKeepsMeaning(s: string)
    requires PyDecode(s).Some?
    ensures Decode(Requote(s)) == PyDecode(s)
    decreases |s|
  {
    if s == [] {
    } else if s[0] == '\\' && s[1] == '\'' {
      RequoteKeepsMeaning(s[2..]);
      assert Requote(s)[1..] == Requote(s[2..]);
    } else if s[0] == '\\' {
      RequoteKeepsMeaning(s[DecodeEscape(s).value.1..]);
      RequoteEscape(s);
    } else if s[0] == '\"' {
      RequoteKeepsMeaning(s[1..]);
      assert Requote(s)[2..] == Requote(s[1..]);
    } else {
      RequoteKeepsMeaning(s[1..]);
      assert Requote(s)[1..] == Requote(s[1..]);
    }
  }

  /** The escapes JSON knows, solidus apart, mean the same in Python. */
  lemma SharedEscapeMeans(s: string)
    requires |s| >= 2 && s[0] == '\\' && s[1] != '/' && DecodeEscape(s).Some?
    ensures var d := DecodeEscape(s).value; PyEscape(s) == Some(([d.0], d.1))
  {
    if s[1] == 'u' {
      FourDigits(s[2..6]);
      assert HexEscape(s, 4) == Some(([DecodeEscape(s).value.0], 6));
    }
  }

  lemma FourDigits(s: string)
    requires |s| == 4
    ensures HexNumber(s).Some? <==> forall i :: 0 <= i < 4 ==> HexValue(s[i]).Some?
    ensures HexNumber(s).Some? ==>
              HexNumber(s).value == ((HexValue(s[0]).value * 16 + HexValue(s[1]).value) * 16 + HexValue(s[2]).value) * 16
                                    + HexValue(s[3]).value
  {
    hide HexValue;
    assert s[..3][..2] == s[..2] && s[..2][..1] == s[..1] && s[..1][..0] == [];
    assert HexNumber([]) == Some(0);
    assert HexNumber(s[..1]) == HexValue(s[0]);
    assert HexNumber(s[..2]) == if HexNumber(s[..1]).None? || HexValue(s[1]).None? then None
                                else Some(16 * HexNumber(s[..1]).value + HexValue(s[1]).value);
    assert HexNumber(s[..3]) == if HexNumber(s[..2]).None? || HexValue(s[2]).None? then None
                                else Some(16 * HexNumber(s[..2]).value + HexValue(s[2]).value);
  }

  /** An escape JSON does not know is none of those that Python reads as JSON would. */
  lemma UnknownToJson(s: string)
    requires |s| >= 2 && s[0] == '\\' && s[1] != '\'' && DecodeEscape(s).None? && PyEscape(s).Some?
    ensures DecodeEscape(Requote(s)) == None
  {
    hide *;
    if s[1] == 'u' {
      FourDigitsAreKnown(s);
    }
    RequoteStart(s);
    ShortEscapeDecides(s, Requote(s));
  }

  lemma RequoteStart(s: string)
    requires |s| >= 2 && s[0] == '\\' && s[1] != '\''
    ensures |Requote(s)| >= 2 && Requote(s)[0] == '\\' && Requote(s)[1] == s[1]
  {
  }

  lemma ShortEscapeDecides(s: string, t: string)
    requires |s| >= 2 && |t| >= 2 && s[0] == t[0] == '\\' && s[1] == t[1] != 'u'
    ensures DecodeEscape(s).None? <==> DecodeEscape(t).None?
  {
  }

  lemma FourDigitsAreKnown(s: string)
    requires |s| >= 2 && s[0] == '\\' && s[1] == 'u' && PyEscape(s).Some?
    ensures DecodeEscape(s).Some?
  {
    var code := s[2..6];
    FourDigits(code);
    assert code[0] == s[2] && code[1] == s[3] && code[2] == s[4] && code[3] == s[5];
    hide HexNumber, HexValue;
  }

  /** Where Python's meaning and a decoder that knows the shared escapes agree on what is shared. */
  lemma {:induction false} SharedIsDecoded(s: string)
    requires PyMeaning(s, '\'').Some? && SharedEscapes(s, '\'')
    ensures PyDecode(s) == PyMeaning(s, '\'')
    decreases |s|
  {
    if s != [] && s[0] == '\\' {
      if s[1] == '\'' {
        SharedIsDecoded(s[2..]);
      } else {
        SharedEscapeMeans(s);
        SharedIsDecoded(s[DecodeEscape(s).value.1..]);
      }
    } else if s != [] {
      SharedIsDecoded(s[1..]);
    }
  }

  /**
   A single-quoted Python body, requoted, decodes as JSON to what it means in Python exactly when all of
   its escapes are shared.
   */
  lemma {:induction false} RequoteKeepsMeaningExactly(s: string)
    requires PyMeaning(s, '\'').Some?
    ensures Decode(Requote(s)) == PyMeaning(s, '\'') <==> SharedEscapes(s, '\'')
  {
    if SharedEscapes(s, '\'') {
      SharedIsDecoded(s);
      RequoteKeepsMeaning(s);
    } else {
      UnsharedIsLost(s);
    }
  }

  lemma {:induction false} UnsharedIsLost(s: string)
    requires PyMeaning(s, '\'').Some? && !SharedEscapes(s, '\'')
    ensures Decode(Requote(s)) != PyMeaning(s, '\'')
    decreases |s|
  {
    if s[0] == '\\' {
      UnsharedEscapeIsLost(s);
    } else if s[0] >= ' ' {
      UnsharedIsLost(s[1..]);
      var n := if s[0] == '\"' then 2 else 1;
      assert Requote(s)[n..] == Requote(s[1..]);
      PushDiffers(s[0], Decode(Requote(s[1..])), PyMeaning(s[1..], '\''));
    }
  }

  lemma PushDiffers(c: char, x: Option<string>, y: Option<string>)
    requires x != y && y.Some?
    ensures Push(c, x) != Push(c, y) && Push(c, x) != Join([c], y)
  {
    if x.Some? {
      assert ([c] + x.value)[1..] == x.value && ([c] + y.value)[1..] == y.value;
    }
  }

  lemma UnsharedEscapeIsLost(s: string)
    requires PyMeaning(s, '\'').Some? && !SharedEscapes(s, '\'') && s[0] == '\\'
    ensures Decode(Requote(s)) != PyMeaning(s, '\'')
    decreases |s|, 0
  {
    assert |s| >= 2;
    hide SharedEscapes;
    if s[1] == '\'' {
      UnsharedTail(s, 2);
      UnsharedIsLost(s[2..]);
      assert Requote(s)[1..] == Requote(s[2..]);
      PushDiffers('\'', Decode(Requote(s[2..])), PyMeaning(s[2..], '\''));
    } else if DecodeEscape(s).None? {
      UnknownToJson(s);
      assert Requote(s)[0] == '\\';
    } else if s[1] == '/' {
      RequoteEscape(s);
      SolidusKeepsBackslash(s, '\'');
    } else {
      var d := DecodeEscape(s).value;
      SharedEscapeMeans(s);
      UnsharedTail(s, d.1);
      UnsharedIsLost(s[d.1..]);
      RequoteEscape(s);
      PushDiffers(d.0, Decode(Requote(s[d.1..])), PyMeaning(s[d.1..], '\''));
    }
  }

  lemma UnsharedTail(s: string, n: nat)
    requires |s| >= 2 && s[0] == '\\' && !SharedEscapes(s, '\'') && s[1] != '/'
    requires if s[1] == '\'' then n == 2 else DecodeEscape(s).Some? && n == DecodeEscape(s).value.1
    ensures n <= |s| && !SharedEscapes(s[n..], '\'')
  {
  }

  /** `\/` is two characters to Python and one to JSON. */
  lemma SolidusKeepsBackslash(s: string, quote: char)
    requires |s| >= 2 && s[0] == '\\' && s[1] == '/' && PyMeaning(s, quote).Some?
    ensures PyMeaning(s, quote).value != [] && PyMeaning(s, quote).value[0] == '\\'
    ensures DecodeEscape(s) == Some(('/', 2))
  {
    assert PyEscape(s) == Some((s[..2], 2));
  }

  /** A double-quoted body is copied, and means the same in JSON exactly when all of its escapes are shared. */
  lemma {:induction false} CopyKeepsMeaningExactly(s: string)
    requires PyMeaning(s, '\"').Some?
    ensures Decode(s) == PyMeaning(s, '\"') <==> SharedEscapes(s, '\"')
    decreases |s|
  {
    if s == [] {
    } else if s[0] == '\\' {
      CopiedEscape(s);
    } else if s[0] >= ' ' {
      CopyKeepsMeaningExactly(s[1..]);
      if Decode(s[1..]) != PyMeaning(s[1..], '\"') {
        PushDiffers(s[0], Decode(s[1..]), PyMeaning(s[1..], '\"'));
      }
    }
  }

  lemma CopiedEscape(s: string)
    requires PyMeaning(s, '\"').Some? && s != [] && s[0] == '\\'
    ensures Decode(s) == PyMeaning(s, '\"') <==> SharedEscapes(s, '\"')
    decreases |s|, 0
  {
    if DecodeEscape(s).None? || s[1] == '\'' {
      assert DecodeEscape(s).None?;
    } else if s[1] == '/' {
      SolidusKeepsBackslash(s, '\"');
      assert Decode(s).Some? ==> Decode(s).value[0] == '/';
    } else {
      var d := DecodeEscape(s).value;
      SharedEscapeMeans(s);
      CopyKeepsMeaningExactly(s[d.1..]);
      if Decode(s[d.1..]) != PyMeaning(s[d.1..], '\"') {
        PushDiffers(d.0, Decode(s[d.1..]), PyMeaning(s[d.1..], '\"'));
      }
    }
  }

  /** An escape JSON knows is copied as it stands. */
  lemma RequoteEscape(s: string)
    requires |s| >= 2 && s[0] == '\\' && s[1] != '\'' && DecodeEscape(s).Some?
    ensures var n := DecodeEscape(s).value.1;
            && |Requote(s)| >= n && Requote(s)[0] == '\\' && Requote(s)[n..] == Requote(s[n..])
            && DecodeEscape(Requote(s)) == DecodeEscape(s)
  {
    assert Requote(s) == s[..2] + Requote(s[2..]);
    if DecodeEscape(s).value.1 == 6 {
      RequoteLongEscape(s);
    } else {
      assert Requote(s)[..2] == s[..2];
      EscapeAtFront(s, Requote(s), 2);
    }
  }

  lemma RequoteLongEscape(s: string)
    requires |s| >= 2 && s[0] == '\\' && s[1] != '\'' && Requote(s) == s[..2] + Requote(s[2..]) && DecodeEscape(s).Some? && DecodeEscape(s).value.1 == 6
    ensures |Requote(s)| >= 6 && Requote(s)[0] == '\\' && Requote(s)[6..] == Requote(s[6..])
    ensures DecodeEscape(Requote(s)) == DecodeEscape(s)
  {
    var code, tail := s[2..6], s[6..];
    LongEscapeDigits(s);
    hide DecodeEscape, HexValue;
    RequoteUnicode(tail, code);
    LongEscapeText(s, code, tail, Requote(tail));
    hide Requote;
    EscapeAtFront(s, s[..6] + Requote(tail), 6);
  }

  lemma LongEscapeDigits(s: string)
    requires |s| >= 2 && s[0] == '\\' && DecodeEscape(s).Some? && DecodeEscape(s).value.1 == 6
    ensures forall i :: 0 <= i < 4 ==> HexValue(s[2..6][i]).Some?
  {
  }

  lemma LongEscapeText(s: string, code: string, tail: string, out: string)
    requires |s| >= 6 && code == s[2..6] && tail == s[6..]
    ensures s[2..] == code + tail && s[..2] + (code + out) == s[..6] + out
    ensures (s[..6] + out)[..6] == s[..6] && (s[..6] + out)[6..] == out
  {
  }

  /** An escape is decoded from its own characters alone. */
  lemma EscapeAtFront(s: string, t: string, n: nat)
    requires |s| >= 2 && s[0] == '\\' && DecodeEscape(s).Some? && DecodeEscape(s).value.1 == n
    requires |t| >= n && t[0] == '\\' && t[..n] == s[..n]
    ensures DecodeEscape(t) == DecodeEscape(s)
  {
    assert forall i :: 0 <= i < n ==> t[i] == t[..n][i] == s[i];
    if n == 6 {
      assert t[2..6] == s[2..6];
    }
  }

  // ----- Quoted strings in the rewriter ---------------------------------------

  /** Every backslash stands before a character, and the quote only behind a backslash. */
  predicate Protected(s: string, quote: char)
    decreases |s|
  {
    if s == [] then true
    else if s[0] == '\\' then |s| > 1 && Protected(s[2..], quote)
    else s[0] != quote && Protected(s[1..], quote)
  }

  /** Characters that are neither backslash nor quote can be put in front. */
  lemma {:induction false} PlainFront(s: string, quote: char, n: nat)
    requires n <= |s| && Protected(s[n..], quote)
    requires forall i :: 0 <= i < n ==> s[i] != '\\' && s[i] != quote
    ensures Protected(s, quote)
    decreases n
  {
    if n > 0 {
      assert s[1..][n - 1..] == s[n..];
      PlainFront(s[1..], quote, n - 1);
    }
  }

  /** What an escape needs beyond its second character are digits. */
  lemma EscapeTailIsPlain(s: string, i: nat)
    requires |s| >= 2 && s[0] == '\\' && PyEscape(s).Some? && 2 <= i < PyEscape(s).value.1
    ensures s[i] != '\\' && s[i] != '\'' && s[i] != '\"'
  {
    if !IsOctal(s[1]) && LetterEscape(s[1]).None? && s[1] != '\n' {
      var k := PyEscape(s).value.1 - 2;
      DigitsOnly(s[2..2 + k], i - 2);
    }
  }

  lemma {:induction false} DigitsOnly(s: string, i: nat)
    requires HexNumber(s).Some? && i < |s|
    ensures HexValue(s[i]).Some?
    decreases |s|
  {
    if i < |s| - 1 {
      DigitsOnly(s[..|s| - 1], i);
    }
  }

  /** A body that means something in Python is one the rewriter reads to its end. */
  lemma {:induction false} MeaningfulIsProtected(s: string, quote: char)
    requires PyMeaning(s, quote).Some? && (quote == '\'' || quote == '\"')
    ensures Protected(s, quote)
    decreases |s|
  {
    if s != [] && s[0] == '\\' {
      var n := PyEscape(s).value.1;
      MeaningfulIsProtected(s[n..], quote);
      var tail := s[2..];
      assert tail[n - 2..] == s[n..];
      forall i | 0 <= i < n - 2 ensures tail[i] != '\\' && tail[i] != quote {
        EscapeTailIsPlain(s, i + 2);
      }
      PlainFront(tail, quote, n - 2);
    } else if s != [] {
      MeaningfulIsProtected(s[1..], quote);
    }
  }

  /** Inside single quotes the rewriter requotes the body and stops at the quote after it. */
  lemma {:induction false} RewriteSingle(s: string, i: nat, body: string)
    requires i + |body| < |s| && s[i..i + |body|] == body && s[i + |body|] == '\''
    requires Protected(body, '\'')
    ensures Rewrite(s, i, Single) == Requote(body) + Rewrite(s, i + |body|, Single)
    decreases |body|
  {
    if body != [] {
      assert s[i] == body[0];
      var n := if body[0] == '\\' then 2 else 1;
      assert n == 2 ==> s[i + 1] == body[1];
      var out := Next(s, i, Single).out;
      assert Next(s, i, Single) == Move(n, out, Single);
      assert Requote(body) == out + Requote(body[n..]);
      var rest := body[n..];
      SliceTail(s, i, body, n);
      RewriteSingle(s, i + n, rest);
      hide Next, Requote, Rewrite, Protected;
      RewriteStep(s, i, Single);
      Reassociate(out, Requote(rest), Rewrite(s, i + |body|, Single));
    }
  }

  lemma SliceTail(s: string, i: nat, body: string, n: nat)
    requires i + |body| <= |s| && s[i..i + |body|] == body && n <= |body|
    ensures s[i + n..i + n + |body[n..]|] == body[n..]
  {
    assert s[i + n..i + |body|] == s[i..i + |body|][n..];
  }

  /** A lexical piece of a Python value. */
  datatype Token =
    | SingleQuoted(body: string)
    | DoubleQuoted(body: string)
    | Word(word: string)
    | Symbol(c: char)

  function PyText(t: Token): string {
    match t
    case SingleQuoted(body) => ['\''] + body + ['\'']
    case DoubleQuoted(body) => ['\"'] + body + ['\"']
    case Word(w) => w
    case Symbol(c) => [c]
  }

  /** The piece is one the rewriter is meant for: a decodable string, a word, or a character of neither. */
  predicate Proper(t: Token) {
    match t
    case SingleQuoted(body) => PyMeaning(body, '\'').Some? && SharedEscapes(body, '\'')
    case DoubleQuoted(body) => PyMeaning(body, '\"').Some? && SharedEscapes(body, '\"')
    case Word(w) => w != [] && forall i :: 0 <= i < |w| ==> IsWordChar(w[i])
    case Symbol(c) => !IsWordChar(c) && c != '\'' && c != '\"'
  }

  /** Words are read whole. */
  ghost predicate WellFormed(ts: seq<Token>) {
    && (forall i :: 0 <= i < |ts| ==> Proper(ts[i]))
    && (forall i :: 0 <= i < |ts| - 1 ==> !(ts[i].Word? && ts[i + 1].Word?))
  }

  function PyTexts(ts: seq<Token>): string {
    if ts == [] then [] else PyText(ts[0]) + PyTexts(ts[1..])
  }

  /**
   `text` is JSON for the piece: the same characters in a JSON string; as much of a JSON literal as there is of the
   Python one; any other word and character as it is.
   */
  predicate JsonFor(t: Token, text: string) {
    match t
    case SingleQuoted(body) =>
      |text| >= 2 && text[0] == '\"' && text[|text| - 1] == '\"'
      && PyMeaning(body, '\'').Some? && Decode(text[1..|text| - 1]) == PyMeaning(body, '\'')
    case DoubleQuoted(body) =>
      |text| >= 2 && text[0] == '\"' && text[|text| - 1] == '\"'
      && PyMeaning(body, '\"').Some? && Decode(text[1..|text| - 1]) == PyMeaning(body, '\"')
    case Word(w) =>
      text == (if w <= "True" then "true"[..|w|] else if w <= "False" then "false"[..|w|]
               else if w <= "None" then "null"[..|w|] else w)
    case Symbol(c) => text == [c]
  }

  function Concat(texts: seq<string>): string {
    if texts == [] then [] else texts[0] + Concat(texts[1..])
  }

  function JsonOf(t: Token): string {
    match t
    case SingleQuoted(body) => ['\"'] + Requote(body) + ['\"']
    case DoubleQuoted(body) => ['\"'] + body + ['\"']
    case Word(w) => match LiteralFor(w) { case Some(js) => js case None => w }
    case Symbol(c) => [c]
  }

  lemma JsonOfIsJson(t: Token)
    requires Proper(t)
    ensures JsonFor(t, JsonOf(t))
  {
    match t
    case SingleQuoted(body) =>
      RequoteKeepsMeaningExactly(body);
      assert JsonOf(t)[1..|JsonOf(t)| - 1] == Requote(body);
    case DoubleQuoted(body) =>
      CopyKeepsMeaningExactly(body);
      assert JsonOf(t)[1..|JsonOf(t)| - 1] == body;
    case _ =>
  }

  function JsonOfAll(ts: seq<Token>): string {
    if ts == [] then [] else JsonOf(ts[0]) + JsonOfAll(ts[1..])
  }

  lemma {:induction false} JsonOfAllIsConcat(ts: seq<Token>)
    ensures JsonOfAll(ts) == Concat(JsonTexts(ts))
  {
    if ts != [] {
      JsonOfAllIsConcat(ts[1..]);
      assert JsonTexts(ts)[1..] == JsonTexts(ts[1..]);
    }
  }

  function JsonTexts(ts: seq<Token>): (texts: seq<string>)
    ensures |texts| == |ts| && forall i :: 0 <= i < |ts| ==> texts[i] == JsonOf(ts[i])
  {
    seq(|ts|, i requires 0 <= i < |ts| => JsonOf(ts[i]))
  }

  /** Inside double quotes the body is copied and the rewriter stops at the quote after it. */
  lemma {:induction false} RewriteDouble(s: string, i: nat, body: string)
    requires i + |body| < |s| && s[i..i + |body|] == body && s[i + |body|] == '\"'
    requires Protected(body, '\"')
    ensures Rewrite(s, i, Double) == body + Rewrite(s, i + |body|, Double)
    decreases |body|
  {
    if body != [] {
      assert s[i] == body[0];
      var n := if body[0] == '\\' then 2 else 1;
      assert n == 2 ==> s[i + 1] == body[1];
      assert Next(s, i, Double) == Move(n, body[..n], Double);
      SliceTail(s, i, body, n);
      RewriteDouble(s, i + n, body[n..]);
      hide Next, Rewrite, Protected;
      RewriteStep(s, i, Double);
      Reassociate(body[..n], body[n..], Rewrite(s, i + |body|, Double));
      assert body[..n] + body[n..] == body;
    }
  }

  lemma {:induction false} WordEndAt(s: string, i: nat, e: nat)
    requires i <= e <= |s|
    requires forall j :: i <= j < e ==> IsWordChar(s[j])
    requires e < |s| ==> !IsWordChar(s[e])
    ensures WordEnd(s, i) == e
    decreases e - i
  {
    if i < e {
      WordEndAt(s, i + 1, e);
    }
  }

  lemma RewriteWord(s: string, i: nat, w: string)
    requires Proper(Word(w))
    requires i + |w| <= |s| && s[i..i + |w|] == w
    requires i == 0 || !IsWordChar(s[i - 1])
    requires i + |w| < |s| ==> !IsWordChar(s[i + |w|])
    ensures Rewrite(s, i, Bare) == JsonOf(Word(w)) + Rewrite(s, i + |w|, Bare)
  {
    assert forall j :: i <= j < i + |w| ==> s[j] == w[j - i];
    WordEndAt(s, i, i + |w|);
    hide Rewrite, IsWordChar, LiteralFor;
    if LiteralFor(w).Some? {
      LiteralStart(w);
      assert s[i] == w[0];
      LiteralMove(s, i);
      hide Next;
      RewriteStep(s, i, Bare);
    } else {
      RewritePlainWord(s, i, w);
    }
  }

  lemma RewritePlainWord(s: string, i: nat, w: string)
    requires i < |s| && i < WordEnd(s, i) && s[i..WordEnd(s, i)] == w && LiteralFor(w).None?
    ensures Rewrite(s, i, Bare) == w + Rewrite(s, WordEnd(s, i), Bare)
  {
    var e := WordEnd(s, i);
    assert IsWordChar(s[i]);
    RewriteInWord(s, i + 1, e);
    hide IsWordChar, LiteralFor, WordEnd, Rewrite;
    PlainWordMove(s, i, w);
    hide Next;
    RewriteStep(s, i, Bare);
    FirstAndRest(s, i, e);
    Reassociate([s[i]], s[i + 1..e], Rewrite(s, e, Bare));
  }

  lemma FirstAndRest(s: string, i: nat, e: nat)
    requires i < e <= |s|
    ensures s[i..e] == [s[i]] + s[i + 1..e]
  {
  }

  lemma LiteralStart(w: string)
    requires w != [] && LiteralFor(w).Some?
    ensures w[0] in {'T', 'F', 'N'}
  {
    assert w[0] == "True"[0] || w[0] == "False"[0] || w[0] == "None"[0];
  }

  /** A word that begins no literal is read one character at a time. */
  lemma PlainWordMove(s: string, i: nat, w: string)
    requires i < |s| && IsWordChar(s[i]) && s[i..WordEnd(s, i)] == w && LiteralFor(w).None?
    ensures Next(s, i, Bare) == Move(1, [s[i]], Bare)
  {
    assert s[i] != '\\' && s[i] != '\"' && s[i] != '\'';
    hide LiteralFor, WordEnd, IsWordChar;
  }

  /** Behind its first character a word is copied to its end. */
  lemma {:induction false} RewriteInWord(s: string, i: nat, e: nat)
    requires 0 < i <= e <= |s| && forall j :: i - 1 <= j < e ==> IsWordChar(s[j])
    ensures Rewrite(s, i, Bare) == s[i..e] + Rewrite(s, e, Bare)
    decreases e - i
  {
    if i == e {
      assert s[i..e] == [];
    } else {
      InWordMove(s, i);
      RewriteInWord(s, i + 1, e);
      hide Next, Rewrite, IsWordChar;
      RewriteStep(s, i, Bare);
      FirstAndRest(s, i, e);
      Reassociate([s[i]], s[i + 1..e], Rewrite(s, e, Bare));
    }
  }

  lemma InWordMove(s: string, i: nat)
    requires 0 < i < |s| && IsWordChar(s[i - 1]) && IsWordChar(s[i])
    ensures Next(s, i, Bare) == Move(1, [s[i]], Bare)
  {
    hide LiteralFor, WordEnd;
  }

  lemma RewriteBetweenQuotes(s: string, i: nat, n: nat, mode: Mode, inner: string)
    requires i + n + 1 < |s|
    requires Next(s, i, Bare) == Move(1, ['\"'], mode)
    requires Rewrite(s, i + 1, mode) == inner + Rewrite(s, i + 1 + n, mode)
    requires Next(s, i + 1 + n, mode) == Move(1, ['\"'], Bare)
    ensures Rewrite(s, i, Bare) == (['\"'] + inner + ['\"']) + Rewrite(s, i + n + 2, Bare)
  {
    hide Next, Rewrite;
    RewriteStep(s, i, Bare);
    RewriteStep(s, i + 1 + n, mode);
    Regroup(['\"'], inner, Rewrite(s, i + n + 2, Bare));
  }

  lemma RewriteStep(s: string, i: nat, m: Mode)
    requires i < |s|
    ensures Rewrite(s, i, m) == Next(s, i, m).out + Rewrite(s, i + Next(s, i, m).width, Next(s, i, m).mode)
  {
    hide Next;
  }

  lemma Regroup(q: string, inner: string, rest: string)
    ensures q + (inner + (q + rest)) == (q + inner + q) + rest
  {
  }

  lemma Subslice(s: string, a: nat, b: nat, c: nat, d: nat)
    requires a <= b <= |s| && c <= d <= b - a
    ensures s[a..b][c..d] == s[a + c..a + d]
  {
    assert forall k :: 0 <= k < d - c ==> s[a..b][c..d][k] == s[a..b][c + k] == s[a + c + k];
  }

  lemma QuotedAt(s: string, i: nat, quote: char, body: string)
    requires i + |body| + 2 <= |s| && s[i..i + |body| + 2] == [quote] + body + [quote]
    ensures s[i] == quote && s[i + 1 + |body|] == quote && s[i + 1..i + 1 + |body|] == body
  {
    var t, n := s[i..i + |body| + 2], |body|;
    assert s[i] == t[0] && s[i + 1 + n] == t[1 + n];
    assert t[1..1 + n] == body;
    Subslice(s, i, i + n + 2, 1, 1 + n);
  }

  /** A quote opens a string of its kind and closes it. */
  lemma QuoteMoves(s: string, i: nat, quote: char, mode: Mode)
    requires i < |s| && s[i] == quote
    requires (quote == '\'' && mode == Single) || (quote == '\"' && mode == Double)
    ensures Next(s, i, Bare) == Move(1, ['\"'], mode)
    ensures Next(s, i, mode) == Move(1, ['\"'], Bare)
  {
  }

  lemma RewriteSingleQuoted(s: string, i: nat, body: string)
    requires i + |body| + 2 <= |s| && s[i..i + |body| + 2] == ['\''] + body + ['\'']
    requires Protected(body, '\'')
    ensures Rewrite(s, i, Bare) == (['\"'] + Requote(body) + ['\"']) + Rewrite(s, i + |body| + 2, Bare)
  {
    hide Rewrite, Protected, Requote;
    QuotedAt(s, i, '\'', body);
    RewriteSingle(s, i + 1, body);
    QuoteMoves(s, i, '\'', Single);
    QuoteMoves(s, i + 1 + |body|, '\'', Single);
    hide Next;
    RewriteBetweenQuotes(s, i, |body|, Single, Requote(body));
  }

  lemma RewriteDoubleQuoted(s: string, i: nat, body: string)
    requires i + |body| + 2 <= |s| && s[i..i + |body| + 2] == ['\"'] + body + ['\"']
    requires Protected(body, '\"')
    ensures Rewrite(s, i, Bare) == (['\"'] + body + ['\"']) + Rewrite(s, i + |body| + 2, Bare)
  {
    hide Rewrite, Protected;
    QuotedAt(s, i, '\"', body);
    RewriteDouble(s, i + 1, body);
    QuoteMoves(s, i, '\"', Double);
    QuoteMoves(s, i + 1 + |body|, '\"', Double);
    hide Next;
    RewriteBetweenQuotes(s, i, |body|, Double, body);
  }

  /** A quoted Python string is rewritten to a JSON string around its requoted body. */
  lemma NormalizeSingleQuoted(body: string)
    requires Protected(body, '\'')
    ensures Normalize(['\''] + body + ['\'']) == ['\"'] + Requote(body) + ['\"']
  {
    var s := ['\''] + body + ['\''];
    assert s[0..0 + |body| + 2] == s;
    RewriteSingleQuoted(s, 0, body);
    RewriteToEnd(s, |body| + 2);
    assert (['\"'] + Requote(body) + ['\"']) + [] == ['\"'] + Requote(body) + ['\"'];
  }

  lemma NormalizeDoubleQuoted(body: string)
    requires Protected(body, '\"')
    ensures Normalize(['\"'] + body + ['\"']) == ['\"'] + body + ['\"']
  {
    var s := ['\"'] + body + ['\"'];
    assert s[0..0 + |body| + 2] == s;
    RewriteDoubleQuoted(s, 0, body);
    RewriteToEnd(s, |body| + 2);
    assert (['\"'] + body + ['\"']) + [] == ['\"'] + body + ['\"'];
  }

  lemma RewriteToEnd(s: string, i: nat)
    requires i == |s|
    ensures Rewrite(s, i, Bare) == []
  {
  }

  /** The characters of a JSON string text; None where the text is not one. */
  function JsonMeaning(text: string): Option<string> {
    if |text| >= 2 && text[0] == '\"' && text[|text| - 1] == '\"' then Decode(text[1..|text| - 1]) else None
  }

  /** A Python string is rewritten to the JSON string with its meaning exactly when all of its escapes are shared. */
  lemma NormalizedStringMeansTheSameExactly(body: string, quote: char)
    requires (quote == '\'' || quote == '\"') && PyMeaning(body, quote).Some?
    ensures JsonMeaning(Normalize([quote] + body + [quote])) == PyMeaning(body, quote) <==> SharedEscapes(body, quote)
  {
    MeaningfulIsProtected(body, quote);
    hide Normalize, Requote, Decode, PyMeaning, SharedEscapes, Protected;
    if quote == '\'' {
      NormalizeSingleQuoted(body);
      QuotedMeaning(Requote(body));
      RequoteKeepsMeaningExactly(body);
    } else {
      NormalizeDoubleQuoted(body);
      QuotedMeaning(body);
      CopyKeepsMeaningExactly(body);
    }
  }

  lemma QuotedMeaning(inner: string)
    ensures JsonMeaning(['\"'] + inner + ['\"']) == Decode(inner)
  {
    hide Decode;
    var text := ['\"'] + inner + ['\"'];
    assert text[1..|text| - 1] == inner;
  }

  /** Two strings that lose their meaning: one whose rewriting is no JSON string, and one that loses a backslash. */
  lemma MeaningIsLost()
    ensures
      var body := ['\\', 'x', '4', '1'];
      PyMeaning(body, '\'') == Some("A") && JsonMeaning(Normalize(['\''] + body + ['\''])) == None
    ensures
      var body := ['\\', '/'];
      PyMeaning(body, '\'') == Some(body) && JsonMeaning(Normalize(['\''] + body + ['\''])) == Some("/")
  {
    HexMeaning(['\\', 'x', '4', '1']);
    SolidusMeaning(['\\', '/']);
  }

  lemma HexMeaning(body: string)
    requires body == ['\\', 'x', '4', '1']
    ensures PyMeaning(body, '\'') == Some("A") && JsonMeaning(Normalize(['\''] + body + ['\''])) == None
  {
    var digits := body[2..4];
    assert digits == ['4', '1'] && digits[..1] == ['4'] && ['4'][..0] == [];
    assert HexNumber([]) == Some(0);
    assert HexNumber(['4']) == Some(4);
    assert HexNumber(digits) == Some(0x41);
    assert PyEscape(body) == Some(("A", 4));
    assert body[4..] == [] && PyMeaning([], '\'') == Some([]);
    assert "A" + [] == "A";
    MeaningfulIsProtected(body, '\'');
    NormalizeSingleQuoted(body);
    QuotedMeaning(Requote(body));
    assert Requote(body)[..2] == body[..2];
    assert Requote(body)[1] == 'x';
    hide Normalize, JsonMeaning;
  }

  lemma SolidusMeaning(body: string)
    requires body == ['\\', '/']
    ensures PyMeaning(body, '\'') == Some(body) && JsonMeaning(Normalize(['\''] + body + ['\''])) == Some("/")
  {
    assert PyEscape(body) == Some((body[..2], 2));
    assert body[..2] == body && body[2..] == [] && PyMeaning([], '\'') == Some([]);
    assert body + [] == body;
    MeaningfulIsProtected(body, '\'');
    NormalizeSingleQuoted(body);
    QuotedMeaning(Requote(body));
    assert Requote([]) == [] && Requote(body) == body;
    assert DecodeEscape(body) == Some(('/', 2)) && Decode([]) == Some([]);
    assert ['/'] + [] == "/";
    hide Normalize, JsonMeaning;
  }

  lemma RewriteSymbol(s: string, i: nat, c: char)
    requires Proper(Symbol(c))
    requires i + 1 <= |s| && s[i..i + 1] == [c]
    ensures Rewrite(s, i, Bare) == [c] + Rewrite(s, i + 1, Bare)
  {
    assert s[i] == s[i..i + 1][0];
  }

  /** One piece at a piece boundary is rewritten to its JSON text. */
  lemma RewriteToken(s: string, i: nat, t: Token)
    requires Proper(t)
    requires i + |PyText(t)| <= |s| && s[i..i + |PyText(t)|] == PyText(t)
    requires t.Word? ==> i == 0 || !IsWordChar(s[i - 1])
    requires t.Word? && i + |PyText(t)| < |s| ==> !IsWordChar(s[i + |PyText(t)|])
    ensures Rewrite(s, i, Bare) == JsonOf(t) + Rewrite(s, i + |PyText(t)|, Bare)
  {
    hide Rewrite, PyMeaning, SharedEscapes, Protected;
    match t
    case SingleQuoted(body) =>
      MeaningfulIsProtected(body, '\'');
      RewriteSingleQuoted(s, i, body);
    case DoubleQuoted(body) =>
      MeaningfulIsProtected(body, '\"');
      RewriteDoubleQuoted(s, i, body);
    case Symbol(c) => RewriteSymbol(s, i, c);
    case Word(w) => RewriteWord(s, i, w);
  }

  lemma TextAt(s: string, i: nat, text: string, rest: string)
    requires i <= |s| && s[i..] == text + rest && text != []
    ensures i + |text| <= |s| && s[i..i + |text|] == text && s[i + |text|..] == rest
    ensures s[i] == text[0] && s[i + |text| - 1] == text[|text| - 1]
  {
    assert s[i..i + |text|] == s[i..][..|text|];
    assert s[i + |text|..] == s[i..][|text|..];
    assert s[i] == s[i..][0] && s[i + |text| - 1] == s[i..][|text| - 1];
  }

  /** Next to a word there is no word character. */
  lemma Boundary(ts: seq<Token>)
    requires WellFormed(ts) && ts != []
    ensures WellFormed(ts[1..]) && Proper(ts[0]) && PyText(ts[0]) != []
    ensures |ts| > 1 ==> PyText(ts[1]) != []
    ensures |ts| > 1 && ts[0].Word? ==> !IsWordChar(PyText(ts[1])[0])
    ensures |ts| > 1 && ts[1].Word? ==> !IsWordChar(PyText(ts[0])[|PyText(ts[0])| - 1])
  {
    hide PyMeaning, SharedEscapes;
    PyTextNonEmpty(ts[0]);
    if |ts| > 1 {
      assert !(ts[0].Word? && ts[0 + 1].Word?);
      assert Proper(ts[1]);
      PyTextNonEmpty(ts[1]);
    }
  }

  lemma {:induction false} RewriteTokens(s: string, i: nat, ts: seq<Token>)
    requires i <= |s| && s[i..] == PyTexts(ts)
    requires WellFormed(ts)
    requires StartsWordSafely(s, i, ts)
    ensures Rewrite(s, i, Bare) == JsonOfAll(ts)
    decreases |ts|
  {
    hide Next, Proper, Rewrite, WellFormed, PyText, PyTexts, JsonOf, StartsWordSafely;
    if ts == [] {
      RewriteEnd(s, i);
    } else {
      TokensStep(s, i, ts);
      RewriteTokens(s, i + |PyText(ts[0])|, ts[1..]);
      RewriteToken(s, i, ts[0]);
    }
  }

  lemma RewriteEnd(s: string, i: nat)
    requires i <= |s| && s[i..] == PyTexts([])
    ensures Rewrite(s, i, Bare) == []
  {
  }

  /** A literal about to be read does not continue a word. */
  predicate StartsWordSafely(s: string, i: nat, ts: seq<Token>)
    requires i <= |s|
  {
    ts != [] && ts[0].Word? ==> i == 0 || !IsWordChar(s[i - 1])
  }

  lemma TokensStep(s: string, i: nat, ts: seq<Token>)
    requires ts != [] && i <= |s| && s[i..] == PyTexts(ts)
    requires WellFormed(ts) && StartsWordSafely(s, i, ts)
    ensures var n := |PyText(ts[0])|;
            && (ts[0].Word? ==> i == 0 || !IsWordChar(s[i - 1]))
            && Proper(ts[0]) && WellFormed(ts[1..])
            && i + n <= |s| && s[i..i + n] == PyText(ts[0]) && s[i + n..] == PyTexts(ts[1..])
            && (ts[0].Word? && i + n < |s| ==> !IsWordChar(s[i + n]))
            && StartsWordSafely(s, i + n, ts[1..])
  {
    hide WellFormed, PyText, IsWordChar;
    Boundary(ts);
    hide Proper;
    TextAt(s, i, PyText(ts[0]), PyTexts(ts[1..]));
    if |ts| > 1 {
      assert ts[1..][0] == ts[1];
      TextAt(s, i + |PyText(ts[0])|, PyText(ts[1]), PyTexts(ts[1..][1..]));
    }
  }

  lemma PyTextNonEmpty(t: Token)
    requires Proper(t)
    ensures PyText(t) != []
  {
    hide PyMeaning, SharedEscapes, IsWordChar;
  }

  /** A Python value becomes the JSON value with the same pieces in the same order, each meaning what it meant. */
  lemma NormalizeKeepsMeaning(ts: seq<Token>)
    requires WellFormed(ts)
    ensures exists texts: seq<string> ::
              |texts| == |ts| && (forall i :: 0 <= i < |ts| ==> JsonFor(ts[i], texts[i]))
              && Normalize(PyTexts(ts)) == Concat(texts)
  {
    RewriteTokens(PyTexts(ts), 0, ts);
    JsonOfAllIsConcat(ts);
    var texts := JsonTexts(ts);
    forall i | 0 <= i < |ts| ensures JsonFor(ts[i], texts[i]) {
      JsonOfIsJson(ts[i]);
    }
  }

  // ----- Braces ---------------------------------------------------------------

  /** How many braces the pieces open beyond those they close. */
  function Nesting(ts: seq<Token>): int {
    if ts == [] then 0
    else (if ts[0] == Symbol('{') then 1 else if ts[0] == Symbol('}') then -1 else 0) + Nesting(ts[1..])
  }

  /** Inside a JSON string, a body that protects its quotes is invisible to the counter. */
  lemma {:induction false} ScanProtected(depth: int, s: string)
    requires Protected(s, '\"')
    ensures ScanText(Scan(depth, true, false), s) == Scan(depth, true, false)
    decreases |s|
  {
    if s != [] && s[0] == '\\' {
      assert s[1..][0] == s[1] && s[1..][1..] == s[2..];
      ScanProtected(depth, s[2..]);
    } else if s != [] {
      ScanProtected(depth, s[1..]);
    }
  }

  /** A single-quoted body is requoted to one that protects double quotes. */
  lemma {:induction false} RequotedIsProtected(s: string)
    requires Protected(s, '\'')
    ensures Protected(Requote(s), '\"')
    decreases |s|
  {
    if s != [] {
      var n := if s[0] == '\\' then 2 else 1;
      RequotedIsProtected(s[n..]);
      var out := if n == 2 then (if s[1] == '\'' then ['\''] else ['\\', s[1]])
                 else if s[0] == '\"' then ['\\', '\"'] else [s[0]];
      assert Requote(s) == out + Requote(s[n..]);
      assert (out + Requote(s[n..]))[|out|..] == Requote(s[n..]);
    }
  }

  lemma ScanBody(depth: int, body: string)
    requires Protected(body, '\"')
    ensures ScanText(Scan(depth, false, false), ['\"'] + body + ['\"']) == Scan(depth, false, false)
  {
    var q := Scan(depth, false, false);
    ScanConcat(q, ['\"'] + body, ['\"']);
    ScanConcat(q, ['\"'], body);
    assert ScanText(q, ['\"']) == Scan(depth, true, false);
    ScanProtected(depth, body);
    assert ScanText(Scan(depth, true, false), ['\"']) == q;
  }

  /** Text without quotes and braces is not counted. */
  lemma {:induction false} ScanPlain(depth: int, s: string)
    requires forall i :: 0 <= i < |s| ==> s[i] !in {'\"', '{', '}'}
    ensures ScanText(Scan(depth, false, false), s) == Scan(depth, false, false)
    decreases |s|
  {
    if s != [] {
      ScanPlain(depth, s[1..]);
    }
  }

  lemma WordIsPlain(w: string)
    requires Proper(Word(w))
    ensures forall i :: 0 <= i < |w| ==> JsonOf(Word(w))[i] !in {'\"', '{', '}'}
    ensures |JsonOf(Word(w))| == |w|
  {
    assert forall i :: 0 <= i < 4 ==> "true"[i] !in {'\"', '{', '}'} && "null"[i] !in {'\"', '{', '}'};
    assert forall i :: 0 <= i < 5 ==> "false"[i] !in {'\"', '{', '}'};
  }

  lemma ScanToken(depth: int, t: Token)
    requires Proper(t)
    ensures ScanText(Scan(depth, false, false), JsonOf(t)) == Scan(depth + Nesting([t]), false, false)
  {
    assert [t][1..] == [] && Nesting([]) == 0;
    hide PyMeaning, SharedEscapes, Protected, Requote, LiteralFor, IsWordChar;
    match t
    case SingleQuoted(body) =>
      MeaningfulIsProtected(body, '\'');
      RequotedIsProtected(body);
      ScanBody(depth, Requote(body));
    case DoubleQuoted(body) =>
      MeaningfulIsProtected(body, '\"');
      ScanBody(depth, body);
    case Word(w) =>
      WordIsPlain(w);
      ScanPlain(depth, JsonOf(t));
    case Symbol(c) =>
      assert [c][1..] == [];
  }

  lemma {:induction false} ScanTokens(depth: int, ts: seq<Token>)
    requires forall i :: 0 <= i < |ts| ==> Proper(ts[i])
    ensures ScanText(Scan(depth, false, false), JsonOfAll(ts)) == Scan(depth + Nesting(ts), false, false)
    decreases |ts|
  {
    hide Proper, JsonOf, ScanText;
    if ts == [] {
      ScanNothing(Scan(depth, false, false));
    } else {
      ScanToken(depth, ts[0]);
      ScanTokens(depth + Nesting([ts[0]]), ts[1..]);
      ScanConcat(Scan(depth, false, false), JsonOf(ts[0]), JsonOfAll(ts[1..]));
      assert Nesting(ts) == Nesting([ts[0]]) + Nesting(ts[1..]) by {
        assert [ts[0]][1..] == [] && Nesting([]) == 0;
      }
    }
  }

  lemma ScanNothing(q: Scan)
    ensures ScanText(q, []) == q
  {
  }

  /** The counter finds in a rewritten value the braces between its pieces, and none of those inside its strings. */
  lemma NormalizedDepth(ts: seq<Token>)
    requires WellFormed(ts)
    ensures ScanText(SCAN_START, Normalize(PyTexts(ts))) == Scan(Nesting(ts), false, false)
  {
    hide ScanText, Proper;
    RewriteTokens(PyTexts(ts), 0, ts);
    ScanTokens(0, ts);
  }
}
