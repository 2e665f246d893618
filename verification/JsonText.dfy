/** JSON string escaping, its decoder, and the quote-aware brace counter. */
module JsonText {
  import opened Wrappers

  // ----- Escaping -------------------------------------------------------------

  function HexDigit(n: nat): (c: char)
    requires n < 16
    ensures HexValue(c) == Some(n)
  {
    if n < 10 then '0' + n as char else 'a' + (n - 10) as char
  }

  function HexValue(c: char): (v: Option<nat>)
    ensures v.Some? ==> v.value < 16
  {
    if '0' <= c <= '9' then Some((c - '0') as nat)
    else if 'a' <= c <= 'f' then Some((c - 'a') as nat + 10)
    else if 'A' <= c <= 'F' then Some((c - 'A') as nat + 10)
    else None
  }

  /** What the serializer writes for one character of a string. */
  function EscapeChar(c: char): string {
    if c == '\"' || c == '\\' then ['\\', c]
    else if c == '\n' then ['\\', 'n']
    else if c == '\r' then ['\\', 'r']
    else if c == '\t' then ['\\', 't']
    else if c == '\U{0008}' then ['\\', 'b']
    else if c == '\U{000C}' then ['\\', 'f']
    else if c < ' ' then ['\\', 'u', '0', '0', HexDigit(c as nat / 16), HexDigit(c as nat % 16)]
    else [c]
  }

  /** The escapes the serializer chooses; every other character stands for itself. */
  lemma EscapesChosen()
    ensures EscapeChar('\"') == ['\\', '\"'] && EscapeChar('\\') == ['\\', '\\']
    ensures EscapeChar('\n') == ['\\', 'n'] && EscapeChar('\r') == ['\\', 'r'] && EscapeChar('\t') == ['\\', 't']
    ensures EscapeChar('\U{0008}') == ['\\', 'b'] && EscapeChar('\U{000C}') == ['\\', 'f']
    ensures EscapeChar('\U{001B}') == ['\\', 'u', '0', '0', '1', 'b']
    ensures forall c :: c >= ' ' && c != '\"' && c != '\\' ==> EscapeChar(c) == [c]
    ensures forall c :: c < ' ' && c !in {'\n', '\r', '\t', '\U{0008}', '\U{000C}'} ==>
              |EscapeChar(c)| == 6 && EscapeChar(c)[..4] == ['\\', 'u', '0', '0']
  {
  }

  function Escape(s: string): string {
    if s == [] then [] else EscapeChar(s[0]) + Escape(s[1..])
  }

  /** The serializer's output for a whole string: the escaped text between quotes. */
  function Quote(s: string): string {
    ['\"'] + Escape(s) + ['\"']
  }

  lemma {:induction false} EscapeConcat(a: string, b: string)
    ensures Escape(a + b) == Escape(a) + Escape(b)
  {
    if a == [] {
      assert a + b == b;
    } else {
      assert (a + b)[1..] == a[1..] + b;
      EscapeConcat(a[1..], b);
    }
  }

  /** A longer text never rewrites what was already escaped. */
  lemma EscapeKeepsPrefixes(a: string, b: string)
    requires a <= b
    ensures Escape(a) <= Escape(b)
  {
    assert b == a + b[|a|..];
    EscapeConcat(a, b[|a|..]);
  }

  // ----- Decoding -------------------------------------------------------------

  /** The character a two-character escape stands for. */
  function ShortEscape(c: char): Option<char> {
    if c == '\"' || c == '\\' || c == '/' then Some(c)
    else if c == 'b' then Some('\U{0008}')
    else if c == 'f' then Some('\U{000C}')
    else if c == 'n' then Some('\n')
    else if c == 'r' then Some('\r')
    else if c == 't' then Some('\t')
    else None
  }

  /** The character one backslash escape stands for, and how long the escape is. */
  function DecodeEscape(s: string): (r: Option<(char, nat)>)
    requires |s| >= 1 && s[0] == '\\'
    ensures r.Some? ==> 2 <= r.value.1 <= |s|
  {
    if |s| < 2 then None
    else if s[1] == 'u' then
      if |s| < 6 then None
      else match (HexValue(s[2]), HexValue(s[3]), HexValue(s[4]), HexValue(s[5]))
        case (Some(a), Some(b), Some(c), Some(d)) =>
          var code := ((a * 16 + b) * 16 + c) * 16 + d;
          if 0xD800 <= code < 0xE000 then None else Some((code as char, 6))
        case _ => None
    else
      match ShortEscape(s[1])
      case None => None
      case Some(c) => Some((c, 2))
  }

  /** The characters a JSON string body denotes; None where the body is not one. */
  function Decode(s: string): Option<string>
    decreases |s|
  {
    if s == [] then Some([])
    else if s[0] == '\\' then
      match DecodeEscape(s)
      case None => None
      case Some((c, n)) =>
        Push(c, Decode(s[n..]))
    else if s[0] == '\"' || s[0] < ' ' then None
    else Push(s[0], Decode(s[1..]))
  }

  /** What a decoder makes of one more character in front of a rest it has decoded. */
  function Push(c: char, rest: Option<string>): Option<string> {
    match rest
    case None => None
    case Some(t) => Some([c] + t)
  }

  lemma DecodeEscapeChar(c: char, rest: string)
    ensures Decode(EscapeChar(c) + rest) == Push(c, Decode(rest))
  {
    var e := EscapeChar(c);
    var s := e + rest;
    assert s[|e|..] == rest;
    assert |e| == 2 ==> s[1] == e[1];
    if |e| == 6 {
      var hi, lo := c as nat / 16, c as nat % 16;
      assert s[1] == 'u' && s[2] == '0' && s[3] == '0' && s[4] == HexDigit(hi) && s[5] == HexDigit(lo);
      assert DecodeEscape(s) == Some((c, 6));
    }
  }

  /** Decoding undoes escaping. */
  lemma {:induction false} EscapeRoundTrip(s: string)
    ensures Decode(Escape(s)) == Some(s)
  {
    if s != [] {
      DecodeEscapeChar(s[0], Escape(s[1..]));
      EscapeRoundTrip(s[1..]);
      assert [s[0]] + s[1..] == s;
    }
  }

  // ----- Brace counting -------------------------------------------------------

  /** Where a left-to-right scan stands: open braces, and whether inside a string or an escape. */
  datatype Scan = Scan(depth: int, inString: bool, escaped: bool)

  const SCAN_START := Scan(0, false, false)

  function ScanChar(q: Scan, c: char): Scan {
    if q.escaped then q.(escaped := false)
    else if c == '\\' && q.inString then q.(escaped := true)
    else if c == '\"' then q.(inString := !q.inString)
    else if q.inString then q
    else if c == '{' then q.(depth := q.depth + 1)
    else if c == '}' then q.(depth := q.depth - 1)
    else q
  }

  function ScanText(q: Scan, s: string): Scan
    decreases |s|
  {
    if s == [] then q else ScanText(ScanChar(q, s[0]), s[1..])
  }

  function BraceDepth(s: string): int {
    ScanText(SCAN_START, s).depth
  }

  /** The counting loop. */
  method CountBraces(s: string) returns (depth: int)
    ensures depth == BraceDepth(s)
  {
    depth := 0;
    var inString, escaped := false, false;
    for i := 0 to |s|
      invariant ScanText(Scan(depth, inString, escaped), s[i..]) == ScanText(SCAN_START, s)
    {
      var c := s[i];
      assert s[i..][0] == c && s[i..][1..] == s[i + 1..];
      if escaped {
        escaped := false;
        continue;
      }
      if c == '\\' && inString {
        escaped := true;
        continue;
      }
      if c == '\"' {
        inString := !inString;
        continue;
      }
      if !inString {
        if c == '{' {
          depth := depth + 1;
        } else if c == '}' {
          depth := depth - 1;
        }
      }
    }
  }

  lemma {:induction false} ScanConcat(q: Scan, a: string, b: string)
    ensures ScanText(q, a + b) == ScanText(ScanText(q, a), b)
    decreases |a|
  {
    if a == [] {
      assert a + b == b;
    } else {
      assert (a + b)[0] == a[0] && (a + b)[1..] == a[1..] + b;
      ScanConcat(ScanChar(q, a[0]), a[1..], b);
    }
  }

  /** What a text opens and closes does not depend on what is open before it. */
  lemma {:induction false} ScanShift(q: Scan, k: int, s: string)
    ensures ScanText(q.(depth := q.depth + k), s) == ScanText(q, s).(depth := ScanText(q, s).depth + k)
    decreases |s|
  {
    if s != [] {
      ScanShift(ScanChar(q, s[0]), k, s[1..]);
    }
  }

  lemma ScanEscapedChar(depth: int, c: char)
    ensures ScanText(Scan(depth, true, false), EscapeChar(c)) == Scan(depth, true, false)
  {
    var q, e := Scan(depth, true, false), EscapeChar(c);
    if |e| == 6 {
      assert e == ['\\', 'u'] + (['0', '0'] + [e[4], e[5]]);
      ScanConcat(q, ['\\', 'u'], ['0', '0'] + [e[4], e[5]]);
      ScanConcat(q, ['0', '0'], [e[4], e[5]]);
      ScanPair(q, '\\', 'u');
      ScanPair(q, '0', '0');
      ScanPair(q, e[4], e[5]);
    } else if |e| == 2 {
      ScanPair(q, e[0], e[1]);
    } else {
      assert e[1..] == [];
    }
  }

  lemma ScanPair(q: Scan, c: char, d: char)
    ensures ScanText(q, [c, d]) == ScanChar(ScanChar(q, c), d)
  {
    assert [c, d][1..] == [d] && [d][1..] == [];
    assert ScanText(ScanChar(q, c), [d]) == ScanChar(ScanChar(q, c), d);
  }

  /** Inside a string, escaped text is invisible to the counter. */
  lemma {:induction false} ScanEscaped(depth: int, s: string)
    ensures ScanText(Scan(depth, true, false), Escape(s)) == Scan(depth, true, false)
  {
    if s != [] {
      ScanConcat(Scan(depth, true, false), EscapeChar(s[0]), Escape(s[1..]));
      ScanEscapedChar(depth, s[0]);
      ScanEscaped(depth, s[1..]);
    }
  }

  /** A quoted string, met outside a string, leaves the counter where it was. */
  lemma ScanQuoted(depth: int, s: string)
    ensures ScanText(Scan(depth, false, false), Quote(s)) == Scan(depth, false, false)
  {
    var q := Scan(depth, false, false);
    ScanConcat(q, ['\"'] + Escape(s), ['\"']);
    ScanConcat(q, ['\"'], Escape(s));
    assert ScanText(q, ['\"']) == Scan(depth, true, false);
    ScanEscaped(depth, s);
    assert ScanText(Scan(depth, true, false), ['\"']) == q;
  }
}
