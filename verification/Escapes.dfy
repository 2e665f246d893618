/** Decoding backslash escapes in place. Characters are the bytes of the buffer. */
module Escapes {
  import opened Wrappers
  import opened JsonText

  predicate IsBlank(c: char) {
    c == ' ' || '\t' <= c <= '\r'
  }

  /** The byte two characters denote when a base-16 conversion consumes both of them. */
  function HexByte(a: char, b: char): (r: Option<char>) {
    match (HexValue(a), HexValue(b))
    case (Some(hi), Some(lo)) => Some((16 * hi + lo) as char)
    case (None, Some(lo)) =>
      if IsBlank(a) || a == '+' then Some(lo as char)
      else if a == '-' then Some(((256 - lo) % 256) as char)
      else None
    case _ => None
  }

  /** The character a one-letter escape stands for. */
  function LetterEscape(c: char): Option<char> {
    if c == 'n' then Some('\n')
    else if c == 'r' then Some('\r')
    else if c == 't' then Some('\t')
    else if c == '\'' || c == '\"' || c == '\\' then Some(c)
    else None
  }

  /** What the front of the text decodes to, and how many characters that takes. */
  function First(s: string): (r: (string, nat))
    requires s != []
    ensures 1 <= r.1 <= |s| && |r.0| <= r.1
  {
    if s[0] != '\\' || |s| == 1 then ([s[0]], 1)
    else if LetterEscape(s[1]).Some? then ([LetterEscape(s[1]).value], 2)
    else if s[1] == 'x' && |s| > 3 && HexByte(s[2], s[3]).Some? then ([HexByte(s[2], s[3]).value], 4)
    else (['\\', s[1]], 2)
  }

  /** The pure decoder. */
  function Unescape(s: string): string
    decreases |s|
  {
    if s == [] then [] else First(s).0 + Unescape(s[First(s).1..])
  }

  /**
   Decodes what stands at `i` and writes it at `n`. The write never reaches an unread byte:
   everything from the new read position on is untouched.
   */
  method DecodeOne(input: array<char>, i: nat, n: nat) returns (i': nat, n': nat)
    requires n <= i < input.Length
    modifies input
    ensures (i', n') == (i + First(old(input[i..])).1, n + |First(old(input[i..])).0|)
    ensures n' <= i' <= input.Length
    ensures input[..n'] == old(input[..n]) + First(old(input[i..])).0
    ensures input[i'..] == old(input[i'..])
  {
    ghost var s := input[i..];
    i', n' := i, n;
    if input[i'] == '\\' && i' + 1 < input.Length {
      i' := i' + 1;
      var c := input[i'];
      var short := LetterEscape(c);
      var hex := if c == 'x' && i' + 2 < input.Length then HexByte(input[i' + 1], input[i' + 2]) else None;
      if short.Some? {
        input[n'] := short.value;
        n' := n' + 1;
      } else if hex.Some? {
        i' := i' + 2;
        input[n'] := hex.value;
        n' := n' + 1;
      } else {
        input[n'] := '\\';
        n' := n' + 1;
        input[n'] := input[i'];
        n' := n' + 1;
      }
    } else {
      input[n'] := input[i'];
      n' := n' + 1;
    }
    i' := i' + 1;
  }

  /** Rewrites the buffer; the first `n` bytes are the decoded text. */
  method ProcessEscapes(input: array<char>) returns (n: nat)
    modifies input
    ensures n <= input.Length && input[..n] == Unescape(old(input[..]))
  {
    hide First;
    ghost var was := input[..];
    var i := 0;
    n := 0;
    assert was[0..] == was;
    while i < input.Length
      invariant n <= i <= input.Length
      invariant input[i..] == was[i..]
      invariant input[..n] + Unescape(was[i..]) == Unescape(was)
    {
      ghost var done, width := input[..n], First(was[i..]).1;
      Advance(done, was, i);
      i, n := DecodeOne(input, i, n);
      assert input[i..] == was[i..];
    }
    assert was[input.Length..] == [];
  }

  lemma Advance(done: string, s: string, i: nat)
    requires i < |s|
    ensures done + Unescape(s[i..]) == (done + First(s[i..]).0) + Unescape(s[i + First(s[i..]).1..])
  {
    hide First;
    assert s[i..][First(s[i..]).1..] == s[i + First(s[i..]).1..];
  }

  // ----- Undoing an escaper ---------------------------------------------------

  /** One character as an escaper may write it. */
  datatype Piece = Plain(c: char) | Short(letter: char) | Hex(hi: char, lo: char)

  predicate Proper(p: Piece) {
    match p
    case Plain(c) => c != '\\'
    case Short(letter) => LetterEscape(letter).Some?
    case Hex(hi, lo) => HexValue(hi).Some? && HexValue(lo).Some?
  }

  function Written(p: Piece): string {
    match p
    case Plain(c) => [c]
    case Short(letter) => ['\\', letter]
    case Hex(hi, lo) => ['\\', 'x', hi, lo]
  }

  function Meant(p: Piece): char
    requires Proper(p)
  {
    match p
    case Plain(c) => c
    case Short(letter) => LetterEscape(letter).value
    case Hex(hi, lo) => (16 * HexValue(hi).value + HexValue(lo).value) as char
  }

  function WrittenAll(ps: seq<Piece>): string {
    if ps == [] then [] else Written(ps[0]) + WrittenAll(ps[1..])
  }

  function MeantAll(ps: seq<Piece>): (s: string)
    requires forall i :: 0 <= i < |ps| ==> Proper(ps[i])
    ensures |s| == |ps| && forall i :: 0 <= i < |ps| ==> s[i] == Meant(ps[i])
  {
    if ps == [] then [] else [Meant(ps[0])] + MeantAll(ps[1..])
  }

  /** However an escaper writes each character, decoding gives the characters back. */
  lemma {:induction false} UnescapeUndoes(ps: seq<Piece>)
    requires forall i :: 0 <= i < |ps| ==> Proper(ps[i])
    ensures Unescape(WrittenAll(ps)) == MeantAll(ps)
  {
    if ps != [] {
      var w, rest := Written(ps[0]), WrittenAll(ps[1..]);
      UnescapeUndoes(ps[1..]);
      FirstOfWritten(ps[0], rest);
      assert (w + rest)[|w|..] == rest;
    }
  }

  lemma FirstOfWritten(p: Piece, rest: string)
    requires Proper(p)
    ensures First(Written(p) + rest) == ([Meant(p)], |Written(p)|)
  {
    var s := Written(p) + rest;
    assert forall i :: 0 <= i < |Written(p)| ==> s[i] == Written(p)[i];
  }

  // ----- What each escape gives -----------------------------------------------

  lemma {:induction false} FirstGoesFirst(s: string)
    requires s != []
    ensures Unescape(s) == First(s).0 + Unescape(s[First(s).1..])
  {
    hide First;
  }

  /** The letters that stand for a character. */
  lemma KnownLetters(c: char)
    ensures LetterEscape(c) == if c == 'n' then Some('\U{000A}') else if c == 'r' then Some('\U{000D}')
                               else if c == 't' then Some('\U{0009}')
                               else if c in {'\'', '\"', '\\'} then Some(c) else None
  {
  }

  /** An escape of any other letter stays as it is, and so does a backslash with nothing behind it. */
  lemma UnknownEscapeStays(c: char, rest: string)
    requires c !in {'n', 'r', 't', '\'', '\"', '\\', 'x'}
    ensures Unescape(['\\', c] + rest) == ['\\', c] + Unescape(rest)
    ensures Unescape(['\\']) == ['\\']
  {
    var s := ['\\', c] + rest;
    assert s[2..] == rest && s[1] == c;
    assert First(s) == (['\\', c], 2);
    FirstGoesFirst(s);
    FirstGoesFirst(['\\']);
    assert ['\\'][1..] == [];
  }

  /** Two characters are taken as a number if the second is a digit and the first a digit, a sign or a blank. */
  lemma HexByteExactly(a: char, b: char)
    ensures HexByte(a, b).Some? <==>
            HexValue(b).Some? && (HexValue(a).Some? || a in {'+', '-', ' ', '\t', '\n', '\U{000B}', '\U{000C}', '\r'})
    ensures HexByte(a, b).Some? && HexValue(a).Some? ==>
              HexByte(a, b).value as nat == 16 * HexValue(a).value + HexValue(b).value
    ensures HexByte(a, b).Some? && HexValue(a).None? && a != '-' ==> HexByte(a, b).value as nat == HexValue(b).value
    ensures HexByte('-', b).Some? ==> (HexByte('-', b).value as nat + HexValue(b).value) % 256 == 0
  {
  }

  /** Where they are no number, or not there, the escape stays as it is. */
  lemma BadHexStays(rest: string)
    requires |rest| < 2 || HexByte(rest[0], rest[1]).None?
    ensures Unescape(['\\', 'x'] + rest) == ['\\', 'x'] + Unescape(rest)
  {
    var s := ['\\', 'x'] + rest;
    BadHexFirst(s);
    hide First, HexByte;
    FirstGoesFirst(s);
    assert s[2..] == rest;
  }

  lemma BadHexFirst(s: string)
    requires |s| >= 2 && s[0] == '\\' && s[1] == 'x' && (|s| < 4 || HexByte(s[2], s[3]).None?)
    ensures First(s) == (['\\', 'x'], 2)
  {
    hide HexByte;
  }
}
