/** The legacy GGML container: little-endian words, header, vocabulary, and aligned tensor regions. */
module GgmlFile {
  import opened Wrappers

  type Byte = n: int | 0 <= n < 256

  datatype Error =
    | AlreadyGguf | UnexpectedMagic | UnexpectedVersion | Truncated | InvalidFType | NotConvertible
    | AbsurdItem | InvalidDims | AbsurdName | UnknownType | TooLarge | MissingFf | FfNotAMatrix

  /** A value read from a file, and the offset behind it. */
  datatype Read<+T> = Read(value: T, next: nat)

  // ----- Little-endian words --------------------------------------------------

  function Power(k: nat): nat { if k == 0 then 1 else 256 * Power(k - 1) }

  function LittleEndian(n: nat, k: nat): (s: seq<Byte>)
    ensures |s| == k
    decreases k
  {
    if k == 0 then [] else [n % 256] + LittleEndian(n / 256, k - 1)
  }

  function FromLittleEndian(s: seq<Byte>): nat {
    if s == [] then 0 else s[0] + 256 * FromLittleEndian(s[1..])
  }

  lemma {:induction false} LittleEndianExactly(s: seq<Byte>, n: nat)
    ensures FromLittleEndian(s) < Power(|s|)
    ensures n < Power(|s|) ==> (FromLittleEndian(s) == n <==> s == LittleEndian(n, |s|))
    decreases |s|
  {
    if s != [] {
      var rest := s[1..];
      LittleEndianExactly(rest, n / 256);
      assert s == [s[0]] + rest;
      if FromLittleEndian(s) == n {
        assert n % 256 == s[0] && n / 256 == FromLittleEndian(rest);
      }
      if s == LittleEndian(n, |s|) {
        assert s[0] == n % 256 && rest == LittleEndian(n / 256, |rest|);
      }
    }
  }

  const TWO_TO_32 := 0x1_0000_0000
  const TWO_TO_63 := 0x8000_0000_0000_0000

  /** `s` stands in `data` at `o`. */
  predicate At(data: seq<Byte>, o: nat, s: seq<Byte>) {
    o + |s| <= |data| && data[o..o + |s|] == s
  }

  lemma AtConcat(data: seq<Byte>, o: nat, s: seq<Byte>, t: seq<Byte>)
    ensures At(data, o, s + t) <==> At(data, o, s) && At(data, o + |s|, t)
  {
    var mid, end := o + |s|, o + |s| + |t|;
    if end <= |data| {
      var whole := data[o..end];
      assert whole == data[o..mid] + data[mid..end];
      assert whole[..|s|] == data[o..mid] && whole[|s|..] == data[mid..end];
      assert (s + t)[..|s|] == s && (s + t)[|s|..] == t;
    }
  }

  /** At most `n` bytes from `o` on; a slice past the end is cut short rather than refused. */
  function Slice(data: seq<Byte>, o: nat, n: nat): (s: seq<Byte>)
    ensures |s| == n <==> n == 0 || o + n <= |data|
    ensures |s| == n && o <= |data| ==> At(data, o, s)
  {
    if o >= |data| then [] else if o + n <= |data| then data[o..o + n] else data[o..]
  }

  lemma SliceExactly(data: seq<Byte>, o: nat, s: seq<Byte>)
    requires o <= |data|
    ensures Slice(data, o, |s|) == s <==> At(data, o, s)
  {
  }

  function Word(data: seq<Byte>, o: nat): Option<nat> {
    if o + 4 <= |data| then Some(FromLittleEndian(data[o..o + 4])) else None
  }

  lemma WordExactly(data: seq<Byte>, o: nat, n: nat)
    ensures Word(data, o) == Some(n) <==> n < TWO_TO_32 && At(data, o, LittleEndian(n, 4))
  {
    assert Power(4) == TWO_TO_32;
    if o + 4 <= |data| {
      LittleEndianExactly(data[o..o + 4], n);
    }
  }

  function Words(data: seq<Byte>, o: nat, k: nat): Option<seq<nat>>
    decreases k
  {
    if k == 0 then Some([])
    else
      var first := Word(data, o);
      var rest := Words(data, o + 4, k - 1);
      if first.None? || rest.None? then None else Some([first.value] + rest.value)
  }

  function WordBytes(ws: seq<nat>): (s: seq<Byte>)
    ensures |s| == 4 * |ws|
  {
    if ws == [] then [] else LittleEndian(ws[0], 4) + WordBytes(ws[1..])
  }

  predicate AreWords(ws: seq<nat>) { forall k :: 0 <= k < |ws| ==> ws[k] < TWO_TO_32 }

  lemma {:induction false} WordsExactly(data: seq<Byte>, o: nat, ws: seq<nat>)
    requires o <= |data|
    ensures Words(data, o, |ws|) == Some(ws) <==> AreWords(ws) && At(data, o, WordBytes(ws))
    decreases |ws|
  {
    hide LittleEndian;
    if ws != [] {
      var rest := ws[1..];
      WordExactly(data, o, ws[0]);
      AtConcat(data, o, LittleEndian(ws[0], 4), WordBytes(rest));
      assert ws == [ws[0]] + rest;
      assert AreWords(ws) <==> ws[0] < TWO_TO_32 && AreWords(rest) by {
        assert forall k :: 0 <= k < |rest| ==> rest[k] == ws[k + 1];
        assert forall k :: 1 <= k < |ws| ==> ws[k] == rest[k - 1];
      }
      if o + 4 <= |data| {
        WordsExactly(data, o + 4, rest);
      }
    }
  }
}
