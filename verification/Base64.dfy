/** Base64 over both alphabets (sections 4 and 5 of RFC 4648), with alphabet detection and decoding in place. */
module Base64 {
  import opened Wrappers

  type Byte = bv8

  datatype Alphabet = Auto | Standard | UrlSafe

  datatype Behavior = Moderate | Loose

  datatype Error = InvalidCharacter

  const PAD: Byte := 61

  // ----- The alphabets --------------------------------------------------------

  /** The character for six bits. */
  function Letter(alphabet: Alphabet, v: Byte): Byte
    requires v < 64
  {
    if v < 26 then v + 65
    else if v < 52 then v + 71
    else if v < 62 then v - 4
    else if v == 62 then (if alphabet == UrlSafe then 45 else 43)
    else (if alphabet == UrlSafe then 95 else 47)
  }

  /** The alphabet that a character only one of them has belongs to. */
  function Telling(c: Byte): Alphabet {
    if c == 45 || c == 95 then UrlSafe else Standard
  }

  /** The six bits of a character and the alphabet known after it. */
  function Value(alphabet: Alphabet, c: Byte): (r: Result<(Byte, Alphabet), Error>)
    ensures r.Ok? ==> r.value.0 < 64
  {
    if 65 <= c <= 90 then Ok((c - 65, alphabet))
    else if 97 <= c <= 122 then Ok((c - 71, alphabet))
    else if 48 <= c <= 57 then Ok((c + 4, alphabet))
    else if alphabet != UrlSafe && c == 43 then Ok((62, Standard))
    else if alphabet != UrlSafe && c == 47 then Ok((63, Standard))
    else if alphabet != Standard && c == 45 then Ok((62, UrlSafe))
    else if alphabet != Standard && c == 95 then Ok((63, UrlSafe))
    else Err(InvalidCharacter)
  }

  /** A character is accepted exactly if it is a letter of an alphabet still possible; one that only one of them has tells which it is. */
  lemma ValueIsExact(alphabet: Alphabet, c: Byte)
    ensures
      var r := Value(alphabet, c);
      if r.Ok? then
        && Letter(r.value.1, r.value.0) == c
        && r.value.1 == if r.value.0 < 62 || alphabet != Auto then alphabet else Telling(c)
      else forall v: Byte, a :: v < 64 && a in {Standard, UrlSafe} && alphabet in {Auto, a} ==> Letter(a, v) != c
  {
  }

  /** The encoder's alphabet: anything but the URL-safe one means the standard one. */
  function Chosen(alphabet: Alphabet): Alphabet {
    if alphabet == UrlSafe then UrlSafe else Standard
  }

  /** A decoder that detects the alphabet, or knows it, reads every letter of it back. */
  lemma ValueOfLetter(alphabet: Alphabet, known: Alphabet, v: Byte)
    requires v < 64 && alphabet != Auto && (known == Auto || known == alphabet)
    ensures Value(known, Letter(alphabet, v)).Ok?
    ensures Value(known, Letter(alphabet, v)).value.0 == v
    ensures Value(known, Letter(alphabet, v)).value.1 in {known, alphabet}
    ensures Letter(alphabet, v) != PAD
  {
  }

  // ----- Encoding -------------------------------------------------------------

  /** The four groups of six bits in three bytes. */
  function Sextet0(b0: Byte): (v: Byte) ensures v < 64 { b0 >> 2 }

  function Sextet1(b0: Byte, b1: Byte): (v: Byte) ensures v < 64 { ((b0 & 3) << 4) | (b1 >> 4) }

  function Sextet2(b1: Byte, b2: Byte): (v: Byte) ensures v < 64 { ((b1 & 15) << 2) | (b2 >> 6) }

  function Sextet3(b2: Byte): (v: Byte) ensures v < 64 { b2 & 63 }

  /** One group of four characters; bits past the last byte are zero. */
  function Group(alphabet: Alphabet, b: seq<Byte>): (s: seq<Byte>)
    requires 1 <= |b| <= 3
    ensures |s| == 4
  {
    if |b| == 1 then
      [Letter(alphabet, Sextet0(b[0])), Letter(alphabet, Sextet1(b[0], 0)), PAD, PAD]
    else if |b| == 2 then
      [Letter(alphabet, Sextet0(b[0])), Letter(alphabet, Sextet1(b[0], b[1])), Letter(alphabet, Sextet2(b[1], 0)), PAD]
    else
      [Letter(alphabet, Sextet0(b[0])), Letter(alphabet, Sextet1(b[0], b[1])),
       Letter(alphabet, Sextet2(b[1], b[2])), Letter(alphabet, Sextet3(b[2]))]
  }

  function Encode(alphabet: Alphabet, b: seq<Byte>): seq<Byte>
    decreases |b|
  {
    if b == [] then []
    else if |b| <= 3 then Group(Chosen(alphabet), b)
    else Group(Chosen(alphabet), b[..3]) + Encode(alphabet, b[3..])
  }

  function RequiredEncodeSize(size: nat): nat {
    (size / 3 + (if size % 3 != 0 then 1 else 0)) * 4
  }

  function MaxDecodeSize(size: nat): nat {
    (size / 4 + (if size % 4 != 0 then 1 else 0)) * 3
  }

  lemma {:induction false} EncodedSize(alphabet: Alphabet, b: seq<Byte>)
    ensures |Encode(alphabet, b)| == RequiredEncodeSize(|b|)
    decreases |b|
  {
    if |b| > 3 {
      EncodedSize(alphabet, b[3..]);
    }
  }

  /** Texts whose encodings RFC 4648 gives, and bytes that need the last two letters of each alphabet. */
  lemma KnownEncodings()
    ensures Encode(Standard, [102, 111, 111, 98]) == [90, 109, 57, 118, 89, 103, PAD, PAD]
    ensures Encode(Standard, [102, 111, 111, 98, 97]) == [90, 109, 57, 118, 89, 109, 69, PAD]
    ensures Encode(Standard, [251, 239, 255]) == [43, 43, 47, 47]
    ensures Encode(UrlSafe, [251, 239, 255]) == [45, 45, 95, 95]
  {
    assert Group(Standard, [102, 111, 111]) == [90, 109, 57, 118];
    assert Encode(Standard, [98]) == [89, 103, PAD, PAD];
    assert Encode(Standard, [98, 97]) == [89, 109, 69, PAD];
    var four: seq<Byte> := [102, 111, 111, 98];
    assert four[..3] == [102, 111, 111] && four[3..] == [98];
    var five: seq<Byte> := [102, 111, 111, 98, 97];
    assert five[..3] == [102, 111, 111] && five[3..] == [98, 97];
  }

  /** Encodes the next one to three bytes, padding a short group. */
  method EncodeGroup(b: seq<Byte>, i: nat, alpha: Alphabet) returns (i': nat, out: seq<Byte>)
    requires i < |b|
    ensures i' == (if i + 3 < |b| then i + 3 else |b|) && out == Group(alpha, b[i..i'])
  {
    hide Letter;
    var i0 := b[i];
    i' := i + 1;
    var c0 := Letter(alpha, Sextet0(i0));
    if i' == |b| {
      assert b[i..i'] == [i0];
      return i', [c0, Letter(alpha, Sextet1(i0, 0)), PAD, PAD];
    }
    var i1 := b[i'];
    i' := i' + 1;
    var c1 := Letter(alpha, Sextet1(i0, i1));
    if i' == |b| {
      assert b[i..i'] == [i0, i1];
      return i', [c0, c1, Letter(alpha, Sextet2(i1, 0)), PAD];
    }
    var i2 := b[i'];
    i' := i' + 1;
    assert b[i..i'] == [i0, i1, i2];
    return i', [c0, c1, Letter(alpha, Sextet2(i1, i2)), Letter(alpha, Sextet3(i2))];
  }

  /** The encoder. */
  method EncodeBytes(b: seq<Byte>, alphabet: Alphabet) returns (out: seq<Byte>)
    ensures out == Encode(alphabet, b)
    ensures |out| == RequiredEncodeSize(|b|)
  {
    hide Group, Encode;
    EncodedSize(alphabet, b);
    out := [];
    var i := 0;
    assert b[0..] == b;
    while i < |b|
      invariant i <= |b|
      invariant out + Encode(alphabet, b[i..]) == Encode(alphabet, b)
    {
      var i', group := EncodeGroup(b, i, Chosen(alphabet));
      EncodeNext(alphabet, b, i, i');
      Reassociate(out, group, Encode(alphabet, b[i'..]));
      i, out := i', out + group;
    }
    EncodeNothing(alphabet, b[i..]);
  }

  lemma Reassociate(a: seq<Byte>, b: seq<Byte>, c: seq<Byte>)
    ensures a + (b + c) == (a + b) + c
  {
  }

  lemma EncodeNothing(alphabet: Alphabet, b: seq<Byte>)
    requires |b| == 0
    ensures Encode(alphabet, b) == []
  {
  }

  lemma EncodeNext(alphabet: Alphabet, b: seq<Byte>, i: nat, i': nat)
    requires i < |b| && i' == if i + 3 < |b| then i + 3 else |b|
    ensures Encode(alphabet, b[i..]) == Group(Chosen(alphabet), b[i..i']) + Encode(alphabet, b[i'..])
  {
    hide Group, Encode;
    EncodeStep(alphabet, b[i..], i' - i);
    assert b[i..][..i' - i] == b[i..i'] && b[i..][i' - i..] == b[i'..];
  }

  lemma EncodeStep(alphabet: Alphabet, b: seq<Byte>, n: nat)
    requires b != [] && n == if |b| < 3 then |b| else 3
    ensures Encode(alphabet, b) == Group(Chosen(alphabet), b[..n]) + Encode(alphabet, b[n..])
  {
    if |b| <= 3 {
      assert b[..n] == b && b[n..] == [];
    }
  }

  // ----- Decoding -------------------------------------------------------------

  /** The byte completed by `part` when `bits` bits of `last` are still to be written. */
  function Merge(last: Byte, part: Byte, bits: nat): Byte
    requires bits in {2, 4, 6}
  {
    if bits == 6 then (last << 2) | (part >> 4)
    else if bits == 4 then (last << 4) | (part >> 2)
    else (last << 6) | part
  }

  /** The bytes a run of characters without padding decodes to. */
  function DecodeChars(alphabet: Alphabet, last: Byte, bits: nat, s: seq<Byte>): Result<seq<Byte>, Error>
    requires bits in {0, 2, 4, 6}
    decreases |s|
  {
    if s == [] then Ok([])
    else
      match Value(alphabet, s[0])
      case Err(e) => Err(e)
      case Ok(v) =>
        if bits == 0 then DecodeChars(v.1, v.0, 6, s[1..])
        else Prepend(Merge(last, v.0, bits), DecodeChars(v.1, v.0, bits - 2, s[1..]))
  }

  function Prepend(b: Byte, r: Result<seq<Byte>, Error>): Result<seq<Byte>, Error> {
    match r
    case Err(e) => Err(e)
    case Ok(out) => Ok([b] + out)
  }

  /** The first padding character, or the end. */
  function DataEnd(s: seq<Byte>): (e: nat)
    ensures e <= |s| && PAD !in s[..e] && (e < |s| ==> s[e] == PAD)
  {
    if s == [] || s[0] == PAD then 0
    else
      assert s[..1 + DataEnd(s[1..])] == [s[0]] + s[1..][..DataEnd(s[1..])];
      1 + DataEnd(s[1..])
  }

  predicate OnlyPadding(s: seq<Byte>) {
    forall i :: 0 <= i < |s| ==> s[i] == PAD
  }

  /** Characters up to the first padding one are decoded; unless the decoder is loose, only padding may follow. */
  function Decode(alphabet: Alphabet, behavior: Behavior, s: seq<Byte>): Result<seq<Byte>, Error> {
    var e := DataEnd(s);
    var data := DecodeChars(alphabet, 0, 0, s[..e]);
    if data.Ok? && behavior == Moderate && !OnlyPadding(s[e..]) then Err(InvalidCharacter) else data
  }

  lemma MergeSextets(b0: Byte, b1: Byte, b2: Byte)
    ensures Merge(Sextet0(b0), Sextet1(b0, b1), 6) == b0
    ensures Merge(Sextet1(b0, b1), Sextet2(b1, b2), 4) == b1
    ensures Merge(Sextet2(b1, b2), Sextet3(b2), 2) == b2
  {
  }

  // ----- The round trip -------------------------------------------------------

  /** A decoder without pending bits does not care what it read last. */
  lemma LastIsSpent(alphabet: Alphabet, x: Byte, y: Byte, s: seq<Byte>)
    ensures DecodeChars(alphabet, x, 0, s) == DecodeChars(alphabet, y, 0, s)
  {
  }

  /** A decoder that may read what an encoder with `alphabet` writes. */
  predicate Reads(known: Alphabet, alphabet: Alphabet) {
    alphabet != Auto && (known == Auto || known == alphabet)
  }

  lemma DecodeLetter(alphabet: Alphabet, known: Alphabet, v: Byte, last: Byte, bits: nat, rest: seq<Byte>)
    returns (known': Alphabet)
    requires v < 64 && Reads(known, alphabet) && bits in {0, 2, 4, 6}
    ensures Reads(known', alphabet)
    ensures DecodeChars(known, last, bits, [Letter(alphabet, v)] + rest) ==
            if bits == 0 then DecodeChars(known', v, 6, rest)
            else Prepend(Merge(last, v, bits), DecodeChars(known', v, bits - 2, rest))
  {
    ValueOfLetter(alphabet, known, v);
    known' := Value(known, Letter(alphabet, v)).value.1;
    hide Letter, Value, Merge;
    assert ([Letter(alphabet, v)] + rest)[1..] == rest;
  }

  /** A full group decodes to its three bytes, and decoding goes on with no bits pending. */
  lemma DecodeFullGroup(alphabet: Alphabet, known: Alphabet, b: seq<Byte>, rest: seq<Byte>) returns (known': Alphabet)
    requires |b| == 3 && Reads(known, alphabet)
    ensures Reads(known', alphabet)
    ensures DecodeChars(known, 0, 0, Group(alphabet, b) + rest)
         == Prepend(b[0], Prepend(b[1], Prepend(b[2], DecodeChars(known', 0, 0, rest))))
  {
    hide Letter, Merge, DecodeChars;
    var v0, v1, v2, v3 := Sextet0(b[0]), Sextet1(b[0], b[1]), Sextet2(b[1], b[2]), Sextet3(b[2]);
    var c0, c1, c2, c3 := Letter(alphabet, v0), Letter(alphabet, v1), Letter(alphabet, v2), Letter(alphabet, v3);
    MergeSextets(b[0], b[1], b[2]);
    var s3 := [c3] + rest;
    var s2 := [c2] + s3;
    var s1 := [c1] + s2;
    assert Group(alphabet, b) + rest == [c0] + s1;
    var k1 := DecodeLetter(alphabet, known, v0, 0, 0, s1);
    var k2 := DecodeLetter(alphabet, k1, v1, v0, 6, s2);
    var k3 := DecodeLetter(alphabet, k2, v2, v1, 4, s3);
    known' := DecodeLetter(alphabet, k3, v3, v2, 2, rest);
    LastIsSpent(known', v3, 0, rest);
  }

  /** The characters of the last group before its padding. */
  lemma DecodeLastGroup(alphabet: Alphabet, known: Alphabet, b: seq<Byte>)
    requires 1 <= |b| <= 3 && Reads(known, alphabet)
    ensures PAD !in Group(alphabet, b)[..|b| + 1]
    ensures DecodeChars(known, 0, 0, Group(alphabet, b)[..|b| + 1]) == Ok(b)
  {
    LettersAreNotPadding(alphabet, b);
    hide *;
    if |b| == 3 {
      var g := Group(alphabet, b);
      var known' := DecodeFullGroup(alphabet, known, b, []);
      assert g[..4] == g + [];
      DecodeNothing(known', 0, 0);
      PrependThree(b);
    } else if |b| == 2 {
      DecodeTwoBytes(alphabet, known, b);
    } else {
      DecodeOneByte(alphabet, known, b);
    }
  }

  lemma PrependThree(b: seq<Byte>)
    requires |b| == 3
    ensures Prepend(b[0], Prepend(b[1], Prepend(b[2], Ok([])))) == Ok(b)
  {
    assert [b[0]] + ([b[1]] + ([b[2]] + [])) == b;
  }

  lemma DecodeTwoBytes(alphabet: Alphabet, known: Alphabet, b: seq<Byte>)
    requires |b| == 2 && Reads(known, alphabet)
    ensures DecodeChars(known, 0, 0, Group(alphabet, b)[..3]) == Ok(b)
  {
    hide Letter, Merge, DecodeChars, Sextet0, Sextet1, Sextet2;
    var v0, v1, v2 := Sextet0(b[0]), Sextet1(b[0], b[1]), Sextet2(b[1], 0);
    var s2 := [Letter(alphabet, v2)] + [];
    var s1 := [Letter(alphabet, v1)] + s2;
    assert Group(alphabet, b)[..3] == [Letter(alphabet, v0)] + s1;
    MergeSextets(b[0], b[1], 0);
    var k1 := DecodeLetter(alphabet, known, v0, 0, 0, s1);
    var k2 := DecodeLetter(alphabet, k1, v1, v0, 6, s2);
    var k3 := DecodeLetter(alphabet, k2, v2, v1, 4, []);
    DecodeNothing(k3, v2, 2);
    assert [b[0]] + ([b[1]] + []) == b;
  }

  lemma DecodeOneByte(alphabet: Alphabet, known: Alphabet, b: seq<Byte>)
    requires |b| == 1 && Reads(known, alphabet)
    ensures DecodeChars(known, 0, 0, Group(alphabet, b)[..2]) == Ok(b)
  {
    hide Letter, Merge, DecodeChars, Sextet0, Sextet1;
    var v0, v1 := Sextet0(b[0]), Sextet1(b[0], 0);
    var s1 := [Letter(alphabet, v1)] + [];
    assert Group(alphabet, b)[..2] == [Letter(alphabet, v0)] + s1;
    MergeSextets(b[0], 0, 0);
    var k1 := DecodeLetter(alphabet, known, v0, 0, 0, s1);
    var k2 := DecodeLetter(alphabet, k1, v1, v0, 6, []);
    DecodeNothing(k2, v1, 4);
    assert [b[0]] + [] == b;
  }

  lemma DecodeNothing(alphabet: Alphabet, last: Byte, bits: nat)
    requires bits in {0, 2, 4, 6}
    ensures DecodeChars(alphabet, last, bits, []) == Ok([])
  {
  }

  lemma LettersAreNotPadding(alphabet: Alphabet, b: seq<Byte>)
    requires 1 <= |b| <= 3 && alphabet != Auto
    ensures PAD !in Group(alphabet, b)[..|b| + 1] && OnlyPadding(Group(alphabet, b)[|b| + 1..])
  {
    hide Letter;
    var b1, b2 := if |b| > 1 then b[1] else 0, if |b| > 2 then b[2] else 0;
    ValueOfLetter(alphabet, alphabet, Sextet0(b[0]));
    ValueOfLetter(alphabet, alphabet, Sextet1(b[0], b1));
    ValueOfLetter(alphabet, alphabet, Sextet2(b1, b2));
    ValueOfLetter(alphabet, alphabet, Sextet3(b2));
  }

  /** How many characters of an encoding come before its padding. */
  function DataLength(size: nat): nat {
    size / 3 * 4 + (if size % 3 == 0 then 0 else size % 3 + 1)
  }

  lemma {:induction false} DecodeEncodedData(alphabet: Alphabet, known: Alphabet, b: seq<Byte>)
    requires Reads(known, Chosen(alphabet))
    ensures DataLength(|b|) <= |Encode(alphabet, b)|
    ensures PAD !in Encode(alphabet, b)[..DataLength(|b|)]
    ensures OnlyPadding(Encode(alphabet, b)[DataLength(|b|)..])
    ensures DecodeChars(known, 0, 0, Encode(alphabet, b)[..DataLength(|b|)]) == Ok(b)
    decreases |b|
  {
    hide DecodeChars, Letter, Group;
    if b == [] {
      DecodeNothing(known, 0, 0);
    } else if |b| <= 3 {
      DecodeLastGroup(Chosen(alphabet), known, b);
      LettersAreNotPadding(Chosen(alphabet), b);
    } else {
      hide Encode, DataLength, OnlyPadding, Chosen;
      DecodeEncodedData(alphabet, known, b[3..]);
      var rest := Encode(alphabet, b[3..])[..DataLength(|b| - 3)];
      var known' := DecodeFullGroup(Chosen(alphabet), known, b[..3], rest);
      DecodeEncodedData(alphabet, known', b[3..]);
      LongerEncoding(alphabet, b);
      PrependGroup(b);
    }
  }

  lemma PrependGroup(b: seq<Byte>)
    requires |b| > 3
    ensures Prepend(b[0], Prepend(b[1], Prepend(b[2], Ok(b[3..])))) == Ok(b)
  {
    assert [b[0]] + ([b[1]] + ([b[2]] + b[3..])) == b;
  }

  lemma LongerEncoding(alphabet: Alphabet, b: seq<Byte>)
    requires |b| > 3 && DataLength(|b| - 3) <= |Encode(alphabet, b[3..])|
    requires PAD !in Encode(alphabet, b[3..])[..DataLength(|b| - 3)]
    requires OnlyPadding(Encode(alphabet, b[3..])[DataLength(|b| - 3)..])
    ensures DataLength(|b|) <= |Encode(alphabet, b)|
    ensures Encode(alphabet, b)[..DataLength(|b|)]
         == Group(Chosen(alphabet), b[..3]) + Encode(alphabet, b[3..])[..DataLength(|b| - 3)]
    ensures PAD !in Encode(alphabet, b)[..DataLength(|b|)]
    ensures OnlyPadding(Encode(alphabet, b)[DataLength(|b|)..])
  {
    var g, rest := Group(Chosen(alphabet), b[..3]), Encode(alphabet, b[3..]);
    LettersAreNotPadding(Chosen(alphabet), b[..3]);
    EncodeStep(alphabet, b, 3);
    assert DataLength(|b|) == 4 + DataLength(|b| - 3);
    hide Encode, Group, DataLength, Chosen;
    SplitBehindGroup(g, rest, DataLength(|b| - 3));
  }

  lemma SplitBehindGroup(g: seq<Byte>, rest: seq<Byte>, n: nat)
    requires |g| == 4 && n <= |rest| && PAD !in g[..4] && PAD !in rest[..n]
    ensures (g + rest)[..4 + n] == g + rest[..n] && (g + rest)[4 + n..] == rest[n..]
    ensures PAD !in (g + rest)[..4 + n]
  {
    assert g[..4] == g;
  }

  lemma {:induction false} DataEndIs(s: seq<Byte>, e: nat)
    requires e <= |s| && PAD !in s[..e] && (e < |s| ==> s[e] == PAD)
    ensures DataEnd(s) == e
  {
    var d := DataEnd(s);
    forall k | 0 <= k < e ensures s[k] != PAD {
      assert s[..e][k] == s[k];
    }
    forall k | 0 <= k < d ensures s[k] != PAD {
      assert s[..d][k] == s[k];
    }
  }

  /** Decoding undoes encoding, for either alphabet, whether the decoder knows the alphabet or detects it. */
  lemma RoundTrip(alphabet: Alphabet, known: Alphabet, behavior: Behavior, b: seq<Byte>)
    requires known == Auto || known == Chosen(alphabet)
    ensures Decode(known, behavior, Encode(alphabet, b)) == Ok(b)
  {
    hide Encode, DecodeChars;
    var s, n := Encode(alphabet, b), DataLength(|b|);
    DecodeEncodedData(alphabet, known, b);
    assert n < |s| ==> s[n] == s[n..][0] == PAD;
    DataEndIs(s, n);
  }

  // ----- Sizes and accepted texts ---------------------------------------------

  /** Six bits a character, eight a byte; left-over bits are dropped. */
  lemma {:induction false} DecodedChars(alphabet: Alphabet, last: Byte, bits: nat, s: seq<Byte>)
    requires bits in {0, 2, 4, 6}
    ensures DecodeChars(alphabet, last, bits, s).Ok? ==>
              |DecodeChars(alphabet, last, bits, s).value| == (bits + 6 * |s|) / 8
    decreases |s|
  {
    hide Merge;
    if s != [] && Value(alphabet, s[0]).Ok? {
      var next := Value(alphabet, s[0]).value;
      DecodedChars(next.1, next.0, if bits == 0 then 6 else bits - 2, s[1..]);
    }
  }

  lemma DecodedSize(alphabet: Alphabet, behavior: Behavior, s: seq<Byte>)
    ensures Decode(alphabet, behavior, s).Ok? ==>
              |Decode(alphabet, behavior, s).value| == 6 * DataEnd(s) / 8 <= MaxDecodeSize(|s|)
  {
    hide DecodeChars;
    DecodedChars(alphabet, 0, 0, s[..DataEnd(s)]);
  }

  predicate IsAlphanumeric(c: Byte) {
    65 <= c <= 90 || 97 <= c <= 122 || 48 <= c <= 57
  }

  predicate IsStandardOnly(c: Byte) { c == 43 || c == 47 }

  predicate IsUrlSafeOnly(c: Byte) { c == 45 || c == 95 }

  /** All characters belong to one alphabet, namely the known one if there is one. */
  ghost predicate OneAlphabet(alphabet: Alphabet, s: seq<Byte>) {
    || (alphabet != UrlSafe && forall i :: 0 <= i < |s| ==> IsAlphanumeric(s[i]) || IsStandardOnly(s[i]))
    || (alphabet != Standard && forall i :: 0 <= i < |s| ==> IsAlphanumeric(s[i]) || IsUrlSafeOnly(s[i]))
  }

  lemma OneAlphabetStep(alphabet: Alphabet, s: seq<Byte>)
    requires s != []
    ensures OneAlphabet(alphabet, s) <==>
            Value(alphabet, s[0]).Ok? && OneAlphabet(Value(alphabet, s[0]).value.1, s[1..])
  {
    assert forall i :: 0 <= i < |s| - 1 ==> s[1..][i] == s[i + 1];
    assert forall i :: 1 <= i < |s| ==> s[i] == s[1..][i - 1];
  }

  lemma NothingIsOneAlphabet(alphabet: Alphabet, s: seq<Byte>)
    requires |s| == 0
    ensures OneAlphabet(alphabet, s)
  {
  }

  lemma {:induction false} DecodesOneAlphabet(alphabet: Alphabet, last: Byte, bits: nat, s: seq<Byte>)
    requires bits in {0, 2, 4, 6}
    ensures DecodeChars(alphabet, last, bits, s).Ok? <==> OneAlphabet(alphabet, s)
    decreases |s|
  {
    hide Merge, OneAlphabet, Value;
    if s == [] {
      NothingIsOneAlphabet(alphabet, s);
    } else {
      OneAlphabetStep(alphabet, s);
      if Value(alphabet, s[0]).Ok? {
        var next := Value(alphabet, s[0]).value;
        DecodesOneAlphabet(next.1, next.0, if bits == 0 then 6 else bits - 2, s[1..]);
      }
    }
  }

  /** A text decodes exactly when it uses one alphabet up to its padding and, unless loose, only padding after. */
  lemma DecodesExactly(alphabet: Alphabet, behavior: Behavior, s: seq<Byte>)
    ensures Decode(alphabet, behavior, s).Ok? <==>
            OneAlphabet(alphabet, s[..DataEnd(s)]) && (behavior == Loose || OnlyPadding(s[DataEnd(s)..]))
  {
    hide DecodeChars, OneAlphabet;
    DecodesOneAlphabet(alphabet, 0, 0, s[..DataEnd(s)]);
  }

  // ----- The decoder in place -------------------------------------------------

  function PrependAll(p: seq<Byte>, r: Result<seq<Byte>, Error>): Result<seq<Byte>, Error> {
    match r
    case Err(e) => Err(e)
    case Ok(out) => Ok(p + out)
  }

  lemma PrependLater(p: seq<Byte>, b: Byte, r: Result<seq<Byte>, Error>)
    ensures PrependAll(p, Prepend(b, r)) == PrependAll(p + [b], r)
  {
    if r.Ok? {
      assert p + ([b] + r.value) == (p + [b]) + r.value;
    }
  }

  lemma DecodeNext(known: Alphabet, last: Byte, bits: nat, s: seq<Byte>, i: nat, end: nat)
    requires i < end <= |s| && bits in {0, 2, 4, 6}
    ensures Value(known, s[i]).Err? ==> DecodeChars(known, last, bits, s[i..end]).Err?
    ensures Value(known, s[i]).Ok? ==>
              var v := Value(known, s[i]).value;
              DecodeChars(known, last, bits, s[i..end]) ==
              if bits == 0 then DecodeChars(v.1, v.0, 6, s[i + 1..end])
              else Prepend(Merge(last, v.0, bits), DecodeChars(v.1, v.0, bits - 2, s[i + 1..end]))
  {
    hide Merge, Value;
    assert s[i..end][0] == s[i] && s[i..end][1..] == s[i + 1..end];
  }

  lemma DataPart(s: seq<Byte>, i: nat)
    requires i <= DataEnd(s) && i < |s|
    ensures i < DataEnd(s) <==> s[i] != PAD
  {
    if i < DataEnd(s) {
      assert s[..DataEnd(s)][i] == s[i];
    }
  }

  /** One character: at most one byte is written, at a place already read. */
  method DecodeStep(a: array<Byte>, i: nat, n: nat, known: Alphabet, last: Byte, bits: nat)
    returns (ok: bool, n': nat, known': Alphabet, last': Byte, bits': nat)
    requires n <= i < a.Length && bits in {0, 2, 4, 6}
    modifies a
    ensures ok <==> Value(known, old(a[i])).Ok?
    ensures ok ==> (last', known') == Value(known, old(a[i])).value
    ensures ok ==> bits' == (if bits == 0 then 6 else bits - 2) && n' == if bits == 0 then n else n + 1
    ensures ok ==> a[..n'] == old(a[..n]) + (if bits == 0 then [] else [Merge(last, last', bits)])
    ensures ok ==> n <= n' && a[n'..] == old(a[n..])[n' - n..]
  {
    hide Merge;
    var v := Value(known, a[i]);
    ok, n', known', last', bits' := v.Ok?, n, known, last, bits;
    if ok {
      var part := v.value.0;
      known' := v.value.1;
      if bits + 6 >= 8 {
        a[n] := Merge(last, part, bits);
        n' := n + 1;
        bits' := bits - 2;
      } else {
        bits' := bits + 6;
      }
      last' := part;
    }
  }

  /** What is decoded already, followed by what `s[i..end]` decodes to, is the whole result. */
  ghost predicate Remains(goal: Result<seq<Byte>, Error>, done: seq<Byte>, s: seq<Byte>, i: nat, end: nat, known: Alphabet, last: Byte, bits: nat) {
    i <= end <= |s| && bits in {0, 2, 4, 6} && goal == PrependAll(done, DecodeChars(known, last, bits, s[i..end]))
  }

  lemma AllRemains(s: seq<Byte>, end: nat, known: Alphabet)
    requires end <= |s|
    ensures Remains(DecodeChars(known, 0, 0, s[..end]), [], s, 0, end, known, 0, 0)
  {
    assert s[0..end] == s[..end];
    PrependNothing(DecodeChars(known, 0, 0, s[..end]));
  }

  lemma NoneRemains(goal: Result<seq<Byte>, Error>, done: seq<Byte>, s: seq<Byte>, end: nat, known: Alphabet, last: Byte, bits: nat)
    requires Remains(goal, done, s, end, end, known, last, bits)
    ensures goal == Ok(done)
  {
    DecodeNothing(known, last, bits);
    assert s[end..end] == [] && done + [] == done;
  }

  /** One character of the data part, seen from the whole. */
  lemma DataStep(goal: Result<seq<Byte>, Error>, done: seq<Byte>, s: seq<Byte>, i: nat, end: nat, known: Alphabet, last: Byte, bits: nat)
    requires i < end && Remains(goal, done, s, i, end, known, last, bits)
    ensures Value(known, s[i]).Err? ==> goal.Err?
    ensures Value(known, s[i]).Ok? ==>
              var v := Value(known, s[i]).value;
              Remains(goal, done + (if bits == 0 then [] else [Merge(last, v.0, bits)]), s, i + 1, end,
                      v.1, v.0, if bits == 0 then 6 else bits - 2)
  {
    hide DecodeChars, Value, Merge;
    DecodeNext(known, last, bits, s, i, end);
    if Value(known, s[i]).Ok? {
      var v := Value(known, s[i]).value;
      if bits == 0 {
        assert done + [] == done;
      } else {
        PrependLater(done, Merge(last, v.0, bits), DecodeChars(v.1, v.0, bits - 2, s[i + 1..end]));
      }
    }
  }

  /** Decodes up to the first padding character. */
  method DecodeData(a: array<Byte>, alphabet: Alphabet) returns (ok: bool, i: nat, n: nat)
    modifies a
    ensures ok <==> DecodeChars(alphabet, 0, 0, old(a[..DataEnd(a[..])])).Ok?
    ensures ok ==> n <= i == old(DataEnd(a[..])) <= a.Length && a[n..] == old(a[n..])
    ensures ok ==> DecodeChars(alphabet, 0, 0, old(a[..DataEnd(a[..])])) == Ok(a[..n])
  {
    hide DecodeChars, Value, Merge, DataEnd, Remains;
    ghost var was := a[..];
    ghost var end := DataEnd(was);
    ghost var goal := DecodeChars(alphabet, 0, 0, was[..end]);
    var known, last, bits := alphabet, 0 as Byte, 0;
    i, n := 0, 0;
    AllRemains(was, end, known);
    while i < a.Length
      invariant n <= i <= end && bits in {0, 2, 4, 6} && 8 * n + bits == 6 * i
      invariant a[n..] == was[n..]
      invariant Remains(goal, a[..n], was, i, end, known, last, bits)
    {
      var c := a[i];
      assert c == a[n..][i - n] == was[i];
      DataPart(was, i);
      if c == PAD {
        break;
      }
      DataStep(goal, a[..n], was, i, end, known, last, bits);
      ghost var n0 := n;
      ok, n, known, last, bits := DecodeStep(a, i, n, known, last, bits);
      if !ok {
        return;
      }
      assert a[n..] == was[n0..][n - n0..] == was[n..];
      i := i + 1;
    }
    ok := true;
    NoneRemains(goal, a[..n], was, end, known, last, bits);
  }

  lemma PrependNothing(r: Result<seq<Byte>, Error>)
    ensures PrependAll([], r) == r
  {
    if r.Ok? {
      assert [] + r.value == r.value;
    }
  }

  /** The decoded bytes replace the beginning of the buffer; what lies behind them stays. */
  method DecodeInPlace(a: array<Byte>, alphabet: Alphabet, behavior: Behavior) returns (r: Result<nat, Error>)
    modifies a
    ensures r.Ok? <==> Decode(alphabet, behavior, old(a[..])).Ok?
    ensures r.Ok? ==>
              && r.value <= MaxDecodeSize(a.Length) && r.value <= a.Length
              && a[..r.value] == Decode(alphabet, behavior, old(a[..])).value
              && a[r.value..] == old(a[r.value..])
  {
    hide DecodeChars, DataEnd, MaxDecodeSize;
    ghost var was := a[..];
    ghost var end := DataEnd(was);
    DecodedSize(alphabet, behavior, was);
    assert a[..end] == was[..end];
    var ok, i, n := DecodeData(a, alphabet);
    if !ok {
      return Err(InvalidCharacter);
    }
    if behavior != Loose {
      while i < a.Length
        invariant end <= i <= a.Length && OnlyPadding(was[end..i])
      {
        assert a[i] == a[n..][i - n] == was[i];
        if a[i] != PAD {
          assert was[end..][i - end] != PAD;
          return Err(InvalidCharacter);
        }
        i := i + 1;
      }
      assert was[end..i] == was[end..];
    }
    return Ok(n);
  }

  /** The decoder into a fresh sequence. */
  method DecodeBytes(s: seq<Byte>, alphabet: Alphabet, behavior: Behavior) returns (r: Result<seq<Byte>, Error>)
    ensures r == Decode(alphabet, behavior, s)
    ensures r.Ok? ==> |r.value| <= MaxDecodeSize(|s|)
  {
    hide Decode;
    var a := new Byte[|s|](i requires 0 <= i < |s| => s[i]);
    assert a[..] == s;
    var n := DecodeInPlace(a, alphabet, behavior);
    DecodedSize(alphabet, behavior, s);
    r := if n.Ok? then Ok(a[..n.value]) else Err(InvalidCharacter);
    assert n.Err? ==> Decode(alphabet, behavior, s).error == InvalidCharacter;
  }
}
