/** The parts of a legacy GGML file: each reader succeeds exactly on the bytes of the value it returns. */
module GgmlParts {
  import opened Wrappers
  import opened GgmlFile

  // ----- Header ---------------------------------------------------------------

  datatype Format = Ggml | Ggmf | Ggjt

  datatype Header = Header(format: Format, version: nat)

  function Ascii(s: string): (b: seq<Byte>)
    ensures |b| == |s|
  {
    seq(|s|, k requires 0 <= k < |s| => s[k] as int % 256)
  }

  const GGUF_MAGIC: seq<Byte> := [0x47, 0x47, 0x55, 0x46]
  const GGML_MAGIC: seq<Byte> := [0x6c, 0x6d, 0x67, 0x67]
  const GGMF_MAGIC: seq<Byte> := [0x66, 0x6d, 0x67, 0x67]
  const GGJT_MAGIC: seq<Byte> := [0x74, 0x6a, 0x67, 0x67]

  function ReadHeader(data: seq<Byte>, o: nat): Result<Read<Header>, Error> {
    var magic := Slice(data, o, 4);
    if magic == GGUF_MAGIC then Err(AlreadyGguf)
    else if magic == GGML_MAGIC then Ok(Read(Header(Ggml, 1), o + 4))
    else
      var version := Word(data, o + 4);
      if version.None? then Err(Truncated)
      else if magic == GGMF_MAGIC then
        if version.value != 1 then Err(UnexpectedVersion) else Ok(Read(Header(Ggmf, 1), o + 8))
      else if magic == GGJT_MAGIC then
        if version.value < 1 || version.value > 3 then Err(UnexpectedVersion)
        else Ok(Read(Header(Ggjt, version.value), o + 8))
      else Err(UnexpectedMagic)
  }

  predicate HeaderOk(h: Header) {
    match h.format
    case Ggml => h.version == 1
    case Ggmf => h.version == 1
    case Ggjt => 1 <= h.version <= 3
  }

  function HeaderBytes(h: Header): seq<Byte> {
    match h.format
    case Ggml => GGML_MAGIC
    case Ggmf => GGMF_MAGIC + LittleEndian(h.version, 4)
    case Ggjt => GGJT_MAGIC + LittleEndian(h.version, 4)
  }

  lemma HeaderExactly(data: seq<Byte>, o: nat, h: Header, e: nat)
    requires o <= |data|
    ensures ReadHeader(data, o) == Ok(Read(h, e)) <==>
            HeaderOk(h) && At(data, o, HeaderBytes(h)) && e == o + |HeaderBytes(h)|
  {
    MagicExactly(data, o, GGML_MAGIC);
    MagicExactly(data, o, GGMF_MAGIC);
    MagicExactly(data, o, GGJT_MAGIC);
    MagicExactly(data, o, GGUF_MAGIC);
    WordExactly(data, o + 4, h.version);
    AtConcat(data, o, GGMF_MAGIC, LittleEndian(h.version, 4));
    AtConcat(data, o, GGJT_MAGIC, LittleEndian(h.version, 4));
    MagicsDiffer();
    hide At, Slice, Word, LittleEndian;
  }

  lemma MagicsDiffer()
    ensures GGML_MAGIC != GGMF_MAGIC && GGML_MAGIC != GGJT_MAGIC && GGMF_MAGIC != GGJT_MAGIC
    ensures GGUF_MAGIC != GGML_MAGIC && GGUF_MAGIC != GGMF_MAGIC && GGUF_MAGIC != GGJT_MAGIC
  {
    assert GGML_MAGIC[0] == 0x6c && GGMF_MAGIC[0] == 0x66 && GGJT_MAGIC[0] == 0x74 && GGUF_MAGIC[0] == 0x47;
  }

  lemma MagicExactly(data: seq<Byte>, o: nat, magic: seq<Byte>)
    requires o <= |data| && |magic| == 4
    ensures Slice(data, o, 4) == magic <==> At(data, o, magic)
  {
    SliceExactly(data, o, magic);
  }

  // ----- Hyperparameters ------------------------------------------------------

  /** `nFf` is not stored in the header; it is found once the tensors are known. */
  datatype Hyper = Hyper(nVocab: nat, nEmbd: nat, nMult: nat, nHead: nat, nLayer: nat, nRot: nat,
                         ftype: nat, nFf: nat)

  predicate IsFType(n: nat) { n <= 4 || 7 <= n <= 18 }

  function ReadHyper(data: seq<Byte>, o: nat): Result<Read<Hyper>, Error> {
    var w := Words(data, o, 7);
    if w.None? then Err(Truncated)
    else
      WordsCount(data, o, 7);
      var h := w.value;
      if !IsFType(h[6]) then Err(InvalidFType)
      else Ok(Read(Hyper(h[0], h[1], h[2], h[3], h[4], h[5], h[6], 0), o + 28))
  }

  lemma {:induction false} WordsCount(data: seq<Byte>, o: nat, k: nat)
    ensures Words(data, o, k).Some? ==> |Words(data, o, k).value| == k && (0 < k ==> o + 4 * k <= |data|)
    decreases k
  {
    if k != 0 {
      WordsCount(data, o + 4, k - 1);
    }
  }

  function HyperWords(h: Hyper): seq<nat> {
    [h.nVocab, h.nEmbd, h.nMult, h.nHead, h.nLayer, h.nRot, h.ftype]
  }

  predicate HyperOk(h: Hyper) { AreWords(HyperWords(h)) && IsFType(h.ftype) }

  lemma HyperExactly(data: seq<Byte>, o: nat, h: Hyper, e: nat)
    requires o <= |data|
    ensures ReadHyper(data, o) == Ok(Read(h, e)) <==>
            HyperOk(h) && h.nFf == 0 && At(data, o, WordBytes(HyperWords(h))) && e == o + 28
  {
    hide Words, At, WordBytes, AreWords;
    WordsExactly(data, o, HyperWords(h));
    WordsCount(data, o, 7);
    var w := Words(data, o, 7);
    if w.Some? && IsFType(w.value[6]) {
      var r := ReadHyper(data, o).value.value;
      assert HyperWords(r) == w.value;
    }
  }

  /** Which quantizations a file version may carry. */
  predicate Convertible(h: Header, ftype: nat) {
    if h.format != Ggjt || h.version < 2 then ftype <= 1
    else h.version == 2 ==> ftype !in {2, 3, 4, 7}
  }

  // ----- Vocabulary -----------------------------------------------------------

  /** The score is kept as its four bytes; files without scores leave it out. */
  datatype Item = Item(text: seq<Byte>, score: Option<seq<Byte>>)

  function ReadItem(data: seq<Byte>, o: nat, scores: bool): (r: Result<Read<Item>, Error>)
    ensures r.Ok? ==> o + 4 <= r.value.next
  {
    var w := Word(data, o);
    if w.None? then Err(Truncated)
    else if w.value >= 4096 then Err(AbsurdItem)
    else
      var text := Slice(data, o + 4, w.value);
      var p := o + 4 + w.value;
      if !scores then Ok(Read(Item(text, None), p))
      else if p + 4 > |data| then Err(Truncated)
      else Ok(Read(Item(text, Some(data[p..p + 4])), p + 4))
  }

  predicate ItemOk(it: Item, scores: bool) {
    |it.text| < 4096 && it.score.Some? == scores && (scores ==> |it.score.value| == 4)
  }

  function ItemBytes(it: Item): seq<Byte> {
    LittleEndian(|it.text|, 4) + (it.text + ScoreBytes(it))
  }

  lemma ItemExactly(data: seq<Byte>, o: nat, scores: bool, it: Item, e: nat)
    requires e <= |data|
    ensures ReadItem(data, o, scores) == Ok(Read(it, e)) <==>
            ItemOk(it, scores) && At(data, o, ItemBytes(it)) && e == o + |ItemBytes(it)|
  {
    hide *;
    if ReadItem(data, o, scores) == Ok(Read(it, e)) {
      ReadItemIsAt(data, o, scores, it, e);
    }
    if ItemOk(it, scores) && At(data, o, ItemBytes(it)) && e == o + |ItemBytes(it)| {
      ItemAtIsRead(data, o, scores, it, e);
    }
  }

  function ScoreBytes(it: Item): seq<Byte> {
    if it.score.Some? then it.score.value else []
  }

  /** The parts of an item's bytes. */
  lemma ItemPartsAt(data: seq<Byte>, o: nat, it: Item)
    ensures |ItemBytes(it)| == 4 + |it.text| + |ScoreBytes(it)|
    ensures At(data, o, ItemBytes(it)) <==>
            At(data, o, LittleEndian(|it.text|, 4)) && At(data, o + 4, it.text)
            && At(data, o + 4 + |it.text|, ScoreBytes(it))
  {
    hide At, LittleEndian;
    AtConcat(data, o, LittleEndian(|it.text|, 4), it.text + ScoreBytes(it));
    AtConcat(data, o + 4, it.text, ScoreBytes(it));
  }

  lemma ReadItemIsAt(data: seq<Byte>, o: nat, scores: bool, it: Item, e: nat)
    requires ReadItem(data, o, scores) == Ok(Read(it, e)) && e <= |data|
    ensures ItemOk(it, scores) && At(data, o, ItemBytes(it)) && e == o + |ItemBytes(it)|
  {
    WordExactly(data, o, |it.text|);
    ItemPartsAt(data, o, it);
    hide LittleEndian, Word, ItemBytes;
  }

  lemma ItemAtIsRead(data: seq<Byte>, o: nat, scores: bool, it: Item, e: nat)
    requires ItemOk(it, scores) && At(data, o, ItemBytes(it)) && e == o + |ItemBytes(it)|
    ensures ReadItem(data, o, scores) == Ok(Read(it, e))
  {
    WordExactly(data, o, |it.text|);
    ItemPartsAt(data, o, it);
    hide LittleEndian, Word, ItemBytes;
    SliceExactly(data, o + 4, it.text);
  }

  /** Reads in sequence: what was read before stands in front. */
  function Prepend<T>(before: seq<T>, r: Result<Read<seq<T>>, Error>): Result<Read<seq<T>>, Error> {
    if r.Ok? then Ok(Read(before + r.value.value, r.value.next)) else r
  }

  function ReadItems(data: seq<Byte>, o: nat, n: nat, scores: bool): (r: Result<Read<seq<Item>>, Error>)
    ensures r.Ok? ==> o <= r.value.next
    decreases n
  {
    if n == 0 then Ok(Read([], o))
    else
      var first := ReadItem(data, o, scores);
      if first.Err? then Err(first.error)
      else Prepend([first.value.value], ReadItems(data, first.value.next, n - 1, scores))
  }

  predicate ItemsOk(items: seq<Item>, scores: bool) { forall it :: it in items ==> ItemOk(it, scores) }

  function ItemsBytes(items: seq<Item>): seq<Byte> {
    if items == [] then [] else ItemBytes(items[0]) + ItemsBytes(items[1..])
  }

  predicate ItemsAt(data: seq<Byte>, o: nat, scores: bool, items: seq<Item>, e: nat) {
    ItemsOk(items, scores) && At(data, o, ItemsBytes(items)) && e == o + |ItemsBytes(items)|
  }

  lemma {:induction false} ItemsExactly(data: seq<Byte>, o: nat, scores: bool, items: seq<Item>, e: nat)
    requires e <= |data|
    ensures ReadItems(data, o, |items|, scores) == Ok(Read(items, e)) <==> ItemsAt(data, o, scores, items, e)
    decreases |items|
  {
    hide *;
    if items == [] {
      NoItems(data, o, scores, e);
    } else {
      var it, rest := items[0], items[1..];
      assert items == [it] + rest && |items| == 1 + |rest|;
      var mid := o + |ItemBytes(it)|;
      ItemsStep(data, o, scores, it, rest, e);
      ItemsAtStep(data, o, scores, it, rest, e);
      FirstItemExactly(data, o, scores, it);
      if mid <= |data| {
        ItemsExactly(data, mid, scores, rest, e);
      }
    }
  }

  lemma NoItems(data: seq<Byte>, o: nat, scores: bool, e: nat)
    requires e <= |data|
    ensures ReadItems(data, o, 0, scores) == Ok(Read([], e)) <==> ItemsAt(data, o, scores, [], e)
  {
  }

  lemma FirstItemExactly(data: seq<Byte>, o: nat, scores: bool, it: Item)
    ensures
      var r, mid := ReadItem(data, o, scores), o + |ItemBytes(it)|;
      r.Ok? && r.value.value == it && r.value.next <= |data| <==>
      mid <= |data| && r == Ok(Read(it, mid)) && ItemOk(it, scores) && At(data, o, ItemBytes(it))
    ensures
      var r, mid := ReadItem(data, o, scores), o + |ItemBytes(it)|;
      mid <= |data| && ItemOk(it, scores) && At(data, o, ItemBytes(it)) ==> r == Ok(Read(it, mid))
  {
    hide *;
    var r, mid := ReadItem(data, o, scores), o + |ItemBytes(it)|;
    if r.Ok? && r.value.next <= |data| {
      ItemExactly(data, o, scores, it, r.value.next);
    }
    if mid <= |data| {
      ItemExactly(data, o, scores, it, mid);
    }
  }

  lemma ItemsAtStep(data: seq<Byte>, o: nat, scores: bool, it: Item, rest: seq<Item>, e: nat)
    requires e <= |data|
    ensures
      var mid := o + |ItemBytes(it)|;
      ItemsAt(data, o, scores, [it] + rest, e) <==>
      mid <= |data| && ItemOk(it, scores) && At(data, o, ItemBytes(it)) && ItemsAt(data, mid, scores, rest, e)
  {
    hide ItemOk, ItemBytes;
    var items := [it] + rest;
    assert items[0] == it && items[1..] == rest;
    assert ItemsOk(items, scores) <==> ItemOk(it, scores) && ItemsOk(rest, scores);
    assert ItemsBytes(items) == ItemBytes(it) + ItemsBytes(rest);
    hide ItemsOk, ItemsBytes;
    AtConcat(data, o, ItemBytes(it), ItemsBytes(rest));
  }

  lemma ItemsStep(data: seq<Byte>, o: nat, scores: bool, it: Item, rest: seq<Item>, e: nat)
    requires e <= |data|
    ensures
      var first := ReadItem(data, o, scores);
      ReadItems(data, o, 1 + |rest|, scores) == Ok(Read([it] + rest, e)) <==>
      first.Ok? && first.value.value == it && first.value.next <= |data|
      && ReadItems(data, first.value.next, |rest|, scores) == Ok(Read(rest, e))
  {
    var first := ReadItem(data, o, scores);
    if first.Ok? {
      PrependExactly(first.value.value, ReadItems(data, first.value.next, |rest|, scores), it, rest, e);
    }
  }

  lemma PrependExactly<T>(x: T, r: Result<Read<seq<T>>, Error>, y: T, ys: seq<T>, e: nat)
    ensures Prepend([x], r) == Ok(Read([y] + ys, e)) <==> x == y && r == Ok(Read(ys, e))
  {
    if Prepend([x], r) == Ok(Read([y] + ys, e)) {
      var xs := [x] + r.value.value;
      assert xs[0] == x && xs[1..] == r.value.value;
      assert ([y] + ys)[0] == y && ([y] + ys)[1..] == ys;
    }
  }

  /** Reading on in a loop, the values kept in front. */
  lemma PrependTwice<T>(before: seq<T>, x: T, r: Result<Read<seq<T>>, Error>)
    ensures Prepend(before, Prepend([x], r)) == Prepend(before + [x], r)
  {
    if r.Ok? {
      assert before + ([x] + r.value.value) == before + [x] + r.value.value;
    }
  }

  lemma PrependNothing<T>(r: Result<Read<seq<T>>, Error>)
    ensures Prepend([], r) == r
  {
    if r.Ok? {
      assert [] + r.value.value == r.value.value;
    }
  }
}
