/** Loading a legacy GGML model: it succeeds exactly on the files that are laid out as their contents demand. */
module GgmlLoader {
  import opened Wrappers
  import opened GgmlFile
  import opened GgmlParts
  import opened GgmlTensors

  datatype Contents = Contents(header: Header, hyper: Hyper, vocab: seq<Item>,
                               tensors: seq<Tensor>, index: map<seq<Byte>, nat>)

  const FF_NAME := Ascii("layers.0.feed_forward.w1.weight")

  /** The feed-forward length is the second dimension of a tensor known by name. */
  function FfLength(tensors: seq<Tensor>): (r: Result<nat, Error>)
    ensures r.Err? ==> r.error == MissingFf || r.error == FfNotAMatrix
  {
    IndexFindsLast(tensors, FF_NAME);
    var index := IndexOf(tensors);
    if FF_NAME !in index then Err(MissingFf)
    else if |tensors[index[FF_NAME]].dims| < 2 then Err(FfNotAMatrix)
    else Ok(tensors[index[FF_NAME]].dims[1])
  }

  function Complete(h: Header, hyper: Hyper, vocab: seq<Item>, tensors: seq<Tensor>, n: nat): Contents {
    Contents(h, hyper.(nFf := n), vocab, tensors, IndexOf(tensors))
  }

  /** Everything up to the tensors. */
  function ReadPreamble(data: seq<Byte>, o: nat): Result<Read<(Header, Hyper, seq<Item>)>, Error> {
    var header := ReadHeader(data, o);
    if header.Err? then Err(header.error)
    else
      var h := header.value.value;
      var hyper := ReadHyper(data, header.value.next);
      if hyper.Err? then Err(hyper.error)
      else if !Convertible(h, hyper.value.value.ftype) then Err(NotConvertible)
      else
        var vocab := ReadItems(data, hyper.value.next, hyper.value.value.nVocab, h.format != Ggml);
        if vocab.Err? then Err(vocab.error)
        else Ok(Read((h, hyper.value.value, vocab.value.value), vocab.value.next))
  }

  function Load(data: seq<Byte>, o: nat): Result<Read<Contents>, Error> {
    var front := ReadPreamble(data, o);
    if front.Err? then Err(front.error)
    else
      var (h, hyper, vocab) := front.value.value;
      var tensors := ReadTensors(data, front.value.next, h.format == Ggjt);
      if tensors.Err? then Err(tensors.error)
      else
        var ff := FfLength(tensors.value.value);
        if ff.Err? then Err(ff.error)
        else Ok(Read(Complete(h, hyper, vocab, tensors.value.value, ff.value), tensors.value.next))
  }

  // ----- The layout -----------------------------------------------------------

  predicate PreambleOk(h: Header, hyper: Hyper, vocab: seq<Item>) {
    && HeaderOk(h) && HyperOk(hyper) && hyper.nFf == 0 && Convertible(h, hyper.ftype)
    && |vocab| == hyper.nVocab && ItemsOk(vocab, h.format != Ggml)
  }

  function PreambleBytes(h: Header, hyper: Hyper, vocab: seq<Item>): seq<Byte> {
    HeaderBytes(h) + (WordBytes(HyperWords(hyper)) + ItemsBytes(vocab))
  }

  lemma PreambleAt(data: seq<Byte>, o: nat, h: Header, hyper: Hyper, vocab: seq<Item>)
    ensures
      var p := o + |HeaderBytes(h)|;
      At(data, o, PreambleBytes(h, hyper, vocab)) <==>
      && At(data, o, HeaderBytes(h))
      && At(data, p, WordBytes(HyperWords(hyper)))
      && At(data, p + 28, ItemsBytes(vocab))
  {
    hide At, HeaderBytes, HyperWords, ItemsBytes;
    var words := WordBytes(HyperWords(hyper));
    assert |HyperWords(hyper)| == 7 by { HyperHasSevenWords(hyper); }
    AtConcat(data, o, HeaderBytes(h), words + ItemsBytes(vocab));
    AtConcat(data, o + |HeaderBytes(h)|, words, ItemsBytes(vocab));
  }

  lemma HyperHasSevenWords(h: Hyper)
    ensures |HyperWords(h)| == 7
  {
  }

  lemma PreambleExactly(data: seq<Byte>, o: nat, h: Header, hyper: Hyper, vocab: seq<Item>, e: nat)
    requires o <= |data| && e <= |data|
    ensures
      ReadPreamble(data, o) == Ok(Read((h, hyper, vocab), e)) <==>
      && PreambleOk(h, hyper, vocab)
      && At(data, o, PreambleBytes(h, hyper, vocab))
      && e == o + |PreambleBytes(h, hyper, vocab)|
  {
    hide *;
    if ReadPreamble(data, o) == Ok(Read((h, hyper, vocab), e)) {
      PreambleReadIsAt(data, o, h, hyper, vocab, e);
    }
    if PreambleOk(h, hyper, vocab) && At(data, o, PreambleBytes(h, hyper, vocab))
       && e == o + |PreambleBytes(h, hyper, vocab)| {
      PreambleAtIsRead(data, o, h, hyper, vocab, e);
    }
  }

  lemma PreambleReadIsAt(data: seq<Byte>, o: nat, h: Header, hyper: Hyper, vocab: seq<Item>, e: nat)
    requires o <= |data| && e <= |data|
    requires ReadPreamble(data, o) == Ok(Read((h, hyper, vocab), e))
    ensures PreambleOk(h, hyper, vocab) && At(data, o, PreambleBytes(h, hyper, vocab))
    ensures e == o + |PreambleBytes(h, hyper, vocab)|
  {
    hide HeaderBytes, HyperWords, ItemsBytes, WordBytes, ReadHeader, ReadHyper, ReadItems, HeaderOk, HyperOk, Convertible, ItemsOk;
    var p := ReadHeader(data, o).value.next;
    HeaderExactly(data, o, h, p);
    HyperExactly(data, p, hyper, ReadHyper(data, p).value.next);
    VocabCount(data, p + 28, hyper.nVocab, h.format != Ggml);
    ItemsExactly(data, p + 28, h.format != Ggml, vocab, e);
    PreambleAt(data, o, h, hyper, vocab);
    HyperHasSevenWords(hyper);
  }

  lemma {:induction false} VocabCount(data: seq<Byte>, o: nat, n: nat, scores: bool)
    ensures ReadItems(data, o, n, scores).Ok? ==> |ReadItems(data, o, n, scores).value.value| == n
    decreases n
  {
    hide ReadItem;
    if n > 0 {
      var first := ReadItem(data, o, scores);
      if first.Ok? {
        VocabCount(data, first.value.next, n - 1, scores);
      }
    }
  }

  lemma PreambleAtIsRead(data: seq<Byte>, o: nat, h: Header, hyper: Hyper, vocab: seq<Item>, e: nat)
    requires o <= |data| && e <= |data|
    requires PreambleOk(h, hyper, vocab) && At(data, o, PreambleBytes(h, hyper, vocab))
    requires e == o + |PreambleBytes(h, hyper, vocab)|
    ensures ReadPreamble(data, o) == Ok(Read((h, hyper, vocab), e))
  {
    hide HeaderBytes, HyperWords, ItemsBytes, WordBytes, ReadHeader, ReadHyper, ReadItems, HeaderOk, HyperOk, Convertible, ItemsOk;
    PreambleAt(data, o, h, hyper, vocab);
    HyperHasSevenWords(hyper);
    var p := o + |HeaderBytes(h)|;
    HeaderExactly(data, o, h, p);
    HyperExactly(data, p, hyper, p + 28);
    ItemsExactly(data, p + 28, h.format != Ggml, vocab, e);
  }

  /** The file from `o` to its end is exactly the layout of `m`. */
  predicate Holds(data: seq<Byte>, o: nat, m: Contents) {
    var bare := m.hyper.(nFf := 0);
    var front := PreambleBytes(m.header, bare, m.vocab);
    && PreambleOk(m.header, bare, m.vocab)
    && At(data, o, front)
    && LaidOut(data, o + |front|, m.header.format == Ggjt, m.tensors)
    && m.index == IndexOf(m.tensors)
    && FfLength(m.tensors) == Ok(m.hyper.nFf)
  }

  /** Loading to the end of the file succeeds exactly on the files that hold the result. */
  lemma LoadsExactly(data: seq<Byte>, o: nat, m: Contents)
    requires o <= |data|
    ensures Load(data, o) == Ok(Read(m, |data|)) <==> Holds(data, o, m)
  {
    hide *;
    if Load(data, o) == Ok(Read(m, |data|)) {
      LoadedIsHeld(data, o, m);
    }
    if Holds(data, o, m) {
      HeldIsLoaded(data, o, m);
    }
  }

  lemma LoadedIsHeld(data: seq<Byte>, o: nat, m: Contents)
    requires o <= |data| && Load(data, o) == Ok(Read(m, |data|))
    ensures Holds(data, o, m)
  {
    hide At, PreambleBytes, ReadPreamble, ReadTensors, LaidOut, FfLength, IndexOf;
    var front := ReadPreamble(data, o).value;
    var padded := m.header.format == Ggjt;
    assert ReadTensors(data, front.next, padded) == Ok(Read(m.tensors, |data|));
    PreambleExactly(data, o, m.header, front.value.1, m.vocab, front.next);
    TensorsExactly(data, front.next, padded, m.tensors);
    assert m.hyper.(nFf := 0) == front.value.1;
  }

  lemma HeldIsLoaded(data: seq<Byte>, o: nat, m: Contents)
    requires o <= |data| && Holds(data, o, m)
    ensures Load(data, o) == Ok(Read(m, |data|))
  {
    hide PreambleOk, PreambleBytes, ReadPreamble, ReadTensors, LaidOut, FfLength, IndexOf;
    var bare := m.hyper.(nFf := 0);
    var mid := o + |PreambleBytes(m.header, bare, m.vocab)|;
    PreambleExactly(data, o, m.header, bare, m.vocab, mid);
    TensorsExactly(data, mid, m.header.format == Ggjt, m.tensors);
  }

  /** A file cut in its last region is loaded just the same, with a region that runs past its end. */
  lemma CutFileIsLoaded(data: seq<Byte>, o: nat, m: Contents, n: nat)
    requires o <= |data| && Holds(data, o, m) && m.tensors != []
    requires m.tensors[|m.tensors| - 1].start <= n <= |data|
    ensures Load(data[..n], o) == Ok(Read(m, |data|))
  {
    hide PreambleOk, PreambleBytes, ReadPreamble, ReadTensors, LaidOut, FfLength, IndexOf, At;
    var bare := m.hyper.(nFf := 0);
    var front := PreambleBytes(m.header, bare, m.vocab);
    FirstStartsFirst(data, o + |front|, m.header.format == Ggjt, m.tensors);
    CutListIsRead(data, n, o + |front|, m.header.format == Ggjt, m.tensors);
    AtCut(data, n, o, front);
    PreambleExactly(data[..n], o, m.header, bare, m.vocab, o + |front|);
  }

  // ----- What the formats and the parts of the result are -------------------------

  /** The feed-forward length is the second dimension of the last tensor of one name. */
  lemma FfLengthExactly(ts: seq<Tensor>, n: nat)
    ensures FfLength(ts) == Ok(n) <==>
            exists k :: 0 <= k < |ts| && ts[k].name == Ascii("layers.0.feed_forward.w1.weight")
                        && (forall j :: k < j < |ts| ==> ts[j].name != ts[k].name)
                        && |ts[k].dims| >= 2 && ts[k].dims[1] == n
  {
    IndexFindsLast(ts, FF_NAME);
    hide Ascii, IndexOf;
  }

  /** Records that stand one behind the other, with padding or without. */
  lemma {:induction false} RecordsFollow(data: seq<Byte>, o: nat, padded: bool, ts: seq<Tensor>, k: nat)
    requires LaidOut(data, o, padded, ts) && k < |ts|
    ensures
      var p := (if k == 0 then o else ts[k - 1].End()) + 12 + 4 * |ts[k].dims| + |ts[k].name|;
      if padded then ts[k].start % 32 == 0 && p <= ts[k].start < p + 32 else ts[k].start == p
    decreases |ts|
  {
    hide At, Aligned, TensorOk;
    if k > 0 {
      RecordsFollow(data, ts[0].End(), padded, ts[1..], k - 1);
    }
  }

  /** Only the oldest format has no scores, and only the newest one pads its tensors. */
  lemma FormatsDiffer(data: seq<Byte>, o: nat, m: Contents, k: nat)
    requires o <= |data| && Load(data, o) == Ok(Read(m, |data|))
    ensures m.header.format == Ggml ==> forall it :: it in m.vocab ==> it.score == None
    ensures m.header.format != Ggml ==> forall it :: it in m.vocab ==> it.score.Some?
    ensures |m.vocab| == m.hyper.nVocab
    ensures
      0 < k < |m.tensors| ==>
        var p := m.tensors[k - 1].End() + 12 + 4 * |m.tensors[k].dims| + |m.tensors[k].name|;
        if m.header.format == Ggjt then m.tensors[k].start % 32 == 0 && p <= m.tensors[k].start < p + 32
        else m.tensors[k].start == p
  {
    hide *;
    LoadsExactly(data, o, m);
    HoldsParts(data, o, m);
    VocabScores(m.header, m.hyper.(nFf := 0), m.vocab);
    if k < |m.tensors| {
      RecordsFollow(data, o + |PreambleBytes(m.header, m.hyper.(nFf := 0), m.vocab)|, m.header.format == Ggjt, m.tensors, k);
    }
  }

  lemma HoldsParts(data: seq<Byte>, o: nat, m: Contents)
    requires Holds(data, o, m)
    ensures PreambleOk(m.header, m.hyper.(nFf := 0), m.vocab)
    ensures LaidOut(data, o + |PreambleBytes(m.header, m.hyper.(nFf := 0), m.vocab)|, m.header.format == Ggjt, m.tensors)
  {
    hide PreambleOk, PreambleBytes, LaidOut, At, IndexOf, FfLength;
  }

  lemma VocabScores(h: Header, hyper: Hyper, vocab: seq<Item>)
    requires PreambleOk(h, hyper, vocab)
    ensures forall it :: it in vocab ==> it.score.Some? == (h.format != Ggml)
    ensures |vocab| == hyper.nVocab
  {
    hide HeaderOk, HyperOk, Convertible;
  }

  // ----- Writing and loading --------------------------------------------------

  /** A tensor to be written: its record and its data. */
  datatype Entry = Entry(name: seq<Byte>, dims: seq<nat>, dtype: nat, data: seq<Byte>)

  predicate EntryOk(en: Entry) {
    && |en.dims| <= 4 && AreWords(en.dims) && |en.name| < 4096
    && BlockSize(en.dtype).Some? && |en.data| == ByteSize(en.dims, en.dtype)
    && Weight(en.dims, en.dtype) < TWO_TO_63
  }

  predicate EntriesOk(entries: seq<Entry>) { forall en :: en in entries ==> EntryOk(en) }

  /** The record the loader is to find for an entry written at `o`. */
  function Placed(o: nat, padded: bool, en: Entry): Tensor {
    Tensor(en.name, en.dims, en.dtype, Aligned(o + 12 + 4 * |en.dims| + |en.name|, padded), |en.data|)
  }

  function EntryBytes(o: nat, padded: bool, en: Entry): (s: seq<Byte>)
    ensures o + |s| == Placed(o, padded, en).End()
  {
    var t := Placed(o, padded, en);
    var head := TensorHead(t);
    head + (Zeros(t.start - (o + |head|)) + en.data)
  }

  function Zeros(n: nat): (s: seq<Byte>)
    ensures |s| == n
  {
    seq(n, _ => 0)
  }

  function EntriesBytes(o: nat, padded: bool, entries: seq<Entry>): seq<Byte>
    decreases |entries|
  {
    if entries == [] then []
    else EntryBytes(o, padded, entries[0]) + EntriesBytes(Placed(o, padded, entries[0]).End(), padded, entries[1..])
  }

  function AllPlaced(o: nat, padded: bool, entries: seq<Entry>): (ts: seq<Tensor>)
    ensures |ts| == |entries|
    decreases |entries|
  {
    if entries == [] then []
    else [Placed(o, padded, entries[0])] + AllPlaced(Placed(o, padded, entries[0]).End(), padded, entries[1..])
  }

  lemma EntryStandsAt(data: seq<Byte>, o: nat, padded: bool, en: Entry)
    requires EntryOk(en) && At(data, o, EntryBytes(o, padded, en)) && |data| < TWO_TO_63
    ensures TensorAt(data, o, padded, Placed(o, padded, en))
    ensures At(data, Placed(o, padded, en).start, en.data)
  {
    hide TensorHead, Weight, ByteSize, BlockSize, At;
    var t := Placed(o, padded, en);
    var head := TensorHead(t);
    var gap := Zeros(t.start - (o + |head|));
    AtConcat(data, o, head, gap + en.data);
    AtConcat(data, o + |head|, gap, en.data);
    AtFits(data, o, EntryBytes(o, padded, en));
  }

  lemma AtFits(data: seq<Byte>, o: nat, s: seq<Byte>)
    requires At(data, o, s)
    ensures o + |s| <= |data|
  {
  }

  /** Written entries are laid out, each with its data at the start of its region. */
  lemma {:induction false} EntriesLieOut(data: seq<Byte>, o: nat, padded: bool, entries: seq<Entry>)
    requires EntriesOk(entries) && o <= |data| < TWO_TO_63
    requires At(data, o, EntriesBytes(o, padded, entries)) && o + |EntriesBytes(o, padded, entries)| == |data|
    ensures LaidOut(data, o, padded, AllPlaced(o, padded, entries))
    ensures forall k :: 0 <= k < |entries| ==> At(data, AllPlaced(o, padded, entries)[k].start, entries[k].data)
    decreases |entries|
  {
    hide EntryBytes, EntryOk, TensorAt, At, Placed;
    if entries != [] {
      var en, rest := entries[0], entries[1..];
      var t := Placed(o, padded, en);
      AtConcat(data, o, EntryBytes(o, padded, en), EntriesBytes(t.End(), padded, rest));
      AtFits(data, o, EntryBytes(o, padded, en));
      EntryStandsAt(data, o, padded, en);
      EntriesLieOut(data, t.End(), padded, rest);
      LaidOutStep(data, o, padded, t, AllPlaced(t.End(), padded, rest));
      forall k | 0 <= k < |entries|
        ensures At(data, AllPlaced(o, padded, entries)[k].start, entries[k].data)
      {
        if k > 0 {
          assert entries[k] == rest[k - 1];
          assert AllPlaced(o, padded, entries)[k] == AllPlaced(t.End(), padded, rest)[k - 1];
        }
      }
    }
  }

  function FileBytes(h: Header, hyper: Hyper, vocab: seq<Item>, entries: seq<Entry>): seq<Byte> {
    var front := PreambleBytes(h, hyper, vocab);
    front + EntriesBytes(|front|, h.format == Ggjt, entries)
  }

  /** Every model that can be written is loaded back: header, vocabulary, tensor records, and each tensor's data. */
  lemma WrittenIsLoaded(h: Header, hyper: Hyper, vocab: seq<Item>, entries: seq<Entry>)
    requires PreambleOk(h, hyper, vocab) && EntriesOk(entries)
    requires |FileBytes(h, hyper, vocab, entries)| < TWO_TO_63
    requires FfLength(AllPlaced(|PreambleBytes(h, hyper, vocab)|, h.format == Ggjt, entries)).Ok?
    ensures
      var data := FileBytes(h, hyper, vocab, entries);
      var ts := AllPlaced(|PreambleBytes(h, hyper, vocab)|, h.format == Ggjt, entries);
      && Load(data, 0) == Ok(Read(Complete(h, hyper, vocab, ts, FfLength(ts).value), |data|))
      && forall k :: 0 <= k < |entries| ==> At(data, ts[k].start, entries[k].data)
  {
    hide PreambleOk, PreambleBytes, EntriesBytes, AllPlaced, FfLength, Load, LaidOut, EntriesOk;
    var front := PreambleBytes(h, hyper, vocab);
    var padded := h.format == Ggjt;
    var data := FileBytes(h, hyper, vocab, entries);
    var ts := AllPlaced(|front|, padded, entries);
    assert At(data, 0, data);
    AtConcat(data, 0, front, EntriesBytes(|front|, padded, entries));
    EntriesLieOut(data, |front|, padded, entries);
    hide At;
    var m := Complete(h, hyper, vocab, ts, FfLength(ts).value);
    assert m.hyper.(nFf := 0) == hyper by { BareHyper(h, hyper, vocab); }
    assert Holds(data, 0, m);
    LoadsExactly(data, 0, m);
  }

  lemma BareHyper(h: Header, hyper: Hyper, vocab: seq<Item>)
    requires PreambleOk(h, hyper, vocab)
    ensures hyper.nFf == 0
  {
  }
}
