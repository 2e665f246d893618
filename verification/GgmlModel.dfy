/** The loader's objects: each `Load` fills the object and agrees with the reader that specifies it. */
module GgmlModel {
  import opened Wrappers
  import opened GgmlFile
  import opened GgmlParts
  import opened GgmlTensors
  import opened GgmlLoader

  class Hyperparameters {
    var nVocab: nat
    var nEmbd: nat
    var nMult: nat
    var nHead: nat
    var nLayer: nat
    var nRot: nat
    var nFf: nat
    var ftype: nat

    constructor ()
      ensures Value() == Hyper(0, 0, 0, 0, 0, 0, 0, 0)
    {
      nVocab, nEmbd, nMult, nHead, nLayer, nRot, nFf, ftype := 0, 0, 0, 0, 0, 0, 0, 0;
    }

    function Value(): Hyper
      reads this
    {
      Hyper(nVocab, nEmbd, nMult, nHead, nLayer, nRot, ftype, nFf)
    }

    /** How many bytes were read, or why reading failed. */
    method Load(data: seq<Byte>, offset: nat) returns (r: Result<nat, Error>)
      modifies this
      ensures
        var spec := ReadHyper(data, offset);
        if spec.Ok? then r == Ok(28) && Value() == spec.value.value.(nFf := old(nFf))
        else r == Err(spec.error)
    {
      var words := Words(data, offset, 7);
      if words.None? {
        return Err(Truncated);
      }
      WordsCount(data, offset, 7);
      var w := words.value;
      nVocab, nEmbd, nMult, nHead, nLayer, nRot := w[0], w[1], w[2], w[3], w[4], w[5];
      if !IsFType(w[6]) {
        return Err(InvalidFType);
      }
      ftype := w[6];
      return Ok(28);
    }

    method SetNFf(tensors: seq<TensorRecord>, tensorMap: map<seq<Byte>, nat>) returns (r: Result<nat, Error>)
      requires tensorMap == IndexOf(Records(tensors))
      modifies this
      ensures r == FfLength(Records(tensors))
      ensures Value() == old(Value()).(nFf := if r.Ok? then r.value else old(nFf))
    {
      hide IndexOf;
      ghost var ts := Records(tensors);
      IndexFindsLast(ts, FF_NAME);
      if FF_NAME !in tensorMap {
        return Err(MissingFf);
      }
      var dims := tensors[tensorMap[FF_NAME]].dims;
      if |dims| < 2 {
        return Err(FfNotAMatrix);
      }
      nFf := dims[1];
      assert Records(tensors) == ts;
      return Ok(nFf);
    }
  }

  class Vocab {
    var items: seq<Item>
    var loadScores: bool

    constructor (loadScores: bool)
      ensures items == [] && this.loadScores == loadScores
    {
      items := [];
      this.loadScores := loadScores;
    }

    method Load(data: seq<Byte>, offset: nat, nVocab: nat) returns (r: Result<nat, Error>)
      modifies this
      ensures loadScores == old(loadScores)
      ensures
        var spec := ReadItems(data, offset, nVocab, loadScores);
        if spec.Ok? then r == Ok(spec.value.next - offset) && items == old(items) + spec.value.value
        else r == Err(spec.error)
    {
      var o := offset;
      ghost var before := items;
      ghost var done: seq<Item> := [];
      PrependNothing(ReadItems(data, offset, nVocab, loadScores));
      for k := 0 to nVocab
        invariant offset <= o && items == before + done && loadScores == old(loadScores)
        invariant ReadItems(data, offset, nVocab, loadScores)
               == Prepend(done, ReadItems(data, o, nVocab - k, loadScores))
      {
        hide ReadItem;
        var item := ReadItem(data, o, loadScores);
        if item.Err? {
          return Err(item.error);
        }
        PrependTwice(done, item.value.value, ReadItems(data, item.value.next, nVocab - k - 1, loadScores));
        items := items + [item.value.value];
        done := done + [item.value.value];
        o := item.value.next;
      }
      return Ok(o - offset);
    }
  }

  class TensorRecord {
    var name: seq<Byte>
    var dims: seq<nat>
    var dtype: nat
    var start: nat
    var bytes: nat
    const usePadding: bool

    constructor (usePadding: bool)
      ensures this.usePadding == usePadding
    {
      name, dims, dtype, start, bytes := [], [], 0, 0, 0;
      this.usePadding := usePadding;
    }

    function Value(): Tensor
      reads this
    {
      Tensor(name, dims, dtype, start, bytes)
    }

    method Load(data: seq<Byte>, offset: nat) returns (r: Result<nat, Error>)
      modifies this
      ensures
        var spec := ReadTensor(data, offset, usePadding);
        if spec.Ok? then r == Ok(spec.value.next - offset) && Value() == spec.value.value
        else r == Err(spec.error)
    {
      hide Words, BlockSize, ByteSize, Weight, Aligned;
      var head := Words(data, offset, 3);
      if head.None? {
        return Err(Truncated);
      }
      WordsCount(data, offset, 3);
      var n, nameLen := head.value[0], head.value[1];
      if n > 4 {
        return Err(InvalidDims);
      }
      if nameLen >= 4096 {
        return Err(AbsurdName);
      }
      if BlockSize(head.value[2]).None? {
        return Err(UnknownType);
      }
      dtype := head.value[2];
      var o := offset + 12;
      var words := Words(data, o, n);
      if words.None? {
        return Err(Truncated);
      }
      dims := words.value;
      o := o + 4 * n;
      name := Slice(data, o, nameLen);
      o := Aligned(o + nameLen, usePadding);
      if Weight(dims, dtype) >= TWO_TO_63 || o + ByteSize(dims, dtype) >= TWO_TO_63 {
        return Err(TooLarge);
      }
      start := o;
      bytes := ByteSize(dims, dtype);
      return Ok(o + bytes - offset);
    }
  }

  function Records(tensors: seq<TensorRecord>): (ts: seq<Tensor>)
    reads tensors
    ensures |ts| == |tensors|
    ensures forall k :: 0 <= k < |ts| ==> ts[k] == tensors[k].Value()
  {
    if tensors == [] then [] else Records(tensors[..|tensors| - 1]) + [tensors[|tensors| - 1].Value()]
  }

  /** The loop over the records, with the list and the name index grown side by side. */
  method LoadTensors(data: seq<Byte>, offset: nat, padded: bool)
      returns (r: Result<nat, Error>, tensors: seq<TensorRecord>, tensorMap: map<seq<Byte>, nat>)
    ensures
      var spec := ReadTensors(data, offset, padded);
      if spec.Ok? then
        r == Ok(spec.value.next) && Records(tensors) == spec.value.value && tensorMap == IndexOf(spec.value.value)
      else r == Err(spec.error)
    ensures forall t :: t in tensors ==> fresh(t)
  {
    hide ReadTensor, ReadTensors, IndexOf, Remains, Records;
    NoIndex();
    NoRecords();
    AllRemains(data, offset, padded);
    tensors, tensorMap := [], map[];
    var o := offset;
    while o < |data|
      invariant forall t :: t in tensors ==> fresh(t)
      invariant tensorMap == IndexOf(Records(tensors))
      invariant Remains(data, offset, o, padded, Records(tensors))
    {
      ghost var done := Records(tensors);
      ReadTensorsOn(data, offset, o, padded, done);
      var tensor := new TensorRecord(padded);
      var loaded := tensor.Load(data, o);
      if loaded.Err? {
        return Err(loaded.error), tensors, tensorMap;
      }
      assert Records(tensors) == done;
      RecordsAppend(tensors, tensor);
      IndexAppend(done, tensor.Value());
      tensorMap := tensorMap[tensor.name := |tensors|];
      tensors := tensors + [tensor];
      o := o + loaded.value;
    }
    NoneRemains(data, offset, o, padded, Records(tensors));
    return Ok(o), tensors, tensorMap;
  }

  /** What was read before `o` is `done`, and what is read from there on follows it. */
  predicate Remains(data: seq<Byte>, offset: nat, o: nat, padded: bool, done: seq<Tensor>) {
    ReadTensors(data, offset, padded) == Prepend(done, ReadTensors(data, o, padded))
  }

  lemma AllRemains(data: seq<Byte>, offset: nat, padded: bool)
    ensures Remains(data, offset, offset, padded, [])
  {
    hide ReadTensors;
    PrependNothing(ReadTensors(data, offset, padded));
  }

  lemma NoneRemains(data: seq<Byte>, offset: nat, o: nat, padded: bool, done: seq<Tensor>)
    requires |data| <= o && Remains(data, offset, o, padded, done)
    ensures ReadTensors(data, offset, padded) == Ok(Read(done, o))
  {
    AllTensorsRead(data, o, padded);
    hide ReadTensors;
    assert done + [] == done;
  }

  lemma NoRecords()
    ensures Records([]) == []
  {
  }

  lemma NoIndex()
    ensures IndexOf([]) == map[]
  {
  }

  lemma AllTensorsRead(data: seq<Byte>, o: nat, padded: bool)
    requires |data| <= o
    ensures ReadTensors(data, o, padded) == Ok(Read([], o))
  {
  }

  lemma ReadTensorsOn(data: seq<Byte>, offset: nat, o: nat, padded: bool, done: seq<Tensor>)
    requires o < |data| && Remains(data, offset, o, padded, done)
    ensures
      var first := ReadTensor(data, o, padded);
      if first.Ok? then Remains(data, offset, first.value.next, padded, done + [first.value.value])
      else ReadTensors(data, offset, padded) == Err(first.error)
  {
    hide ReadTensor;
    var first := ReadTensor(data, o, padded);
    if first.Ok? {
      PrependTwice(done, first.value.value, ReadTensors(data, first.value.next, padded));
    }
  }

  lemma RecordsAppend(tensors: seq<TensorRecord>, tensor: TensorRecord)
    ensures Records(tensors + [tensor]) == Records(tensors) + [tensor.Value()]
  {
    assert (tensors + [tensor])[..|tensors|] == tensors;
  }

  lemma IndexAppend(ts: seq<Tensor>, t: Tensor)
    ensures IndexOf(ts + [t]) == IndexOf(ts)[t.name := |ts|]
  {
    assert (ts + [t])[..|ts|] == ts;
  }

  class Model {
    var header: Header
    var hyperparameters: Hyperparameters?
    var vocab: Vocab?
    var tensors: seq<TensorRecord>
    var tensorMap: map<seq<Byte>, nat>

    constructor ()
      ensures hyperparameters == null && vocab == null && tensors == [] && tensorMap == map[]
    {
      header := Header(Ggml, 0);
      hyperparameters, vocab, tensors, tensorMap := null, null, [], map[];
    }

    function Value(): Contents
      requires hyperparameters != null && vocab != null
      reads this, hyperparameters, vocab, tensors
    {
      Contents(header, hyperparameters.Value(), vocab.items, Records(tensors), tensorMap)
    }

    /** The header, the hyperparameters and the vocabulary, as far as they can be read. */
    method LoadPreamble(data: seq<Byte>, offset: nat)
        returns (r: Result<nat, Error>, hp: Hyperparameters?, items: Vocab?)
      modifies this`header
      ensures
        var spec := ReadPreamble(data, offset);
        if spec.Ok? then
          && r == Ok(spec.value.next) && hp != null && items != null
          && (header, hp.Value(), items.items) == spec.value.value
        else r == Err(spec.error)
      ensures (hp != null ==> fresh(hp)) && (items != null ==> fresh(items))
    {
      hide ReadHeader, ReadHyper, ReadItems, Convertible;
      hp, items := null, null;
      var front := ReadHeader(data, offset);
      if front.Err? {
        return Err(front.error), hp, items;
      }
      header := front.value.value;
      var o := front.value.next;
      hp := new Hyperparameters();
      HyperStartsBare(data, o);
      var hyperRead := hp.Load(data, o);
      if hyperRead.Err? {
        return Err(hyperRead.error), hp, items;
      }
      o := o + hyperRead.value;
      if !Convertible(header, hp.ftype) {
        return Err(NotConvertible), hp, items;
      }
      items := new Vocab(header.format != Ggml);
      var vocabRead := items.Load(data, o, hp.nVocab);
      if vocabRead.Err? {
        return Err(vocabRead.error), hp, items;
      }
      assert items.items == ReadItems(data, o, hp.nVocab, header.format != Ggml).value.value;
      return Ok(o + vocabRead.value), hp, items;
    }

    /**
     * The offset behind the file's contents. A file refused before its tensors are all read
     * leaves everything but the header as it was.
     */
    method Load(data: seq<Byte>, offset: nat) returns (r: Result<nat, Error>)
      modifies this
      ensures
        var spec := GgmlLoader.Load(data, offset);
        if spec.Ok? then
          r == Ok(spec.value.next) && hyperparameters != null && vocab != null && Value() == spec.value.value
        else r == Err(spec.error)
      ensures
        r.Err? && r.error != MissingFf && r.error != FfNotAMatrix ==>
        hyperparameters == old(hyperparameters) && vocab == old(vocab) && tensors == old(tensors)
        && tensorMap == old(tensorMap)
    {
      LoadInParts(data, offset);
      hide ReadPreamble, ReadTensors, IndexOf, FfLength, Records, GgmlLoader.Load;
      var front, hp, items := LoadPreamble(data, offset);
      if front.Err? {
        return front;
      }
      var end, ts, index := LoadTensors(data, front.value, header.format == Ggjt);
      if end.Err? {
        return end;
      }
      var ff := Install(hp, items, ts, index);
      if ff.Err? {
        return ff;
      }
      return end;
    }

    /** The parts become the model's, and the feed-forward length is looked up among them. */
    method Install(hp: Hyperparameters, items: Vocab, ts: seq<TensorRecord>, index: map<seq<Byte>, nat>)
        returns (ff: Result<nat, Error>)
      requires index == IndexOf(Records(ts))
      modifies this, hp
      ensures ff == FfLength(old(Records(ts)))
      ensures hyperparameters == hp && vocab == items && header == old(header)
      ensures Value() == Contents(header, old(hp.Value()).(nFf := if ff.Ok? then ff.value else old(hp.nFf)),
                                  old(items.items), old(Records(ts)), index)
    {
      hide IndexOf, FfLength, Records;
      hyperparameters, vocab, tensors, tensorMap := hp, items, ts, index;
      ghost var records := Records(ts);
      ff := hp.SetNFf(ts, index);
      assert Records(ts) == records;
    }
  }

  lemma HyperStartsBare(data: seq<Byte>, o: nat)
    ensures
      var r := ReadHyper(data, o);
      r.Ok? ==> r.value.value.nFf == 0 && r.value.next == o + 28
  {
  }

  /** The whole load by its three readings. */
  lemma LoadInParts(data: seq<Byte>, o: nat)
    ensures
      var front, all := ReadPreamble(data, o), GgmlLoader.Load(data, o);
      if front.Err? then all == Err(front.error)
      else
        var tensors := ReadTensors(data, front.value.next, front.value.value.0.format == Ggjt);
        if tensors.Err? then all == Err(tensors.error)
        else
          var ts := tensors.value.value;
          var ff := FfLength(ts);
          if ff.Err? then all == Err(ff.error)
          else
            var h := front.value.value;
            all == Ok(Read(Contents(h.0, h.1.(nFf := ff.value), h.2, ts, IndexOf(ts)), tensors.value.next))
  {
    hide ReadPreamble, ReadTensors, IndexOf, FfLength;
  }
}
