/** The tensor list of a legacy GGML file: records, padding to 32 bytes, and the data regions. */
module GgmlTensors {
  import opened Wrappers
  import opened GgmlFile
  import opened GgmlParts

  /** Elements in a block and bytes of a block, for each known quantization. */
  function BlockSize(dtype: nat): (r: Option<(nat, nat)>)
    ensures r.Some? ==> 0 < r.value.0 && 0 < r.value.1 && dtype < TWO_TO_32
  {
    match dtype
    case 0 => Some((1, 4))
    case 1 => Some((1, 2))
    case 2 => Some((32, 18))
    case 3 => Some((32, 20))
    case 6 => Some((32, 22))
    case 7 => Some((32, 24))
    case 8 => Some((32, 34))
    case 9 => Some((32, 40))
    case 10 => Some((256, 84))
    case 11 => Some((256, 110))
    case 12 => Some((256, 144))
    case 13 => Some((256, 176))
    case 14 => Some((256, 210))
    case 15 => Some((256, 292))
    case 16 => Some((256, 66))
    case 17 => Some((256, 74))
    case 18 => Some((256, 98))
    case 19 => Some((256, 50))
    case 20 => Some((32, 18))
    case 21 => Some((256, 110))
    case 22 => Some((256, 82))
    case 23 => Some((256, 136))
    case 24 => Some((1, 1))
    case 25 => Some((1, 2))
    case 26 => Some((1, 4))
    case 27 => Some((1, 8))
    case 28 => Some((1, 8))
    case 29 => Some((256, 56))
    case 30 => Some((1, 2))
    case 34 => Some((256, 54))
    case 35 => Some((256, 66))
    case 39 => Some((32, 17))
    case 40 => Some((64, 36))
    case 41 => Some((128, 18))
    case _ => None
  }

  function Product(dims: seq<nat>): nat {
    if dims == [] then 1 else dims[0] * Product(dims[1..])
  }

  /** Bytes of a tensor's data before the division by the block size; the source computes in 64 bits. */
  function Weight(dims: seq<nat>, dtype: nat): nat
    requires BlockSize(dtype).Some?
  {
    Product(dims) * BlockSize(dtype).value.1
  }

  function ByteSize(dims: seq<nat>, dtype: nat): nat
    requires BlockSize(dtype).Some?
  {
    Weight(dims, dtype) / BlockSize(dtype).value.0
  }

  /** The next multiple of 32, where the format pads. */
  function Aligned(o: nat, padded: bool): (r: nat)
    ensures o <= r
    ensures padded ==> r % 32 == 0 && r < o + 32
    ensures !padded ==> r == o
  {
    if padded then (o + 31) / 32 * 32 else o
  }

  datatype Tensor = Tensor(name: seq<Byte>, dims: seq<nat>, dtype: nat, start: nat, bytes: nat) {
    function End(): nat { start + bytes }
  }

  function ReadTensor(data: seq<Byte>, o: nat, padded: bool): (r: Result<Read<Tensor>, Error>)
    ensures r.Ok? ==> o + 12 <= |data| && o + 12 <= r.value.value.start && r.value.next == r.value.value.End()
    ensures r.Ok? && padded ==> r.value.value.start % 32 == 0
  {
    var head := Words(data, o, 3);
    if head.None? then Err(Truncated)
    else
      WordsCount(data, o, 3);
      var (n, nameLen, dtype) := (head.value[0], head.value[1], head.value[2]);
      if n > 4 then Err(InvalidDims)
      else if nameLen >= 4096 then Err(AbsurdName)
      else if BlockSize(dtype).None? then Err(UnknownType)
      else
        var dims := Words(data, o + 12, n);
        if dims.None? then Err(Truncated)
        else
          var p := o + 12 + 4 * n;
          var start := Aligned(p + nameLen, padded);
          var bytes := ByteSize(dims.value, dtype);
          if Weight(dims.value, dtype) >= TWO_TO_63 || start + bytes >= TWO_TO_63 then Err(TooLarge)
          else Ok(Read(Tensor(Slice(data, p, nameLen), dims.value, dtype, start, bytes), start + bytes))
  }

  predicate TensorOk(t: Tensor) {
    && |t.dims| <= 4 && AreWords(t.dims) && |t.name| < 4096
    && BlockSize(t.dtype).Some? && t.bytes == ByteSize(t.dims, t.dtype)
    && Weight(t.dims, t.dtype) < TWO_TO_63 && t.End() < TWO_TO_63
  }

  function TensorHead(t: Tensor): (s: seq<Byte>)
    ensures |s| == 12 + 4 * |t.dims| + |t.name|
  {
    WordBytes([|t.dims|, |t.name|, t.dtype]) + (WordBytes(t.dims) + t.name)
  }

  /** The record of `t` stands at `o`, its data behind the padding, all inside the file. */
  predicate TensorAt(data: seq<Byte>, o: nat, padded: bool, t: Tensor) {
    && TensorOk(t)
    && At(data, o, TensorHead(t))
    && t.start == Aligned(o + |TensorHead(t)|, padded)
    && t.End() <= |data|
  }

  lemma HeadExactly(data: seq<Byte>, o: nat, t: Tensor)
    requires o <= |data| && |t.dims| <= 4 && |t.name| < 4096 && BlockSize(t.dtype).Some?
    ensures
      At(data, o, TensorHead(t)) && AreWords(t.dims) <==>
      && Words(data, o, 3) == Some([|t.dims|, |t.name|, t.dtype])
      && Words(data, o + 12, |t.dims|) == Some(t.dims)
      && o + 12 + 4 * |t.dims| <= |data|
      && At(data, o + 12 + 4 * |t.dims|, t.name)
  {
    hide Words, WordBytes, BlockSize;
    var head := [|t.dims|, |t.name|, t.dtype];
    assert AreWords(head);
    WordsExactly(data, o, head);
    WordsCount(data, o, 3);
    AtConcat(data, o, WordBytes(head), WordBytes(t.dims) + t.name);
    AtConcat(data, o + 12, WordBytes(t.dims), t.name);
    if o + 12 <= |data| {
      WordsExactly(data, o + 12, t.dims);
    }
  }

  lemma TensorExactly(data: seq<Byte>, o: nat, padded: bool, t: Tensor)
    requires o <= |data|
    ensures
      ReadTensor(data, o, padded) == Ok(Read(t, t.End())) && t.End() <= |data| <==>
      TensorAt(data, o, padded, t)
  {
    hide Words, WordBytes, BlockSize, At, AreWords, ByteSize, Weight, Aligned;
    if ReadTensor(data, o, padded) == Ok(Read(t, t.End())) && t.End() <= |data| {
      ReadTensorIsAt(data, o, padded, t);
    }
    if TensorAt(data, o, padded, t) {
      HeadExactly(data, o, t);
      SliceExactly(data, o + 12 + 4 * |t.dims|, t.name);
    }
  }

  lemma ReadTensorIsAt(data: seq<Byte>, o: nat, padded: bool, t: Tensor)
    requires ReadTensor(data, o, padded) == Ok(Read(t, t.End())) && t.End() <= |data|
    ensures TensorAt(data, o, padded, t)
  {
    hide Words, WordBytes, BlockSize, At, AreWords, ByteSize, Weight, Slice, Aligned;
    WordsCount(data, o, 3);
    var head := Words(data, o, 3).value;
    WordsCount(data, o + 12, head[0]);
    var p := o + 12 + 4 * head[0];
    SliceExactly(data, p, t.name);
    assert head == [|t.dims|, |t.name|, t.dtype];
    HeadExactly(data, o, t);
  }

  // ----- The list -------------------------------------------------------------

  /** Reads records while any byte is left. */
  function ReadTensors(data: seq<Byte>, o: nat, padded: bool): (r: Result<Read<seq<Tensor>>, Error>)
    ensures r.Ok? ==> o <= r.value.next && |data| <= r.value.next
    decreases if o < |data| then |data| - o else 0
  {
    if o >= |data| then Ok(Read([], o))
    else
      var first := ReadTensor(data, o, padded);
      if first.Err? then Err(first.error)
      else Prepend([first.value.value], ReadTensors(data, first.value.next, padded))
  }

  predicate LaidOut(data: seq<Byte>, o: nat, padded: bool, ts: seq<Tensor>)
    decreases |ts|
  {
    if ts == [] then o == |data|
    else TensorAt(data, o, padded, ts[0]) && LaidOut(data, ts[0].End(), padded, ts[1..])
  }

  /** A list read to the very end of the file is the list laid out in it. */
  lemma {:induction false} TensorsExactly(data: seq<Byte>, o: nat, padded: bool, ts: seq<Tensor>)
    requires o <= |data|
    ensures ReadTensors(data, o, padded) == Ok(Read(ts, |data|)) <==> LaidOut(data, o, padded, ts)
    decreases |ts|
  {
    hide *;
    if ts == [] {
      NoTensors(data, o, padded);
    } else {
      var t, rest := ts[0], ts[1..];
      assert ts == [t] + rest;
      TensorsStep(data, o, padded, t, rest);
      LaidOutStep(data, o, padded, t, rest);
      TensorExactly(data, o, padded, t);
      if t.End() <= |data| {
        TensorsExactly(data, t.End(), padded, rest);
      }
    }
  }

  lemma NoTensors(data: seq<Byte>, o: nat, padded: bool)
    requires o <= |data|
    ensures ReadTensors(data, o, padded) == Ok(Read([], |data|)) <==> LaidOut(data, o, padded, [])
  {
  }

  lemma LaidOutStep(data: seq<Byte>, o: nat, padded: bool, t: Tensor, rest: seq<Tensor>)
    ensures LaidOut(data, o, padded, [t] + rest) <==>
            t.End() <= |data| && TensorAt(data, o, padded, t) && LaidOut(data, t.End(), padded, rest)
  {
    assert ([t] + rest)[1..] == rest;
  }

  lemma TensorsStep(data: seq<Byte>, o: nat, padded: bool, t: Tensor, rest: seq<Tensor>)
    requires o <= |data|
    ensures
      ReadTensors(data, o, padded) == Ok(Read([t] + rest, |data|)) <==>
      && ReadTensor(data, o, padded) == Ok(Read(t, t.End())) && t.End() <= |data|
      && ReadTensors(data, t.End(), padded) == Ok(Read(rest, |data|))
  {
    hide ReadTensor;
    var first := ReadTensor(data, o, padded);
    if first.Ok? {
      PrependExactly(first.value.value, ReadTensors(data, first.value.next, padded), t, rest, |data|);
    }
  }

  /**
   * However a list was read: regions are in order and never overlap, padded ones are aligned, and all
   * but the last lie inside the file; the last does too exactly when reading stopped at the file's end.
   */
  lemma {:induction false} RegionsAreOrdered(data: seq<Byte>, o: nat, padded: bool, ts: seq<Tensor>, e: nat, k: nat)
    requires ReadTensors(data, o, padded) == Ok(Read(ts, e)) && k < |ts|
    ensures o + 12 <= ts[k].start
    ensures padded ==> ts[k].start % 32 == 0
    ensures if k + 1 < |ts| then ts[k].End() + 12 <= ts[k + 1].start && ts[k].End() < |data| else ts[k].End() == e
    decreases |ts|
  {
    hide ReadTensor;
    var first := ReadTensor(data, o, padded);
    var t, rest := ts[0], ts[1..];
    PrependExactly(first.value.value, ReadTensors(data, first.value.next, padded), t, rest, e);
    assert ts == [t] + rest;
    if k > 0 {
      RegionsAreOrdered(data, t.End(), padded, rest, e, k - 1);
    } else if rest != [] {
      RegionsAreOrdered(data, t.End(), padded, rest, e, 0);
    }
  }

  /** Any two regions are disjoint. */
  lemma {:induction false} RegionsAreDisjoint(data: seq<Byte>, o: nat, padded: bool, ts: seq<Tensor>, e: nat, j: nat, k: nat)
    requires ReadTensors(data, o, padded) == Ok(Read(ts, e)) && j < k < |ts|
    ensures ts[j].End() + 12 <= ts[k].start
    decreases k
  {
    hide ReadTensors;
    RegionsAreOrdered(data, o, padded, ts, e, k - 1);
    if j < k - 1 {
      RegionsAreDisjoint(data, o, padded, ts, e, j, k - 1);
    }
  }

  // ----- Files that end too early ---------------------------------------------

  /** Of any list that is accepted, reading stops inside the file exactly when the list is laid out in it. */
  lemma StopsInsideExactlyWhenLaidOut(data: seq<Byte>, o: nat, padded: bool, ts: seq<Tensor>, e: nat)
    requires o <= |data| && ReadTensors(data, o, padded) == Ok(Read(ts, e))
    ensures e <= |data| <==> LaidOut(data, o, padded, ts)
  {
    hide LaidOut, ReadTensors;
    TensorsExactly(data, o, padded, ts);
  }

  lemma AtCut(data: seq<Byte>, n: nat, o: nat, s: seq<Byte>)
    requires At(data, o, s) && o + |s| <= n <= |data|
    ensures At(data[..n], o, s)
  {
    assert data[..n][o..o + |s|] == data[o..o + |s|];
  }

  /** A record is read although its region may run past the end. */
  lemma RecordIsRead(data: seq<Byte>, o: nat, padded: bool, t: Tensor)
    requires o <= |data| && TensorOk(t) && At(data, o, TensorHead(t)) && t.start == Aligned(o + |TensorHead(t)|, padded)
    ensures ReadTensor(data, o, padded) == Ok(Read(t, t.End()))
  {
    hide Words, WordBytes, BlockSize, AreWords, ByteSize, Weight, Aligned, At, Slice, ReadTensor;
    var p := o + 12 + 4 * |t.dims|;
    HeadExactly(data, o, t);
    SliceExactly(data, p, t.name);
    HeadIsRead(data, o, padded, t, p);
  }

  lemma HeadIsRead(data: seq<Byte>, o: nat, padded: bool, t: Tensor, p: nat)
    requires TensorOk(t) && p == o + 12 + 4 * |t.dims| && t.start == Aligned(p + |t.name|, padded)
    requires Words(data, o, 3) == Some([|t.dims|, |t.name|, t.dtype])
    requires Words(data, o + 12, |t.dims|) == Some(t.dims) && Slice(data, p, |t.name|) == t.name
    ensures ReadTensor(data, o, padded) == Ok(Read(t, t.End()))
  {
    hide Words, BlockSize, AreWords, ByteSize, Weight, Aligned, Slice;
  }

  /** A list that is laid out is also read, with the same result, from a file cut anywhere in its last region. */
  lemma {:induction false} CutListIsRead(data: seq<Byte>, n: nat, o: nat, padded: bool, ts: seq<Tensor>)
    requires ts != [] && LaidOut(data, o, padded, ts)
    requires ts[|ts| - 1].start <= n <= |data|
    ensures ReadTensors(data[..n], o, padded) == Ok(Read(ts, |data|))
    decreases |ts|
  {
    hide *;
    var t, rest, cut := ts[0], ts[1..], data[..n];
    assert ts == [t] + rest;
    LaidOutStep(data, o, padded, t, rest);
    FirstStartsFirst(data, o, padded, ts);
    CutRecordIsRead(data, n, o, padded, t);
    if rest == [] {
      RestIsRead(data, n, padded, t);
    } else {
      CutListIsRead(data, n, t.End(), padded, rest);
    }
    ReadOn(cut, o, padded, t, rest, |data|);
  }

  lemma CutRecordIsRead(data: seq<Byte>, n: nat, o: nat, padded: bool, t: Tensor)
    requires TensorAt(data, o, padded, t) && o + |TensorHead(t)| <= n <= |data|
    ensures ReadTensor(data[..n], o, padded) == Ok(Read(t, t.End()))
  {
    hide TensorOk, Aligned, ReadTensor, TensorHead, At;
    AtCut(data, n, o, TensorHead(t));
    RecordIsRead(data[..n], o, padded, t);
  }

  lemma ReadOn(data: seq<Byte>, o: nat, padded: bool, t: Tensor, rest: seq<Tensor>, e: nat)
    requires o < |data| && ReadTensor(data, o, padded) == Ok(Read(t, t.End()))
    requires ReadTensors(data, t.End(), padded) == Ok(Read(rest, e))
    ensures ReadTensors(data, o, padded) == Ok(Read([t] + rest, e))
  {
    hide ReadTensor;
    PrependExactly(t, ReadTensors(data, t.End(), padded), t, rest, e);
  }

  lemma RestIsRead(data: seq<Byte>, n: nat, padded: bool, t: Tensor)
    requires n <= |data| == t.End()
    ensures ReadTensors(data[..n], t.End(), padded) == Ok(Read([], |data|))
  {
  }

  lemma {:induction false} FirstStartsFirst(data: seq<Byte>, o: nat, padded: bool, ts: seq<Tensor>)
    requires ts != [] && LaidOut(data, o, padded, ts)
    ensures o < o + |TensorHead(ts[0])| <= ts[0].start <= ts[|ts| - 1].start
    ensures |ts| == 1 ==> ts[0].End() == |data|
    decreases |ts|
  {
    if |ts| > 1 {
      FirstStartsFirst(data, ts[0].End(), padded, ts[1..]);
    }
  }

  /** The shortest such file: the record of one number, and none of its four bytes. */
  lemma OverrunExample()
    ensures
      var data: seq<Byte> := [1, 0, 0, 0, 0, 0, 0, 0, 0, 0, 0, 0, 1, 0, 0, 0];
      ReadTensors(data, 0, false) == Ok(Read([Tensor([], [1], 0, 16, 4)], 20)) && 20 > |data|
  {
    var data: seq<Byte> := [1, 0, 0, 0, 0, 0, 0, 0, 0, 0, 0, 0, 1, 0, 0, 0];
    var t := Tensor([], [1], 0, 16, 4);
    ExampleHead(t);
    OneNumber();
    hide ReadTensor, ReadTensors, TensorHead, Weight, ByteSize, BlockSize;
    assert BlockSize(0).Some? by {
      KnownType();
    }
    RecordIsRead(data, 0, false, t);
    LastIsRead(data, 0, false, t);
  }

  lemma KnownType()
    ensures BlockSize(0).Some?
  {
  }

  lemma LastIsRead(data: seq<Byte>, o: nat, padded: bool, t: Tensor)
    requires o < |data| <= t.End() && ReadTensor(data, o, padded) == Ok(Read(t, t.End()))
    ensures ReadTensors(data, o, padded) == Ok(Read([t], t.End()))
  {
    hide ReadTensor;
    ReadOn(data, o, padded, t, [], t.End());
    assert [t] + [] == [t];
  }

  lemma ExampleHead(t: Tensor)
    requires t == Tensor([], [1], 0, 16, 4)
    ensures TensorHead(t) == [1, 0, 0, 0, 0, 0, 0, 0, 0, 0, 0, 0, 1, 0, 0, 0]
  {
    OneAndZero();
    assert WordBytes([1, 0, 0]) == LittleEndian(1, 4) + (LittleEndian(0, 4) + (LittleEndian(0, 4) + [])) by {
      assert [1, 0, 0][1..] == [0, 0] && [0, 0][1..] == [0] && [0][1..] == [];
    }
    assert WordBytes([1]) == LittleEndian(1, 4) + [] by {
      assert [1][1..] == [];
    }
    hide WordBytes, LittleEndian;
  }

  lemma OneNumber()
    ensures Product([1]) == 1 && Weight([1], 0) == 4 && ByteSize([1], 0) == 4
  {
    assert [1][1..] == [] && Product([]) == 1;
  }

  lemma OneAndZero()
    ensures LittleEndian(0, 4) == [0, 0, 0, 0] && LittleEndian(1, 4) == [1, 0, 0, 0]
  {
    assert LittleEndian(0, 1) == [0] && LittleEndian(0, 2) == [0, 0] && LittleEndian(0, 3) == [0, 0, 0];
  }

  // ----- The name index -------------------------------------------------------

  function IndexOf(ts: seq<Tensor>): map<seq<Byte>, nat> {
    if ts == [] then map[] else IndexOf(ts[..|ts| - 1])[ts[|ts| - 1].name := |ts| - 1]
  }

  /** A name leads to the last tensor that has it, and to none when no tensor has it. */
  lemma {:induction false} IndexFindsLast(ts: seq<Tensor>, name: seq<Byte>)
    ensures name in IndexOf(ts) <==> exists k :: 0 <= k < |ts| && ts[k].name == name
    ensures name in IndexOf(ts) ==>
              var k := IndexOf(ts)[name];
              && k < |ts| && ts[k].name == name
              && forall j :: k < j < |ts| ==> ts[j].name != name
  {
    if ts != [] {
      var n := |ts| - 1;
      var front := ts[..n];
      IndexFindsLast(front, name);
      assert forall k :: 0 <= k < n ==> front[k] == ts[k];
      assert name in IndexOf(ts) <==> name == ts[n].name || name in IndexOf(front);
    }
  }
}
