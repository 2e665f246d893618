/** Where the fields of a legacy GGML file stand, byte by byte, and the sizes its quantizations give. */
module GgmlLayout {
  import opened Wrappers
  import opened GgmlFile
  import opened GgmlParts
  import opened GgmlTensors

  // ----- Numbers --------------------------------------------------------------

  /** A word has its low byte first. */
  lemma WordIs(data: seq<Byte>, o: nat)
    requires o + 4 <= |data|
    ensures
      var a: nat, b: nat, c: nat, d: nat := data[o], data[o + 1], data[o + 2], data[o + 3];
      Word(data, o) == Some(a + 256 * b + 65536 * c + 16777216 * d)
  {
    var s := data[o..o + 4];
    var b: nat, c: nat, d: nat := s[1], s[2], s[3];
    assert s[1..][1..][1..][1..] == [];
    assert FromLittleEndian(s[1..][1..][1..]) == d;
    assert FromLittleEndian(s[1..][1..]) == c + 256 * d;
    assert FromLittleEndian(s[1..]) == b + 256 * (c + 256 * d);
  }

  /** Words stand one behind the other. */
  lemma {:induction false} WordsAre(data: seq<Byte>, o: nat, k: nat, i: nat)
    requires Words(data, o, k).Some? && i < k
    ensures |Words(data, o, k).value| == k && Word(data, o + 4 * i) == Some(Words(data, o, k).value[i])
    decreases k
  {
    WordsCount(data, o, k);
    if i > 0 {
      WordsAre(data, o + 4, k - 1, i - 1);
    }
  }

  // ----- Header ---------------------------------------------------------------

  /** The letters of the magics, read from the file's start, and how many bytes each header takes. */
  lemma MagicsSpelled()
    ensures GGUF_MAGIC == Ascii("GGUF") && GGML_MAGIC == Ascii("lmgg")
    ensures GGMF_MAGIC == Ascii("fmgg") && GGJT_MAGIC == Ascii("tjgg")
    ensures |HeaderBytes(Header(Ggml, 1))| == 4
    ensures forall v :: |HeaderBytes(Header(Ggmf, v))| == 8 && |HeaderBytes(Header(Ggjt, v))| == 8
  {
    Spelled(GGUF_MAGIC, 'G', 'G', 'U', 'F');
    Spelled(GGML_MAGIC, 'l', 'm', 'g', 'g');
    Spelled(GGMF_MAGIC, 'f', 'm', 'g', 'g');
    Spelled(GGJT_MAGIC, 't', 'j', 'g', 'g');
  }

  lemma Spelled(magic: seq<Byte>, a: char, b: char, c: char, d: char)
    requires |magic| == 4 && a < '\U{0080}' && b < '\U{0080}' && c < '\U{0080}' && d < '\U{0080}'
    requires magic[0] == a as int && magic[1] == b as int && magic[2] == c as int && magic[3] == d as int
    ensures magic == Ascii([a, b, c, d])
  {
  }

  // ----- Hyperparameters ------------------------------------------------------

  /** The seven words of the hyperparameters, in the order of the file. */
  lemma HyperStands(data: seq<Byte>, o: nat)
    requires ReadHyper(data, o).Ok?
    ensures
      var h := ReadHyper(data, o).value.value;
      && Word(data, o) == Some(h.nVocab) && Word(data, o + 4) == Some(h.nEmbd) && Word(data, o + 8) == Some(h.nMult)
      && Word(data, o + 12) == Some(h.nHead) && Word(data, o + 16) == Some(h.nLayer) && Word(data, o + 20) == Some(h.nRot)
      && Word(data, o + 24) == Some(h.ftype)
    ensures ReadHyper(data, o).value.next == o + 28
  {
    WordsAre(data, o, 7, 0);
    WordsAre(data, o, 7, 1);
    WordsAre(data, o, 7, 2);
    WordsAre(data, o, 7, 3);
    WordsAre(data, o, 7, 4);
    WordsAre(data, o, 7, 5);
    WordsAre(data, o, 7, 6);
    hide Words, Word;
  }

  /** The file types there are, and those a version may carry. */
  lemma FileTypes(n: nat)
    ensures IsFType(n) <==> n in {0, 1, 2, 3, 4, 7, 8, 9, 10, 11, 12, 13, 14, 15, 16, 17, 18}
    ensures forall v: nat :: Convertible(Header(Ggml, v), n) <==> n in {0, 1}
    ensures forall v: nat :: Convertible(Header(Ggmf, v), n) <==> n in {0, 1}
    ensures Convertible(Header(Ggjt, 1), n) <==> n in {0, 1}
    ensures Convertible(Header(Ggjt, 2), n) && IsFType(n) <==> n in {0, 1, 8, 9, 10, 11, 12, 13, 14, 15, 16, 17, 18}
    ensures Convertible(Header(Ggjt, 3), n)
  {
  }

  // ----- Vocabulary -----------------------------------------------------------

  /** An item is the length of its text, the text, and, if the file has scores, four more bytes. */
  lemma ItemStands(data: seq<Byte>, o: nat, scores: bool)
    requires ReadItem(data, o, scores).Ok? && ReadItem(data, o, scores).value.next <= |data|
    ensures
      var (it, next) := (ReadItem(data, o, scores).value.value, ReadItem(data, o, scores).value.next);
      && Word(data, o) == Some(|it.text|) && o + 4 + |it.text| <= next && it.text == data[o + 4..o + 4 + |it.text|]
      && (if scores then it.score == Some(data[next - 4..next]) && next == o + 8 + |it.text|
          else it.score == None && next == o + 4 + |it.text|)
  {
    hide Word;
  }

  // ----- Tensors --------------------------------------------------------------

  /** A record is the numbers of dimensions and name bytes, the type, the dimensions, and the name. */
  lemma TensorStands(data: seq<Byte>, o: nat, padded: bool)
    requires ReadTensor(data, o, padded).Ok? && ReadTensor(data, o, padded).value.next <= |data|
    ensures
      var t := ReadTensor(data, o, padded).value.value;
      var p := o + 12 + 4 * |t.dims|;
      && Word(data, o) == Some(|t.dims|) && Word(data, o + 4) == Some(|t.name|) && Word(data, o + 8) == Some(t.dtype)
      && (forall i :: 0 <= i < |t.dims| ==> Word(data, o + 12 + 4 * i) == Some(t.dims[i]))
      && p + |t.name| <= t.start && t.name == data[p..p + |t.name|]
      && t.start == if padded then p + |t.name| + (32 - (p + |t.name|) % 32) % 32 else p + |t.name|
  {
    hide *;
    var t := ReadTensor(data, o, padded).value.value;
    TensorIs(data, o, padded);
    WordsAre(data, o, 3, 0);
    WordsAre(data, o, 3, 1);
    WordsAre(data, o, 3, 2);
    WordsCount(data, o + 12, |t.dims|);
    forall i | 0 <= i < |t.dims| ensures Word(data, o + 12 + 4 * i) == Some(t.dims[i]) {
      WordsAre(data, o + 12, |t.dims|, i);
    }
    PaddingIs(o + 12 + 4 * |t.dims| + |t.name|, padded);
  }

  /** What a reader of records takes from where. */
  lemma TensorIs(data: seq<Byte>, o: nat, padded: bool)
    requires ReadTensor(data, o, padded).Ok? && ReadTensor(data, o, padded).value.next <= |data|
    ensures
      var t := ReadTensor(data, o, padded).value.value;
      var p := o + 12 + 4 * |t.dims|;
      && Words(data, o, 3) == Some([|t.dims|, |t.name|, t.dtype]) && Words(data, o + 12, |t.dims|) == Some(t.dims)
      && p + |t.name| <= |data| && p + |t.name| <= t.start && t.start == Aligned(p + |t.name|, padded)
      && t.name == data[p..p + |t.name|]
  {
    hide Words, BlockSize, ByteSize, Weight, Aligned, WordBytes, ReadTensor;
    var t := ReadTensor(data, o, padded).value.value;
    TensorExactly(data, o, padded, t);
    HeadExactly(data, o, t);
  }

  lemma PaddingIs(o: nat, padded: bool)
    ensures Aligned(o, padded) == if padded then o + (32 - o % 32) % 32 else o
  {
  }

  /** Elements of a block and bytes of a block; blocks of the newer kinds have 256 elements. */
  lemma BlockSizes()
    ensures var k := 256;
            && BlockSize(0) == Some((1, 4)) && BlockSize(1) == Some((1, 2))
            && BlockSize(2) == Some((32, 2 + 16)) && BlockSize(3) == Some((32, 2 + 2 + 16))
            && BlockSize(6) == Some((32, 2 + 4 + 16)) && BlockSize(7) == Some((32, 2 + 2 + 4 + 16))
            && BlockSize(8) == Some((32, 2 + 32)) && BlockSize(9) == Some((32, 4 + 4 + 32))
            && BlockSize(10) == Some((k, 2 + 2 + k / 16 + k / 4)) && BlockSize(11) == Some((k, 2 + k / 4 + k / 8 + 12))
            && BlockSize(12) == Some((k, 2 + 2 + k / 2 + 12)) && BlockSize(13) == Some((k, 2 + 2 + k / 2 + k / 8 + 12))
            && BlockSize(14) == Some((k, 2 + k / 2 + k / 4 + k / 16)) && BlockSize(15) == Some((k, 4 + k + k / 8))
    ensures forall dtype :: BlockSize(dtype).Some? <==>
              dtype <= 3 || 6 <= dtype <= 30 || dtype == 34 || dtype == 35 || 39 <= dtype <= 41
  {
  }

  lemma MoreBlockSizes()
    ensures var k := 256;
            && BlockSize(16) == Some((k, 2 + k / 4)) && BlockSize(17) == Some((k, 2 + k / 4 + k / 32))
            && BlockSize(18) == Some((k, 2 + k / 4 + k / 8)) && BlockSize(19) == Some((k, 2 + k / 8 + k / 16))
            && BlockSize(20) == Some((32, 2 + 16)) && BlockSize(21) == Some((k, 2 + k / 4 + k / 8 + k / 32 + 4))
            && BlockSize(22) == Some((k, 2 + k / 4 + k / 16)) && BlockSize(23) == Some((k, 2 + 2 + k / 2 + k / 64))
  {
  }

  lemma SmallBlockSizes()
    ensures BlockSize(24) == Some((1, 1)) && BlockSize(25) == Some((1, 2)) && BlockSize(26) == Some((1, 4))
    ensures BlockSize(27) == Some((1, 8)) && BlockSize(28) == Some((1, 8)) && BlockSize(30) == Some((1, 2))
    ensures BlockSize(29) == Some((256, 256 / 8 + 256 / 16 + 256 / 32))
  {
  }

  lemma LastBlockSizes()
    ensures BlockSize(34) == Some((256, 2 + 4 * 13)) && BlockSize(35) == Some((256, 2 + 64))
    ensures BlockSize(39) == Some((32, 1 + 16)) && BlockSize(40) == Some((64, 4 + 32)) && BlockSize(41) == Some((128, 2 + 16))
  {
  }

  /** The data of a matrix of whole blocks is its number of blocks times the bytes of one. */
  lemma MatrixSize(rows: nat, blocks: nat, dtype: nat)
    requires BlockSize(dtype).Some?
    ensures
      var (elements, bytes) := BlockSize(dtype).value;
      ByteSize([blocks * elements, rows], dtype) == rows * blocks * bytes
  {
    var (elements, bytes) := BlockSize(dtype).value;
    hide BlockSize;
    var dims := [blocks * elements, rows];
    assert dims[1..] == [rows] && [rows][1..] == [];
    assert Product([rows]) == rows * Product([]);
    assert Product(dims) == (blocks * elements) * rows;
    Rearranged(blocks, elements, rows, bytes);
    Divided(rows * blocks * bytes, elements);
  }

  lemma Rearranged(a: nat, b: nat, c: nat, d: nat)
    ensures ((a * b) * c) * d == (c * a * d) * b
  {
    assert (a * b) * c == (c * a) * b;
    assert ((c * a) * b) * d == ((c * a) * d) * b;
  }

  lemma Divided(n: nat, b: nat)
    requires b > 0
    ensures (n * b) / b == n
  {
    var q := (n * b) / b;
    var r := n * b - q * b;
    assert 0 <= r < b;
    if q < n {
      Grows(q + 1, n, b);
    } else if n < q {
      Grows(n + 1, q, b);
    }
  }

  lemma Grows(a: nat, c: nat, b: nat)
    requires a <= c
    ensures (a - 1) * b + b == a * b <= c * b
  {
  }
}
