/**
 The layout of the three legacy GGML file formats and its parser
 (self.llama/convert_llama_ggml_to_gguf.py).
 */
module GgmlFormat {
  import opened Wrappers
  import opened Bytes
  import Tensors

  datatype Error =
    | AlreadyGguf | BadMagic | BadVersion | BadFtype | NotConvertible   // ValueError
    | ShortData                                                        // struct.error
    | AssertionFailed
    | UnknownTensorType
    | MissingFeedForward | TooFewDims
    | StillReading    // the loop over the tensors has not ended within the rounds watched

  datatype Format = GGML | GGMF | GGJT

  /** Block size and bytes per block of each tensor type. */
  type Quants = map<nat, (nat, nat)>

  predicate ValidQuants(quants: Quants) {
    forall d :: d in quants ==> 0 < quants[d].0 < 0x1_0000 && 0 < quants[d].1
  }

  // ----- Little-endian numbers

  function ToLE(n: nat, k: nat): (s: seq<Byte>)
    ensures |s| == k
  {
    if k == 0 then [] else [n % 256] + ToLE(n / 256, k - 1)
  }

  function FromLE(s: seq<Byte>): nat {
    if s == [] then 0 else s[0] + 256 * FromLE(s[1..])
  }

  function Pow256(k: nat): nat {
    if k == 0 then 1 else 256 * Pow256(k - 1)
  }

  lemma {:induction false} FromToLE(n: nat, k: nat)
    requires n < Pow256(k)
    ensures FromLE(ToLE(n, k)) == n
  {
    if k > 0 {
      FromToLE(n / 256, k - 1);
    }
  }

  const U32 := 0x1_0000_0000

  lemma FourBytes()
    ensures Pow256(4) == U32
  {
    assert Pow256(1) == 256 && Pow256(2) == 65536 && Pow256(3) == 16777216;
  }

  // ----- Reading at an offset

  /** data[from:from + n], cut off at the end of the data. */
  function Slice(data: seq<Byte>, from: nat, n: nat): seq<Byte> {
    if from >= |data| then []
    else if from + n <= |data| then data[from..from + n]
    else data[from..]
  }

  function ReadU32(data: seq<Byte>, at: nat): Option<nat> {
    if at + 4 <= |data| then Some(FromLE(data[at..at + 4])) else None
  }

  /** count numbers in a row; all of their bytes must be there. */
  function ReadU32s(data: seq<Byte>, at: nat, count: nat): (r: Option<seq<nat>>)
    ensures r.Some? ==> |r.value| == count
    ensures r.Some? && count > 0 ==> at + 4 * count <= |data|
    decreases count
  {
    if count == 0 then Some([])
    else if at + 4 * count > |data| then None
    else
      match ReadU32s(data, at + 4, count - 1)
      case None => None
      case Some(ns) => Some([ReadU32(data, at).value] + ns)
  }

  // ----- Header

  const GGUF_MAGIC: seq<Byte> := [71, 71, 85, 70]   // GGUF
  const LMGG: seq<Byte> := [108, 109, 103, 103]     // lmgg
  const FMGG: seq<Byte> := [102, 109, 103, 103]     // fmgg
  const TJGG: seq<Byte> := [116, 106, 103, 103]     // tjgg

  datatype Header = Header(format: Format, version: nat, size: nat)

  function ParseHeader(data: seq<Byte>, at: nat): Result<Header, Error> {
    var magic := Slice(data, at, 4);
    if magic == GGUF_MAGIC then Err(AlreadyGguf)
    else if magic == LMGG then Ok(Header(GGML, 1, 4))
    else
      match ReadU32(data, at + 4)
      case None => Err(ShortData)
      case Some(version) =>
        if magic == FMGG then (if version != 1 then Err(BadVersion) else Ok(Header(GGMF, version, 8)))
        else if magic == TJGG then (if version < 1 || version > 3 then Err(BadVersion) else Ok(Header(GGJT, version, 8)))
        else Err(BadMagic)
  }

  // ----- Hyperparameters

  datatype Hyper = Hyper(nVocab: nat, nEmbd: nat, nMult: nat, nHead: nat, nLayer: nat, nRot: nat, ftype: nat)

  predicate KnownFtype(ftype: nat) {
    ftype <= 4 || 7 <= ftype <= 18
  }

  function ParseHyper(data: seq<Byte>, at: nat): Result<Hyper, Error> {
    match ReadU32s(data, at, 7)
    case None => Err(ShortData)
    case Some(n) => if KnownFtype(n[6]) then Ok(Hyper(n[0], n[1], n[2], n[3], n[4], n[5], n[6])) else Err(BadFtype)
  }

  /** The quantizations a file may say it has. */
  datatype FType = F32 | F16 | Q4_0 | Q4_1 | Q4_1SomeF16 | Q8_0 | Q5_0 | Q5_1
                 | Q2K | Q3KS | Q3KM | Q3KL | Q4KS | Q4KM | Q5KS | Q5KM | Q6K

  function Number(f: FType): nat {
    match f
    case F32 => 0
    case F16 => 1
    case Q4_0 => 2
    case Q4_1 => 3
    case Q4_1SomeF16 => 4
    case Q8_0 => 7
    case Q5_0 => 8
    case Q5_1 => 9
    case Q2K => 10
    case Q3KS => 11
    case Q3KM => 12
    case Q3KL => 13
    case Q4KS => 14
    case Q4KM => 15
    case Q5KS => 16
    case Q5KM => 17
    case Q6K => 18
  }

  /** The numbers known are exactly those of the quantizations. */
  lemma KnownExactly(n: nat)
    ensures KnownFtype(n) <==> exists f :: Number(f) == n
  {
    var fs := [F32, F16, Q4_0, Q4_1, Q4_1SomeF16, F32, F32, Q8_0, Q5_0, Q5_1, Q2K, Q3KS, Q3KM, Q3KL, Q4KS, Q4KM, Q5KS, Q5KM, Q6K];
    if KnownFtype(n) {
      assert Number(fs[n]) == n;
    }
  }

  /** Every quantized layout changed with version 2 of GGJT, and some changed again with version 3. */
  predicate ChangedAt(f: FType, version: nat) {
    match version
    case 2 => !f.F32? && !f.F16?
    case 3 => f.Q4_0? || f.Q4_1? || f.Q4_1SomeF16? || f.Q8_0?
    case _ => false
  }

  /** The layout of the file's quantization has changed since; GGML and GGMF files are older than every GGJT file. */
  ghost predicate Outdated(format: Format, version: nat, f: FType) {
    exists v :: ChangedAt(f, v) && (format != GGJT || version < v)
  }

  lemma ConvertibleExactly(format: Format, version: nat, f: FType)
    ensures Convertible(format, version, Number(f)) <==> !Outdated(format, version, f)
  {
    assert ChangedAt(f, 2) || !ChangedAt(f, 2);
    assert ChangedAt(f, 3) ==> ChangedAt(f, 2);
  }

  /** Which files are eligible for conversion. */
  predicate Convertible(format: Format, version: nat, ftype: nat) {
    if format != GGJT || version < 2 then ftype == 0 || ftype == 1
    else if version == 2 then ftype !in {2, 3, 4, 7}
    else true
  }

  // ----- Vocabulary

  /** The text of a token and, in the formats that have one, the bits of its score. */
  datatype Token = Token(text: seq<Byte>, score: Option<seq<Byte>>)

  datatype Parsed<T> = Parsed(value: T, next: nat)

  function ParseToken(data: seq<Byte>, at: nat, scores: bool): Result<Parsed<Token>, Error> {
    match ReadU32(data, at)
    case None => Err(ShortData)
    case Some(len) =>
      if len >= 4096 then Err(AssertionFailed)
      else
        var text := Slice(data, at + 4, len);
        var after := at + 4 + len;
        if !scores then Ok(Parsed(Token(text, None), after))
        else if after + 4 > |data| then Err(ShortData)
        else Ok(Parsed(Token(text, Some(data[after..after + 4])), after + 4))
  }

  function ParseVocab(data: seq<Byte>, at: nat, scores: bool, n: nat): Result<Parsed<seq<Token>>, Error>
    decreases n
  {
    if n == 0 then Ok(Parsed([], at))
    else
      match ParseToken(data, at, scores)
      case Err(e) => Err(e)
      case Ok(first) =>
        match ParseVocab(data, first.next, scores, n - 1)
        case Err(e) => Err(e)
        case Ok(rest) => Ok(Parsed([first.value] + rest.value, rest.next))
  }

  // ----- Tensors

  datatype Entry = Entry(name: seq<Byte>, dims: seq<nat>, dtype: nat, start: int, len: int)

  /** A bound of a slice: counted from the end if negative, and kept within the data. */
  function Clip(x: int, size: nat): (c: nat)
    ensures c <= size
  {
    if x >= size then size else if x >= 0 then x else if x + size >= 0 then x + size else 0
  }

  /** data[from:to], where an offset may have become negative. */
  function Between(data: seq<Byte>, from: int, to: int): seq<Byte> {
    var i, j := Clip(from, |data|), Clip(to, |data|);
    if i <= j then data[i..j] else []
  }

  /** Exactly count numbers from these bytes. */
  function Unpack(bytes: seq<Byte>, count: nat): (r: Option<seq<nat>>)
    ensures r.Some? ==> |r.value| == count && |bytes| == 4 * count
  {
    if |bytes| == 4 * count then ReadU32s(bytes, 0, count) else None
  }

  /** The byte count as the code computes it, and the true one. */
  function WrappedBytes(dims: seq<nat>, quant: (nat, nat)): int
    requires quant.0 > 0
  {
    Int64(Int64(Tensors.Prod(dims)) * quant.1) / quant.0
  }

  function TrueBytes(dims: seq<nat>, quant: (nat, nat)): nat
    requires quant.0 > 0
  {
    Tensors.Prod(dims) * quant.1 / quant.0
  }

  predicate FitsInt64(dims: seq<nat>, quant: (nat, nat)) {
    Tensors.Prod(dims) * quant.1 < 0x8000_0000_0000_0000
  }

  function Align32(n: int): int {
    (n + 31) / 32 * 32
  }

  /** Where the data of a tensor begins whose header begins at `at`. */
  function DataStart(at: int, nDims: nat, nameLen: nat, padding: bool): int {
    var end := at + 12 + 4 * nDims + nameLen;
    if padding then Align32(end) else end
  }

  /** The data follow the name at once, or from the next multiple of 32 on. */
  predicate StartsAt(end: int, start: int, padding: bool) {
    if padding then start % 32 == 0 && end <= start < end + 32 else start == end
  }

  lemma DataStartIs(at: int, nDims: nat, nameLen: nat, padding: bool)
    ensures StartsAt(at + 12 + 4 * nDims + nameLen, DataStart(at, nDims, nameLen, padding), padding)
  {
    AlignUp(at + 12 + 4 * nDims + nameLen);
  }

  function ParseTensor(data: seq<Byte>, at: int, padding: bool, quants: Quants): Result<Entry, Error>
    requires ValidQuants(quants)
  {
    match Unpack(Between(data, at, at + 12), 3)
    case None => Err(ShortData)
    case Some(h) =>
      var nDims, nameLen, dtype := h[0], h[1], h[2];
      if nDims > 4 || nameLen >= 4096 then Err(AssertionFailed)
      else if dtype !in quants then Err(UnknownTensorType)
      else
        var after := at + 12 + 4 * nDims;
        match Unpack(Between(data, at + 12, after), nDims)
        case None => Err(ShortData)
        case Some(dims) =>
          Ok(Entry(Between(data, after, after + nameLen), dims, dtype,
                   DataStart(at, nDims, nameLen, padding), WrappedBytes(dims, quants[dtype])))
  }

  /** The offset after a tensor, as 64-bit integers add it up; it may lie before the tensor. */
  function Next(t: Entry): int {
    Int64(t.start + t.len)
  }

  /** The loop over the tensor records, watched for a number of rounds. */
  function ParseTensors(data: seq<Byte>, at: int, padding: bool, quants: Quants, rounds: nat): Result<Parsed<seq<Entry>>, Error>
    requires ValidQuants(quants)
    decreases rounds
  {
    if at >= |data| then Ok(Parsed([], at))
    else if rounds == 0 then Err(StillReading)
    else
      match ParseTensor(data, at, padding, quants)
      case Err(e) => Err(e)
      case Ok(t) =>
        match ParseTensors(data, Next(t), padding, quants, rounds - 1)
        case Err(e) => Err(e)
        case Ok(rest) => Ok(Parsed([t] + rest.value, rest.next))
  }

  lemma AlignUp(n: int)
    ensures n <= Align32(n) < n + 32 && Align32(n) % 32 == 0
    ensures forall m: int :: n <= m && m % 32 == 0 ==> Align32(n) <= m
  {
    forall m: int | n <= m && m % 32 == 0
      ensures Align32(n) <= m
    {
      assert m == m / 32 * 32;
    }
  }

  lemma SliceOfSlice(data: seq<Byte>, from: nat, to: nat, i: nat, j: nat)
    requires from <= to <= |data| && i <= j && from + j <= to
    ensures data[from..to][i..j] == data[from + i..from + j]
  {
    var part, a, b := data[from..to], data[from..to][i..j], data[from + i..from + j];
    assert |a| == |b|;
    assert forall k :: 0 <= k < |b| ==> a[k] == part[i + k] == b[k];
  }

  lemma {:induction false} ReadWithin(data: seq<Byte>, from: nat, to: nat, i: nat, count: nat)
    requires from <= to <= |data| && from + i + 4 * count <= to
    ensures ReadU32s(data[from..to], i, count) == ReadU32s(data, from + i, count)
    decreases count
  {
    if count > 0 {
      SliceOfSlice(data, from, to, i, i + 4);
      ReadWithin(data, from, to, i + 4, count - 1);
    }
  }

  lemma BetweenInside(data: seq<Byte>, from: nat, to: nat)
    requires from <= to <= |data|
    ensures Between(data, from, to) == data[from..to]
  {
  }

  lemma TooFewBytes(data: seq<Byte>, at: nat, count: nat)
    requires at + 4 * count > |data|
    ensures Unpack(Between(data, at, at + 4 * count), count) == ReadU32s(data, at, count)
  {
    hide ReadU32;
    NameLength(data, at, 4 * count);
  }

  /** At offsets that are not negative the slices are the usual ones. */
  lemma UnpackAhead(data: seq<Byte>, at: nat, count: nat)
    ensures Unpack(Between(data, at, at + 4 * count), count) == ReadU32s(data, at, count)
  {
    hide ReadU32s, Between;
    if at + 4 * count <= |data| {
      BetweenInside(data, at, at + 4 * count);
      ReadWithin(data, at, at + 4 * count, 0, count);
    } else {
      TooFewBytes(data, at, count);
    }
  }

  lemma SliceAhead(data: seq<Byte>, at: nat, n: nat)
    ensures Between(data, at, at + n) == Slice(data, at, n)
  {
  }

  /** A record's data begin after its 12-byte header, its dimensions and its name, 32-aligned if padded. */
  lemma TensorPlace(data: seq<Byte>, at: nat, padding: bool, quants: Quants)
    requires ValidQuants(quants) && ParseTensor(data, at, padding, quants).Ok?
    ensures var t := ParseTensor(data, at, padding, quants).value;
            && at + 12 <= |data| && t.dtype in quants && t.len == WrappedBytes(t.dims, quants[t.dtype])
            && at + 12 + 4 * |t.dims| + |t.name| <= t.start
            && (padding ==> t.start % 32 == 0)
            && (StartsAt(at + 12 + 4 * |t.dims| + |t.name|, t.start, padding) || t.start > |data|)
  {
    hide TrueBytes, WrappedBytes, FromLE, Align32, ReadU32s, Slice;
    var h := Unpack(Between(data, at, at + 12), 3).value;
    DataStartIs(at, h[0], h[1], padding);
    hide DataStart;
    NameLength(data, at + 12 + 4 * h[0], h[1]);
  }

  lemma NameLength(data: seq<Byte>, at: nat, n: nat)
    ensures |Between(data, at, at + n)| <= n
    ensures |Between(data, at, at + n)| == n || at + n > |data|
  {
  }

  // ----- The byte count in 64-bit integers

  lemma QuotientGrows(a: int, b: int, q: nat)
    requires q > 0 && a + q <= b
    ensures a / q < b / q
  {
    if a / q >= b / q {
      Step(b / q, a / q, q);
    }
  }

  lemma Step(x: int, y: int, q: nat)
    requires x <= y
    ensures x * q <= y * q
  {
    assert y * q == x * q + (y - x) * q;
  }

  lemma Times(p: int, k: int, t: int, m: int)
    ensures (p - k * m) * t == p * t - (k * t) * m
  {
  }

  lemma MultipleAtLeast(k: int, m: nat)
    requires k * m > 0
    ensures k * m >= m
  {
    if k <= 0 {
      Step(k, 0, m);
    } else {
      Step(1, k, m);
    }
  }

  /** The byte count computed is the true one exactly if the true product fits. */
  lemma WrapExact(dims: seq<nat>, quant: (nat, nat))
    requires 0 < quant.0 < 0x1_0000 && 0 < quant.1
    ensures WrappedBytes(dims, quant) == TrueBytes(dims, quant) <==> FitsInt64(dims, quant)
  {
    hide Int64, Tensors.Prod;
    var m, p, t := 0x1_0000_0000_0000_0000, Tensors.Prod(dims), quant.1;
    if FitsInt64(dims, quant) {
      Bounded(p, t);
      Int64Small(p);
      Int64Small(p * t);
    } else {
      var k1 := Int64Congruent(p);
      var k2 := Int64Congruent(Int64(p) * t);
      Times(p, k1, t, m);
      var w, k := Int64(Int64(p) * t), k1 * t + k2;
      assert p * t - w == k * m;
      MultipleAtLeast(k, m);
      QuotientGrows(w, p * t, quant.0);
    }
  }

  /** In any case it is the true product less a multiple of 2^64, as a signed integer, divided by the block size. */
  lemma WrapIsResidue(dims: seq<nat>, quant: (nat, nat)) returns (w: int, k: int)
    requires quant.0 > 0
    ensures w == Tensors.Prod(dims) * quant.1 - k * 0x1_0000_0000_0000_0000
    ensures -0x8000_0000_0000_0000 <= w < 0x8000_0000_0000_0000 && WrappedBytes(dims, quant) == w / quant.0
  {
    hide Int64, Tensors.Prod;
    var m, p, t := 0x1_0000_0000_0000_0000, Tensors.Prod(dims), quant.1;
    var k1 := Int64Congruent(p);
    var k2 := Int64Congruent(Int64(p) * t);
    Times(p, k1, t, m);
    w, k := Int64(Int64(p) * t), k1 * t + k2;
  }

  /** The offset after a record is likewise where its data end, less a multiple of 2^64. */
  lemma NextIsResidue(t: Entry) returns (k: int)
    ensures Next(t) == t.start + t.len - k * 0x1_0000_0000_0000_0000
    ensures -0x8000_0000_0000_0000 <= Next(t) < 0x8000_0000_0000_0000
  {
    k := Int64Congruent(t.start + t.len);
  }

  /** Three dimensions of legal size whose 2^65 bytes are counted as none. */
  lemma WrapLosesBytes()
    ensures var dims := [0x8000_0000, 0x8000_0000, 2];
            WrappedBytes(dims, (1, 4)) == 0 && TrueBytes(dims, (1, 4)) == 4 * 0x8000_0000_0000_0000
  {
    assert Tensors.Prod([]) == 1;
    assert [0x8000_0000][..0] == [];
    assert Tensors.Prod([0x8000_0000]) == 0x8000_0000;
    assert [0x8000_0000, 0x8000_0000][..1] == [0x8000_0000];
    assert [0x8000_0000, 0x8000_0000, 2][..2] == [0x8000_0000, 0x8000_0000];
  }

  lemma Bounded(p: nat, t: nat)
    requires t > 0
    ensures p <= p * t
  {
    Step(1, t, p);
  }

  // ----- When a record advances the offset

  /** The byte count is right, and so is the offset after it. */
  predicate Fits(t: Entry, quants: Quants)
    requires ValidQuants(quants)
  {
    t.dtype in quants && FitsInt64(t.dims, quants[t.dtype]) && t.start + t.len < 0x8000_0000_0000_0000
  }

  lemma CountInRange(dims: seq<nat>, quant: (nat, nat))
    requires quant.0 > 0
    ensures -0x8000_0000_0000_0000 <= WrappedBytes(dims, quant) < 0x8000_0000_0000_0000
  {
    hide Int64, Tensors.Prod;
    var n := Int64(Tensors.Prod(dims)) * quant.1;
    var k := Int64Congruent(n);
    Nearer(Int64(n), quant.0);
  }

  lemma Nearer(x: int, q: nat)
    requires q > 0
    ensures x >= 0 ==> 0 <= x / q <= x
    ensures x < 0 ==> x <= x / q < 0
  {
    var d, r := x / q, x % q;
    assert x == d * q + r;
    if x >= 0 {
      if d < 0 {
        Step(d, -1, q);
      } else {
        Step(1, q, d);
      }
    } else {
      if d >= 0 {
        Step(0, d, q);
      } else {
        Step(1, q, -(d + 1));
        assert (d + 1) * q == d * q + q && q * -(d + 1) == -((d + 1) * q);
      }
    }
  }

  /**
   A record moves the offset forward exactly if its header, name, padding and byte count as computed add up to more
   than nothing without passing the largest 64-bit integer. All of these are known from the header.
   */
  lemma AdvancesExactly(data: seq<Byte>, at: nat, padding: bool, quants: Quants)
    requires ValidQuants(quants) && ParseTensor(data, at, padding, quants).Ok?
    requires ParseTensor(data, at, padding, quants).value.start < 0x8000_0000_0000_0000
    ensures var t := ParseTensor(data, at, padding, quants).value;
            && t.dtype in quants && t.len == WrappedBytes(t.dims, quants[t.dtype])
            && (Next(t) > at <==> (t.start - at) + t.len > 0 && t.start + t.len < 0x8000_0000_0000_0000)
  {
    hide ParseTensor, WrappedBytes, DataStart, Int64;
    var t := ParseTensor(data, at, padding, quants).value;
    TensorPlace(data, at, padding, quants);
    CountInRange(t.dims, quants[t.dtype]);
    Sum64(t.start, t.len);
  }

  lemma Sum64(start: nat, len: int)
    requires start < 0x8000_0000_0000_0000 && -0x8000_0000_0000_0000 <= len < 0x8000_0000_0000_0000
    ensures Int64(start + len) == if start + len < 0x8000_0000_0000_0000 then start + len else start + len - 0x1_0000_0000_0000_0000
  {
    if start + len < 0x8000_0000_0000_0000 {
      Int64Small(start + len);
    } else {
      Int64Over(start + len);
    }
  }

  /** The next record begins where the tensor's data truly end exactly if the record fits. */
  lemma NextExact(data: seq<Byte>, at: nat, padding: bool, quants: Quants)
    requires ValidQuants(quants) && ParseTensor(data, at, padding, quants).Ok?
    requires ParseTensor(data, at, padding, quants).value.start < 0x8000_0000_0000_0000
    ensures var t := ParseTensor(data, at, padding, quants).value;
            && t.dtype in quants
            && (Next(t) == t.start + TrueBytes(t.dims, quants[t.dtype]) <==> Fits(t, quants))
  {
    hide ParseTensor, WrappedBytes, TrueBytes, DataStart, Int64, FitsInt64;
    var t := ParseTensor(data, at, padding, quants).value;
    TensorPlace(data, at, padding, quants);
    CountInRange(t.dims, quants[t.dtype]);
    Sum64(t.start, t.len);
    WrapExact(t.dims, quants[t.dtype]);
  }

  /** A record that fits takes at least its 12-byte header, and its range is not negative. */
  lemma FitsAdvances(data: seq<Byte>, at: nat, padding: bool, quants: Quants)
    requires ValidQuants(quants) && ParseTensor(data, at, padding, quants).Ok?
    requires Fits(ParseTensor(data, at, padding, quants).value, quants)
    ensures var t := ParseTensor(data, at, padding, quants).value;
            && t.len == TrueBytes(t.dims, quants[t.dtype]) && Next(t) == t.start + t.len
            && at + 12 <= Next(t) && at + 12 <= |data|
  {
    hide ParseTensor, WrappedBytes, TrueBytes, DataStart, Int64, FitsInt64;
    var t := ParseTensor(data, at, padding, quants).value;
    TensorPlace(data, at, padding, quants);
    WrapExact(t.dims, quants[t.dtype]);
    Sum64(t.start, t.len);
  }

  // ----- When the loop ends

  /** The records met within these rounds all fit. */
  predicate AllFit(data: seq<Byte>, at: int, padding: bool, quants: Quants, rounds: nat)
    requires ValidQuants(quants)
    decreases rounds
  {
    if at >= |data| || rounds == 0 then true
    else
      match ParseTensor(data, at, padding, quants)
      case Err(_) => true
      case Ok(t) => Fits(t, quants) && AllFit(data, Next(t), padding, quants, rounds - 1)
  }

  /** Every record met within these rounds moves the offset forward. */
  predicate AllAdvance(data: seq<Byte>, at: int, padding: bool, quants: Quants, rounds: nat)
    requires ValidQuants(quants)
    decreases rounds
  {
    if at >= |data| || rounds == 0 then true
    else
      match ParseTensor(data, at, padding, quants)
      case Err(_) => true
      case Ok(t) => Next(t) > at && AllAdvance(data, Next(t), padding, quants, rounds - 1)
  }

  /** If every record fits, each takes its 12 bytes, and the loop ends within a twelfth as many rounds as there are bytes. */
  lemma {:induction false} FittingEnds(data: seq<Byte>, at: nat, padding: bool, quants: Quants, rounds: nat)
    requires ValidQuants(quants) && AllFit(data, at, padding, quants, rounds)
    requires at + 12 * rounds >= |data|
    ensures ParseTensors(data, at, padding, quants, rounds) != Err(StillReading)
    decreases rounds
  {
    hide ParseTensor, Next, Fits;
    if at < |data| {
      TensorErrors(data, at, padding, quants);
      if ParseTensor(data, at, padding, quants).Ok? {
        FitsAdvances(data, at, padding, quants);
        FittingEnds(data, Next(ParseTensor(data, at, padding, quants).value), padding, quants, rounds - 1);
      }
    }
  }

  /** If every record advances, the loop ends within as many rounds as there are bytes to the end. */
  lemma {:induction false} AdvancingEnds(data: seq<Byte>, at: int, padding: bool, quants: Quants, rounds: nat)
    requires ValidQuants(quants) && AllAdvance(data, at, padding, quants, rounds)
    requires at + rounds >= |data|
    ensures ParseTensors(data, at, padding, quants, rounds) != Err(StillReading)
    decreases rounds
  {
    hide ParseTensor, Next;
    if at < |data| {
      TensorErrors(data, at, padding, quants);
      if ParseTensor(data, at, padding, quants).Ok? {
        AdvancingEnds(data, Next(ParseTensor(data, at, padding, quants).value), padding, quants, rounds - 1);
      }
    }
  }

  lemma TensorErrors(data: seq<Byte>, at: int, padding: bool, quants: Quants)
    requires ValidQuants(quants)
    ensures ParseTensor(data, at, padding, quants) != Err(StillReading)
  {
  }

  /** A record that leaves the offset where it was is read again for ever. */
  lemma {:induction false} StallsForever(data: seq<Byte>, at: int, padding: bool, quants: Quants, rounds: nat)
    requires ValidQuants(quants) && at < |data| && ParseTensor(data, at, padding, quants).Ok?
    requires Next(ParseTensor(data, at, padding, quants).value) == at
    ensures ParseTensors(data, at, padding, quants, rounds) == Err(StillReading)
    decreases rounds
  {
    hide ParseTensor, Next;
    if rounds > 0 {
      StallsForever(data, at, padding, quants, rounds - 1);
    }
  }

  /** Where the loop stands after some rounds, if it gets so far. */
  function OffsetAfter(data: seq<Byte>, at: int, padding: bool, quants: Quants, k: nat): Option<int>
    requires ValidQuants(quants)
    decreases k
  {
    if k == 0 then Some(at)
    else if at >= |data| then None
    else
      match ParseTensor(data, at, padding, quants)
      case Err(_) => None
      case Ok(t) => OffsetAfter(data, Next(t), padding, quants, k - 1)
  }

  predicate ReadsOn(data: seq<Byte>, at: int, padding: bool, quants: Quants, k: nat)
    requires ValidQuants(quants)
  {
    var x := OffsetAfter(data, at, padding, quants, k);
    x.Some? && x.value < |data|
  }

  lemma {:induction false} StillMeansReadsOn(data: seq<Byte>, at: int, padding: bool, quants: Quants, k: nat)
    requires ValidQuants(quants)
    ensures ParseTensors(data, at, padding, quants, k) == Err(StillReading) <==> ReadsOn(data, at, padding, quants, k)
    decreases k
  {
    hide ParseTensor, Next;
    if k > 0 && at < |data| {
      TensorErrors(data, at, padding, quants);
      if ParseTensor(data, at, padding, quants).Ok? {
        StillMeansReadsOn(data, Next(ParseTensor(data, at, padding, quants).value), padding, quants, k - 1);
      }
    }
  }

  lemma {:induction false} OffsetsCompose(data: seq<Byte>, at: int, padding: bool, quants: Quants, i: nat, k: nat)
    requires ValidQuants(quants) && OffsetAfter(data, at, padding, quants, i).Some?
    ensures OffsetAfter(data, at, padding, quants, i + k)
         == OffsetAfter(data, OffsetAfter(data, at, padding, quants, i).value, padding, quants, k)
    decreases i
  {
    hide ParseTensor, Next;
    if i > 0 {
      OffsetsCompose(data, Next(ParseTensor(data, at, padding, quants).value), padding, quants, i - 1, k);
    }
  }

  lemma ReadsOnBefore(data: seq<Byte>, at: int, padding: bool, quants: Quants, i: nat, k: nat)
    requires ValidQuants(quants) && i <= k && ReadsOn(data, at, padding, quants, k)
    ensures ReadsOn(data, at, padding, quants, i)
    decreases i
  {
    hide ParseTensor, Next;
    if i > 0 {
      ReadsOnBefore(data, Next(ParseTensor(data, at, padding, quants).value), padding, quants, i - 1, k - 1);
    }
  }

  /** The loop stands at the same offset before rounds i and j. */
  predicate Returns(data: seq<Byte>, at: int, padding: bool, quants: Quants, i: nat, j: nat)
    requires ValidQuants(quants)
  {
    && i < j && ReadsOn(data, at, padding, quants, j)
    && OffsetAfter(data, at, padding, quants, i) == OffsetAfter(data, at, padding, quants, j)
  }

  lemma {:induction false} ReturnsForever(data: seq<Byte>, at: int, padding: bool, quants: Quants, i: nat, j: nat, n: nat)
    requires ValidQuants(quants) && Returns(data, at, padding, quants, i, j)
    ensures ReadsOn(data, at, padding, quants, n)
    decreases n
  {
    hide OffsetAfter;
    if n <= j {
      ReadsOnBefore(data, at, padding, quants, n, j);
    } else {
      ReturnsForever(data, at, padding, quants, i, j, n - (j - i));
      OffsetsCompose(data, at, padding, quants, j, n - j);
      OffsetsCompose(data, at, padding, quants, i, n - j);
    }
  }

  lemma {:induction false} OffsetsInRange(data: seq<Byte>, at: int, padding: bool, quants: Quants, k: nat)
    requires ValidQuants(quants) && k > 0 && OffsetAfter(data, at, padding, quants, k).Some?
    ensures -0x8000_0000_0000_0000 <= OffsetAfter(data, at, padding, quants, k).value < 0x8000_0000_0000_0000
    decreases k
  {
    hide ParseTensor, Int64;
    var t := ParseTensor(data, at, padding, quants).value;
    if k == 1 {
      var m := Int64Congruent(t.start + t.len);
    } else {
      OffsetsInRange(data, Next(t), padding, quants, k - 1);
    }
  }

  /** Distinct integers in a range are no more than the range holds. */
  lemma {:induction false} DistinctFew(xs: seq<int>, lo: int, n: nat)
    requires forall i :: 0 <= i < |xs| ==> lo <= xs[i] < lo + n
    requires forall i, j :: 0 <= i < j < |xs| ==> xs[i] != xs[j]
    ensures |xs| <= n
    decreases n
  {
    if xs != [] {
      assert lo <= xs[0] < lo + n;
      var last := lo + n - 1;
      if i :| 0 <= i < |xs| && xs[i] == last {
        var rest := xs[..i] + xs[i + 1..];
        assert forall k :: 0 <= k < |rest| ==> rest[k] == xs[if k < i then k else k + 1];
        DistinctFew(rest, lo, n - 1);
      } else {
        DistinctFew(xs, lo, n - 1);
      }
    }
  }

  ghost predicate NeverEnds(data: seq<Byte>, at: int, padding: bool, quants: Quants)
    requires ValidQuants(quants)
  {
    forall n: nat :: ParseTensors(data, at, padding, quants, n) == Err(StillReading)
  }

  /** The loop never ends exactly if it returns to an offset it has been at. */
  lemma EndsUnlessItReturns(data: seq<Byte>, at: int, padding: bool, quants: Quants)
    requires ValidQuants(quants)
    ensures NeverEnds(data, at, padding, quants) <==> exists i: nat, j: nat :: Returns(data, at, padding, quants, i, j)
  {
    hide ParseTensors, OffsetAfter, Returns, ReadsOn;
    if i: nat, j: nat :| Returns(data, at, padding, quants, i, j) {
      forall n: nat
        ensures ParseTensors(data, at, padding, quants, n) == Err(StillReading)
      {
        ReturnsForever(data, at, padding, quants, i, j, n);
        StillMeansReadsOn(data, at, padding, quants, n);
      }
    }
    if NeverEnds(data, at, padding, quants) {
      forall n: nat
        ensures ReadsOn(data, at, padding, quants, n)
      {
        StillMeansReadsOn(data, at, padding, quants, n);
      }
      MustReturn(data, at, padding, quants);
    }
  }

  lemma MustReturn(data: seq<Byte>, at: int, padding: bool, quants: Quants)
    requires ValidQuants(quants) && forall n: nat :: ReadsOn(data, at, padding, quants, n)
    ensures exists i: nat, j: nat :: Returns(data, at, padding, quants, i, j)
  {
    hide OffsetAfter;
    var n := 0x1_0000_0000_0000_0000;
    assert forall k: nat :: ReadsOn(data, at, padding, quants, k) ==> OffsetAfter(data, at, padding, quants, k).Some?;
    var xs := seq(n + 1, k requires 0 <= k < n + 1 => OffsetAt(data, at, padding, quants, k + 1));
    forall k | 0 <= k < |xs|
      ensures -0x8000_0000_0000_0000 <= xs[k] < 0x8000_0000_0000_0000
    {
      assert ReadsOn(data, at, padding, quants, k + 1);
      OffsetsInRange(data, at, padding, quants, k + 1);
    }
    if forall i, j :: 0 <= i < j < |xs| ==> xs[i] != xs[j] {
      DistinctFew(xs, -0x8000_0000_0000_0000, n);
    } else {
      var i, j :| 0 <= i < j < |xs| && xs[i] == xs[j];
      assert ReadsOn(data, at, padding, quants, i + 1) && ReadsOn(data, at, padding, quants, j + 1);
      assert Returns(data, at, padding, quants, i + 1, j + 1);
    }
  }

  function OffsetAt(data: seq<Byte>, at: int, padding: bool, quants: Quants, k: nat): int
    requires ValidQuants(quants)
  {
    var x := OffsetAfter(data, at, padding, quants, k);
    if x.Some? then x.value else 0
  }

  /** Watching longer does not change what the loop ends in. */
  lemma {:induction false} EndsOnce(data: seq<Byte>, at: int, padding: bool, quants: Quants, rounds: nat, more: nat)
    requires ValidQuants(quants) && rounds <= more && ParseTensors(data, at, padding, quants, rounds) != Err(StillReading)
    ensures ParseTensors(data, at, padding, quants, more) == ParseTensors(data, at, padding, quants, rounds)
    decreases rounds
  {
    hide ParseTensor, Next;
    if at < |data| && ParseTensor(data, at, padding, quants).Ok? {
      EndsOnce(data, Next(ParseTensor(data, at, padding, quants).value), padding, quants, rounds - 1, more - 1);
    }
  }

  // ----- Writing a file

  datatype TensorData = TensorData(name: seq<Byte>, dims: seq<nat>, dtype: nat, data: seq<Byte>)

  datatype File = File(format: Format, version: nat, hyper: Hyper, vocab: seq<Token>, tensors: seq<TensorData>)

  function Words(ns: seq<nat>): seq<Byte> {
    if ns == [] then [] else ToLE(ns[0], 4) + Words(ns[1..])
  }

  function WriteHeader(format: Format, version: nat): seq<Byte> {
    match format
    case GGML => LMGG
    case GGMF => FMGG + ToLE(version, 4)
    case GGJT => TJGG + ToLE(version, 4)
  }

  function WriteHyper(h: Hyper): seq<Byte> {
    Words([h.nVocab, h.nEmbd, h.nMult, h.nHead, h.nLayer, h.nRot, h.ftype])
  }

  function WriteToken(token: Token): seq<Byte> {
    ToLE(|token.text|, 4) + token.text + (if token.score.Some? then token.score.value else [])
  }

  function WriteVocab(vocab: seq<Token>): seq<Byte> {
    if vocab == [] then [] else WriteToken(vocab[0]) + WriteVocab(vocab[1..])
  }

  function Fill(n: nat, filler: Byte): (s: seq<Byte>)
    ensures |s| == n
  {
    seq(n, _ => filler)
  }

  /** A tensor record written at an offset; the padding in front of the data depends on it. */
  function WriteTensor(t: TensorData, at: nat, padding: bool, filler: Byte): (s: seq<Byte>)
    ensures at + |s| == DataStart(at, |t.dims|, |t.name|, padding) + |t.data|
  {
    WordsLength(t.dims);
    WordsLength([|t.dims|, |t.name|, t.dtype]);
    AlignUp(at + 12 + 4 * |t.dims| + |t.name|);
    var end := at + 12 + 4 * |t.dims| + |t.name|;
    Words([|t.dims|, |t.name|, t.dtype]) + Words(t.dims) + t.name
    + Fill(DataStart(at, |t.dims|, |t.name|, padding) - end, filler) + t.data
  }

  lemma WordsLength(ns: seq<nat>)
    ensures |Words(ns)| == 4 * |ns|
  {
  }

  function WriteTensors(ts: seq<TensorData>, at: nat, padding: bool, filler: Byte): seq<Byte> {
    if ts == [] then []
    else
      var first := WriteTensor(ts[0], at, padding, filler);
      first + WriteTensors(ts[1..], at + |first|, padding, filler)
  }

  /** A file written after a prefix of the given length. */
  function Write(f: File, at: nat, filler: Byte): seq<Byte> {
    var head := WriteHeader(f.format, f.version) + WriteHyper(f.hyper) + WriteVocab(f.vocab);
    head + WriteTensors(f.tensors, at + |head|, f.format == GGJT, filler)
  }

  // ----- What a file must satisfy to be written and read

  predicate GoodHeader(format: Format, version: nat) {
    match format
    case GGML => version == 1
    case GGMF => version == 1
    case GGJT => 1 <= version <= 3
  }

  predicate GoodHyper(h: Hyper) {
    && h.nVocab < U32 && h.nEmbd < U32 && h.nMult < U32 && h.nHead < U32 && h.nLayer < U32 && h.nRot < U32
    && KnownFtype(h.ftype)
  }

  predicate GoodToken(token: Token, scores: bool) {
    |token.text| < 4096 && token.score.Some? == scores && (scores ==> |token.score.value| == 4)
  }

  predicate GoodTensor(t: TensorData, quants: Quants)
    requires ValidQuants(quants)
  {
    && |t.dims| <= 4 && |t.name| < 4096 && t.dtype < U32 && t.dtype in quants
    && (forall i :: 0 <= i < |t.dims| ==> t.dims[i] < U32)
    && FitsInt64(t.dims, quants[t.dtype])
    && |t.data| == TrueBytes(t.dims, quants[t.dtype])
  }

  // ----- Bytes at an offset

  predicate Has(data: seq<Byte>, at: nat, s: seq<Byte>) {
    at + |s| <= |data| && data[at..at + |s|] == s
  }

  lemma HasBoth(data: seq<Byte>, at: nat, s: seq<Byte>, t: seq<Byte>)
    ensures Has(data, at, s + t) <==> Has(data, at, s) && Has(data, at + |s|, t)
  {
    if at + |s| + |t| <= |data| {
      var d := data[at..at + |s + t|];
      assert d[..|s|] == data[at..at + |s|] && d[|s|..] == data[at + |s|..at + |s| + |t|];
      assert d == d[..|s|] + d[|s|..];
      assert (s + t)[..|s|] == s && (s + t)[|s|..] == t;
    }
  }

  lemma ReadWord(data: seq<Byte>, at: nat, n: nat)
    requires n < U32 && Has(data, at, ToLE(n, 4))
    ensures ReadU32(data, at) == Some(n)
  {
    hide ToLE, FromLE;
    FourBytes();
    FromToLE(n, 4);
  }

  lemma {:induction false} ReadWords(data: seq<Byte>, at: nat, ns: seq<nat>)
    requires Has(data, at, Words(ns)) && forall i :: 0 <= i < |ns| ==> ns[i] < U32
    ensures ReadU32s(data, at, |ns|) == Some(ns)
    decreases |ns|
  {
    hide ToLE, FromLE, ReadU32;
    WordsLength(ns);
    if ns != [] {
      HasBoth(data, at, ToLE(ns[0], 4), Words(ns[1..]));
      ReadWord(data, at, ns[0]);
      ReadWords(data, at + 4, ns[1..]);
      assert ns == [ns[0]] + ns[1..];
    }
  }

  lemma SliceHas(data: seq<Byte>, at: nat, s: seq<Byte>)
    requires Has(data, at, s)
    ensures Slice(data, at, |s|) == s
  {
  }

  // ----- Reading back what was written

  lemma HeaderBack(data: seq<Byte>, at: nat, format: Format, version: nat)
    requires GoodHeader(format, version) && Has(data, at, WriteHeader(format, version))
    ensures ParseHeader(data, at) == Ok(Header(format, version, |WriteHeader(format, version)|))
  {
    hide ToLE, ReadU32;
    match format
    case GGML => SliceHas(data, at, LMGG);
    case GGMF =>
      HasBoth(data, at, FMGG, ToLE(version, 4));
      SliceHas(data, at, FMGG);
      ReadWord(data, at + 4, version);
    case GGJT =>
      HasBoth(data, at, TJGG, ToLE(version, 4));
      SliceHas(data, at, TJGG);
      ReadWord(data, at + 4, version);
  }

  lemma HyperBack(data: seq<Byte>, at: nat, h: Hyper)
    requires GoodHyper(h) && Has(data, at, WriteHyper(h))
    ensures ParseHyper(data, at) == Ok(h) && |WriteHyper(h)| == 28
  {
    hide Words, ReadU32s;
    var ns := [h.nVocab, h.nEmbd, h.nMult, h.nHead, h.nLayer, h.nRot, h.ftype];
    ReadWords(data, at, ns);
    WordsLength(ns);
  }

  lemma TokenBack(data: seq<Byte>, at: nat, token: Token, scores: bool)
    requires GoodToken(token, scores) && Has(data, at, WriteToken(token))
    ensures ParseToken(data, at, scores) == Ok(Parsed(token, at + |WriteToken(token)|))
  {
    hide ToLE, ReadU32, Slice;
    var score := if token.score.Some? then token.score.value else [];
    HasBoth(data, at, ToLE(|token.text|, 4) + token.text, score);
    HasBoth(data, at, ToLE(|token.text|, 4), token.text);
    ReadWord(data, at, |token.text|);
    SliceHas(data, at + 4, token.text);
  }

  lemma {:induction false} VocabBack(data: seq<Byte>, at: nat, vocab: seq<Token>, scores: bool)
    requires forall i :: 0 <= i < |vocab| ==> GoodToken(vocab[i], scores)
    requires Has(data, at, WriteVocab(vocab))
    ensures ParseVocab(data, at, scores, |vocab|) == Ok(Parsed(vocab, at + |WriteVocab(vocab)|))
    decreases |vocab|
  {
    hide GoodToken, WriteToken, ParseToken;
    if vocab != [] {
      var first := WriteToken(vocab[0]);
      HasBoth(data, at, first, WriteVocab(vocab[1..]));
      TokenBack(data, at, vocab[0], scores);
      VocabBack(data, at + |first|, vocab[1..], scores);
      assert vocab == [vocab[0]] + vocab[1..];
    }
  }

  /** What the parser keeps of a tensor written at an offset. */
  function EntryOf(t: TensorData, at: nat, padding: bool): Entry {
    Entry(t.name, t.dims, t.dtype, DataStart(at, |t.dims|, |t.name|, padding), |t.data|)
  }

  lemma TensorBack(data: seq<Byte>, at: nat, t: TensorData, padding: bool, filler: Byte, quants: Quants)
    requires ValidQuants(quants) && GoodTensor(t, quants)
    requires Has(data, at, WriteTensor(t, at, padding, filler))
    ensures ParseTensor(data, at, padding, quants) == Ok(EntryOf(t, at, padding))
    ensures var e := EntryOf(t, at, padding);
            && e.start >= 0 && e.start + e.len == at + |WriteTensor(t, at, padding, filler)|
            && Has(data, e.start, t.data)
  {
    hide Words, ReadU32s, Slice, FitsInt64, TrueBytes, WrappedBytes, Align32, Unpack, Between;
    var head := [|t.dims|, |t.name|, t.dtype];
    var end := at + 12 + 4 * |t.dims| + |t.name|;
    AlignUp(end);
    var start: nat := DataStart(at, |t.dims|, |t.name|, padding);
    var gap := Fill(start - end, filler);
    WordsLength(head);
    WordsLength(t.dims);
    HasBoth(data, at, Words(head) + Words(t.dims) + t.name + gap, t.data);
    HasBoth(data, at, Words(head) + Words(t.dims) + t.name, gap);
    HasBoth(data, at, Words(head) + Words(t.dims), t.name);
    HasBoth(data, at, Words(head), Words(t.dims));
    ReadWords(data, at, head);
    ReadWords(data, at + 12, t.dims);
    UnpackAhead(data, at, 3);
    UnpackAhead(data, at + 12, |t.dims|);
    SliceHas(data, at + 12 + 4 * |t.dims|, t.name);
    SliceAhead(data, at + 12 + 4 * |t.dims|, |t.name|);
    WrapExact(t.dims, quants[t.dtype]);
  }

  function Entries(ts: seq<TensorData>, at: nat, padding: bool, filler: Byte): seq<Entry> {
    if ts == [] then []
    else [EntryOf(ts[0], at, padding)] + Entries(ts[1..], at + |WriteTensor(ts[0], at, padding, filler)|, padding, filler)
  }

  /** Files larger than a 64-bit integer counts are not read back, as the offset wraps. */
  const LIMIT := 0x8000_0000_0000_0000

  lemma {:induction false} TensorsBack(data: seq<Byte>, at: nat, ts: seq<TensorData>, padding: bool, filler: Byte, quants: Quants, rounds: nat)
    requires ValidQuants(quants) && forall i :: 0 <= i < |ts| ==> GoodTensor(ts[i], quants)
    requires Has(data, at, WriteTensors(ts, at, padding, filler))
    requires at + |WriteTensors(ts, at, padding, filler)| == |data| < LIMIT && rounds >= |ts|
    ensures ParseTensors(data, at, padding, quants, rounds)
         == Ok(Parsed(Entries(ts, at, padding, filler), |data|))
    decreases |ts|
  {
    hide GoodTensor, WriteTensor, ParseTensor, EntryOf, Int64;
    if ts != [] {
      var first := WriteTensor(ts[0], at, padding, filler);
      HasBoth(data, at, first, WriteTensors(ts[1..], at + |first|, padding, filler));
      TensorBack(data, at, ts[0], padding, filler, quants);
      TensorPlace(data, at, padding, quants);
      Int64Small(at + |first|);
      TensorsBack(data, at + |first|, ts[1..], padding, filler, quants, rounds - 1);
    }
  }

  // ----- A whole file

  datatype Model = Model(format: Format, version: nat, hyper: Hyper, vocab: seq<Token>, tensors: seq<Entry>, nFf: nat)

  /** layers.0.feed_forward.w1.weight */
  const FEED_FORWARD: seq<Byte> := [108, 97, 121, 101, 114, 115, 46, 48, 46, 102, 101, 101, 100, 95, 102, 111, 114, 119, 97, 114, 100, 46, 119, 49, 46, 119, 101, 105, 103, 104, 116]

  /** Where the last tensor of a name is: the name maps to it, as later entries replace earlier ones. */
  function LastNamed(ts: seq<Entry>, name: seq<Byte>): (r: Option<nat>)
    ensures r.Some? ==> r.value < |ts| && ts[r.value].name == name && forall j :: r.value < j < |ts| ==> ts[j].name != name
    ensures r.None? ==> forall j :: 0 <= j < |ts| ==> ts[j].name != name
  {
    if ts == [] then None
    else if ts[|ts| - 1].name == name then Some(|ts| - 1)
    else LastNamed(ts[..|ts| - 1], name)
  }

  function FeedForwardSize(ts: seq<Entry>): Result<nat, Error> {
    match LastNamed(ts, FEED_FORWARD)
    case None => Err(MissingFeedForward)
    case Some(i) => if |ts[i].dims| < 2 then Err(TooFewDims) else Ok(ts[i].dims[1])
  }

  /** Everything but the feed-forward size, which only looks at the tensors found. */
  function ParseSections(data: seq<Byte>, at: nat, quants: Quants, rounds: nat): Result<Parsed<Model>, Error>
    requires ValidQuants(quants)
  {
    match ParseHeader(data, at)
    case Err(e) => Err(e)
    case Ok(header) =>
      match ParseHyper(data, at + header.size)
      case Err(e) => Err(e)
      case Ok(hyper) =>
        if !Convertible(header.format, header.version, hyper.ftype) then Err(NotConvertible)
        else
          match ParseVocab(data, at + header.size + 28, header.format != GGML, hyper.nVocab)
          case Err(e) => Err(e)
          case Ok(vocab) =>
            match ParseTensors(data, vocab.next, header.format == GGJT, quants, rounds)
            case Err(e) => Err(e)
            case Ok(ts) => Ok(Parsed(Model(header.format, header.version, hyper, vocab.value, ts.value, 0), ts.next))
  }

  function ParseModel(data: seq<Byte>, at: nat, quants: Quants, rounds: nat): Result<Parsed<Model>, Error>
    requires ValidQuants(quants)
  {
    match ParseSections(data, at, quants, rounds)
    case Err(e) => Err(e)
    case Ok(m) =>
      match FeedForwardSize(m.value.tensors)
      case Err(e) => Err(e)
      case Ok(n) => Ok(Parsed(m.value.(nFf := n), m.next))
  }

  // ----- The parser inverts the layout

  predicate GoodSections(f: File, quants: Quants)
    requires ValidQuants(quants)
  {
    && GoodHeader(f.format, f.version) && GoodHyper(f.hyper)
    && |f.vocab| == f.hyper.nVocab
    && (forall i :: 0 <= i < |f.vocab| ==> GoodToken(f.vocab[i], f.format != GGML))
    && (forall i :: 0 <= i < |f.tensors| ==> GoodTensor(f.tensors[i], quants))
  }

  /** Where the tensors of a file written at an offset begin. */
  function TensorsAt(f: File, at: nat): nat {
    at + |WriteHeader(f.format, f.version) + WriteHyper(f.hyper) + WriteVocab(f.vocab)|
  }

  lemma SectionsBack(data: seq<Byte>, at: nat, f: File, filler: Byte, quants: Quants, rounds: nat)
    requires ValidQuants(quants) && GoodSections(f, quants)
    requires Has(data, at, Write(f, at, filler)) && at + |Write(f, at, filler)| == |data| < LIMIT && rounds >= |f.tensors|
    ensures ParseSections(data, at, quants, rounds) == (
              if !Convertible(f.format, f.version, f.hyper.ftype) then Err(NotConvertible)
              else Ok(Parsed(Model(f.format, f.version, f.hyper, f.vocab,
                                   Entries(f.tensors, TensorsAt(f, at), f.format == GGJT, filler), 0), |data|)))
  {
    hide WriteHeader, WriteHyper, WriteVocab, WriteTensors, ParseHeader, ParseHyper, ParseVocab, ParseTensors, GoodTensor, GoodToken, GoodHeader, GoodHyper, Convertible, Entries;
    var header, hyper, vocab := WriteHeader(f.format, f.version), WriteHyper(f.hyper), WriteVocab(f.vocab);
    var tensors := WriteTensors(f.tensors, TensorsAt(f, at), f.format == GGJT, filler);
    HasBoth(data, at, header + hyper + vocab, tensors);
    HasBoth(data, at, header + hyper, vocab);
    HasBoth(data, at, header, hyper);
    HeaderBack(data, at, f.format, f.version);
    HyperBack(data, at + |header|, f.hyper);
    VocabBack(data, at + |header| + 28, f.vocab, f.format != GGML);
    TensorsBack(data, TensorsAt(f, at), f.tensors, f.format == GGJT, filler, quants, rounds);
  }

  /** The last tensor of a name in a file. */
  function LastWritten(ts: seq<TensorData>, name: seq<Byte>): Option<TensorData> {
    if ts == [] then None
    else if ts[|ts| - 1].name == name then Some(ts[|ts| - 1])
    else LastWritten(ts[..|ts| - 1], name)
  }

  lemma {:induction false} EntriesKeep(ts: seq<TensorData>, at: nat, padding: bool, filler: Byte)
    ensures var es := Entries(ts, at, padding, filler);
            && |es| == |ts|
            && forall i :: 0 <= i < |ts| ==> es[i].name == ts[i].name && es[i].dims == ts[i].dims && es[i].dtype == ts[i].dtype && es[i].len == |ts[i].data|
    decreases |ts|
  {
    hide WriteTensor, DataStart;
    if ts != [] {
      EntriesKeep(ts[1..], at + |WriteTensor(ts[0], at, padding, filler)|, padding, filler);
    }
  }

  lemma {:induction false} LastCorresponds(ts: seq<TensorData>, es: seq<Entry>, name: seq<Byte>)
    requires |es| == |ts| && forall i :: 0 <= i < |ts| ==> es[i].name == ts[i].name && es[i].dims == ts[i].dims
    ensures LastWritten(ts, name).Some? == LastNamed(es, name).Some?
    ensures LastWritten(ts, name).Some? ==> LastWritten(ts, name).value.dims == es[LastNamed(es, name).value].dims
    decreases |ts|
  {
    if ts != [] && ts[|ts| - 1].name != name {
      LastCorresponds(ts[..|ts| - 1], es[..|ts| - 1], name);
    }
  }

  /**
   A well-formed file in any of the three formats, whatever precedes it, is refused as not convertible exactly if the
   layout of its quantization has changed since its version. Otherwise it reads back as what was written, unless its last
   first-layer feed-forward tensor is missing or has fewer than two dimensions.
   */
  lemma ModelBack(prefix: seq<Byte>, f: File, ftype: FType, filler: Byte, quants: Quants, rounds: nat)
    requires ValidQuants(quants) && GoodSections(f, quants) && f.hyper.ftype == Number(ftype)
    requires |prefix + Write(f, |prefix|, filler)| < LIMIT && rounds >= |f.tensors|
    ensures var data := prefix + Write(f, |prefix|, filler);
            var es := Entries(f.tensors, TensorsAt(f, |prefix|), f.format == GGJT, filler);
            ParseModel(data, |prefix|, quants, rounds) == (
              if Outdated(f.format, f.version, ftype) then Err(NotConvertible)
              else
                match LastWritten(f.tensors, FEED_FORWARD)
                case None => Err(MissingFeedForward)
                case Some(t) =>
                  if |t.dims| < 2 then Err(TooFewDims)
                  else Ok(Parsed(Model(f.format, f.version, f.hyper, f.vocab, es, t.dims[1]), |data|)))
  {
    hide Write, ParseSections, GoodSections, Entries, TensorsAt, LastNamed, LastWritten, Outdated, Convertible;
    var data, at := prefix + Write(f, |prefix|, filler), |prefix|;
    ConvertibleExactly(f.format, f.version, ftype);
    SectionsBack(data, at, f, filler, quants, rounds);
    EntriesKeep(f.tensors, TensorsAt(f, at), f.format == GGJT, filler);
    LastCorresponds(f.tensors, Entries(f.tensors, TensorsAt(f, at), f.format == GGJT, filler), FEED_FORWARD);
  }

  /** The bytes an entry points at are the tensor's own. */
  lemma {:induction false} DataBack(data: seq<Byte>, at: nat, ts: seq<TensorData>, padding: bool, filler: Byte, quants: Quants, i: nat)
    requires ValidQuants(quants) && forall i :: 0 <= i < |ts| ==> GoodTensor(ts[i], quants)
    requires Has(data, at, WriteTensors(ts, at, padding, filler)) && i < |ts|
    ensures var es := Entries(ts, at, padding, filler);
            |es| == |ts| && es[i].len == |ts[i].data| && es[i].start >= 0 && Has(data, es[i].start, ts[i].data)
    decreases |ts|
  {
    hide GoodTensor, WriteTensor, Has, DataStart;
    var first := WriteTensor(ts[0], at, padding, filler);
    EntriesKeep(ts, at, padding, filler);
    HasBoth(data, at, first, WriteTensors(ts[1..], at + |first|, padding, filler));
    TensorBack(data, at, ts[0], padding, filler, quants);
    if i > 0 {
      DataBack(data, at + |first|, ts[1..], padding, filler, quants, i - 1);
    }
  }

  // ----- The sections tile what was read

  /** Records one after the other from `at` to `next`; only a record that runs off the data may be cut short. */
  predicate Tiles(ts: seq<Entry>, at: nat, next: int, padding: bool, size: nat)
    decreases |ts|
  {
    if ts == [] then next == at
    else
      && at < size && at + 12 <= ts[0].start && ts[0].len >= 0 && (padding ==> ts[0].start % 32 == 0)
      && (StartsAt(at + 12 + 4 * |ts[0].dims| + |ts[0].name|, ts[0].start, padding) || ts[0].start > size)
      && Tiles(ts[1..], ts[0].start + ts[0].len, next, padding, size)
  }

  predicate EntriesFit(ts: seq<Entry>, quants: Quants)
    requires ValidQuants(quants)
  {
    forall i :: 0 <= i < |ts| ==> Fits(ts[i], quants)
  }

  /** Wherever the entries read all fit, the records tile what was read. */
  lemma {:induction false} ParsedTiles(data: seq<Byte>, at: nat, padding: bool, quants: Quants, rounds: nat)
    requires ValidQuants(quants) && ParseTensors(data, at, padding, quants, rounds).Ok?
    requires EntriesFit(ParseTensors(data, at, padding, quants, rounds).value.value, quants)
    ensures var p := ParseTensors(data, at, padding, quants, rounds).value;
            Tiles(p.value, at, p.next, padding, |data|) && p.next >= |data|
    decreases rounds
  {
    hide ParseTensor, DataStart, Fits, Next;
    if at < |data| {
      TensorPlace(data, at, padding, quants);
      var t := ParseTensor(data, at, padding, quants).value;
      var all := ParseTensors(data, at, padding, quants, rounds).value.value;
      assert all[0] == t && forall i :: 0 <= i < |all| - 1 ==> all[1..][i] == all[i + 1];
      FitsAdvances(data, at, padding, quants);
      ParsedTiles(data, t.start + t.len, padding, quants, rounds - 1);
    }
  }

  /** Data ranges come in order without overlap, 32-aligned where padded, and only the last may leave the data. */
  lemma {:induction false} RangesDisjoint(ts: seq<Entry>, at: nat, next: int, padding: bool, size: nat, i: nat, j: nat)
    requires Tiles(ts, at, next, padding, size) && i <= j < |ts|
    ensures at + 12 <= ts[i].start && ts[i].len >= 0 && ts[j].len >= 0 && ts[j].start + ts[j].len <= next
    ensures i < j ==> ts[i].start + ts[i].len < size && ts[i].start + ts[i].len + 12 <= ts[j].start
    ensures padding ==> ts[i].start % 32 == 0
    decreases |ts|
  {
    hide DataStart;
    if i > 0 {
      RangesDisjoint(ts[1..], ts[0].start + ts[0].len, next, padding, size, i - 1, j - 1);
    } else {
      if |ts| > 1 {
        RangesDisjoint(ts[1..], ts[0].start + ts[0].len, next, padding, size, 0, if j == 0 then 0 else j - 1);
      }
    }
  }

  function TokenBytes(token: Token): nat {
    4 + |token.text| + if token.score.Some? then 4 else 0
  }

  function VocabBytes(vocab: seq<Token>): nat {
    if vocab == [] then 0 else TokenBytes(vocab[0]) + VocabBytes(vocab[1..])
  }

  /** The vocabulary takes exactly its tokens' bytes, unless a token text runs off the data. */
  lemma {:induction false} VocabTiles(data: seq<Byte>, at: nat, scores: bool, n: nat)
    requires ParseVocab(data, at, scores, n).Ok?
    ensures var p := ParseVocab(data, at, scores, n).value;
            |p.value| == n && p.next >= at && (p.next == at + VocabBytes(p.value) || p.next > |data|)
    decreases n
  {
    if n > 0 {
      VocabTiles(data, ParseToken(data, at, scores).value.next, scores, n - 1);
    }
  }

  /** Header, hyperparameters, vocabulary and tensors that fit follow one another without gap up to the returned offset. */
  lemma SectionsTile(data: seq<Byte>, at: nat, quants: Quants, rounds: nat)
    requires ValidQuants(quants) && ParseModel(data, at, quants, rounds).Ok?
    requires EntriesFit(ParseModel(data, at, quants, rounds).value.value.tensors, quants)
    ensures var p := ParseModel(data, at, quants, rounds).value;
            var m := p.value;
            var vocabAt := at + (if m.format == GGML then 4 else 8) + 28;
            && |m.vocab| == m.hyper.nVocab
            && p.next >= |data|
            && (Tiles(m.tensors, vocabAt + VocabBytes(m.vocab), p.next, m.format == GGJT, |data|)
                || m.tensors == [])
  {
    hide ParseHyper, ParseVocab, ParseTensors, Tiles, VocabBytes, Convertible, EntriesFit;
    var header := ParseHeader(data, at).value;
    var hyper := ParseHyper(data, at + header.size).value;
    VocabTiles(data, at + header.size + 28, header.format != GGML, hyper.nVocab);
    var vocab := ParseVocab(data, at + header.size + 28, header.format != GGML, hyper.nVocab).value;
    ParsedTiles(data, vocab.next, header.format == GGJT, quants, rounds);
    if vocab.next > |data| {
      NothingBeyond(data, vocab.next, header.format == GGJT, quants, rounds);
    }
  }

  lemma NothingBeyond(data: seq<Byte>, at: int, padding: bool, quants: Quants, rounds: nat)
    requires ValidQuants(quants) && at >= |data|
    ensures ParseTensors(data, at, padding, quants, rounds) == Ok(Parsed([], at))
  {
  }

  // ----- A record on which the loop never ends

  /** Four legal dimensions whose 4-byte elements count as -32 bytes. */
  const STALL: seq<nat> := [8, 0x3FFF_FFFF, 0x4000_0001, 1]

  lemma StallCount()
    ensures WrappedBytes(STALL, (1, 4)) == -32 && !FitsInt64(STALL, (1, 4))
  {
    assert Tensors.Prod([]) == 1;
    assert STALL[..4] == STALL && STALL[..4][..3] == STALL[..3] && STALL[..3][..2] == STALL[..2] && STALL[..2][..1] == STALL[..1] && STALL[..1][..0] == [];
    assert Tensors.Prod(STALL[..1]) == 8;
    assert Tensors.Prod(STALL[..2]) == 8 * 0x3FFF_FFFF;
    assert Tensors.Prod(STALL[..3]) == 0x7FFF_FFFF_FFFF_FFF8;
    assert Tensors.Prod(STALL) == 0x7FFF_FFFF_FFFF_FFF8;
  }

  /** A float tensor of these dimensions with a name of four bytes takes nothing: without padding it is read for ever. */
  lemma StallingRecord(data: seq<Byte>, at: nat, name: seq<Byte>, quants: Quants, rounds: nat)
    requires ValidQuants(quants) && 0 in quants && quants[0] == (1, 4) && |name| == 4 && at < 0x8000_0000_0000_0000
    requires Has(data, at, Words([4, 4, 0]) + Words(STALL) + name)
    ensures ParseTensors(data, at, false, quants, rounds) == Err(StillReading)
  {
    hide Words, ReadU32s, Slice, FitsInt64, WrappedBytes, Align32, Unpack, Between, Int64;
    var head := [4, 4, 0];
    WordsLength(head);
    WordsLength(STALL);
    HasBoth(data, at, Words(head) + Words(STALL), name);
    HasBoth(data, at, Words(head), Words(STALL));
    ReadWords(data, at, head);
    ReadWords(data, at + 12, STALL);
    UnpackAhead(data, at, 3);
    UnpackAhead(data, at + 12, 4);
    SliceAhead(data, at + 28, 4);
    StallCount();
    Int64Small(at);
    StallsForever(data, at, false, quants, rounds);
  }
}
