/** What the parser of the legacy GGML formats accepts is exactly what can be written, and some files written out. */
module GgmlExact {
  import opened Wrappers
  import opened Bytes
  import opened GgmlFormat
  import Tensors

  // ----- Numbers and names, byte by byte

  lemma {:induction false} FromLEBack(s: seq<Byte>)
    ensures FromLE(s) < Pow256(|s|) && ToLE(FromLE(s), |s|) == s
    decreases |s|
  {
    if s != [] {
      FromLEBack(s[1..]);
      var n := FromLE(s[1..]);
      assert FromLE(s) == s[0] + 256 * n && FromLE(s) % 256 == s[0] && FromLE(s) / 256 == n;
      assert [s[0]] + s[1..] == s;
    }
  }

  predicate Spells(bytes: seq<Byte>, text: string) {
    |bytes| == |text| && forall i :: 0 <= i < |text| ==> bytes[i] == text[i] as int
  }

  lemma NamesSpell()
    ensures Spells(GGUF_MAGIC, "GGUF") && Spells(LMGG, "lmgg") && Spells(FMGG, "fmgg") && Spells(TJGG, "tjgg")
    ensures Spells(FEED_FORWARD, "layers.0.feed_forward.w1.weight")
  {
  }

  /** A slice whose bounds count from the end. */
  lemma BetweenFromTheEnd(data: seq<Byte>, from: nat, to: nat)
    requires from <= to < |data|
    ensures Between(data, from - |data|, to - |data|) == data[from..to]
  {
  }

  // ----- Headers

  lemma WordAt(data: seq<Byte>, at: nat, n: nat)
    ensures ReadU32(data, at) == Some(n) <==> n < U32 && Has(data, at, ToLE(n, 4))
  {
    FourBytes();
    if at + 4 <= |data| {
      FromLEBack(data[at..at + 4]);
    }
    if n < U32 {
      FromToLE(n, 4);
    }
  }

  lemma MagicAt(data: seq<Byte>, at: nat, magic: seq<Byte>)
    requires |magic| == 4
    ensures Slice(data, at, 4) == magic <==> Has(data, at, magic)
  {
  }

  /** A header is accepted exactly if it is one that is written, of a version that exists. */
  lemma HeaderExactly(data: seq<Byte>, at: nat, format: Format, version: nat)
    ensures ParseHeader(data, at) == Ok(Header(format, version, |WriteHeader(format, version)|))
       <==> GoodHeader(format, version) && Has(data, at, WriteHeader(format, version))
  {
    hide ToLE, ReadU32, Slice, Has;
    MagicAt(data, at, GGUF_MAGIC);
    MagicAt(data, at, LMGG);
    MagicAt(data, at, FMGG);
    MagicAt(data, at, TJGG);
    WordAt(data, at + 4, version);
    HasBoth(data, at, FMGG, ToLE(version, 4));
    HasBoth(data, at, TJGG, ToLE(version, 4));
  }

  /** Accepted headers take the bytes they were written in. */
  lemma HeaderSize(data: seq<Byte>, at: nat)
    requires ParseHeader(data, at).Ok?
    ensures var h := ParseHeader(data, at).value; h.size == |WriteHeader(h.format, h.version)|
  {
  }

  /** Why a header is refused. */
  lemma HeaderRefused(data: seq<Byte>, at: nat)
    ensures ParseHeader(data, at) == Err(AlreadyGguf) <==> Has(data, at, GGUF_MAGIC)
    ensures ParseHeader(data, at) == Err(ShortData) ==> at + 8 > |data|
    ensures ParseHeader(data, at) == Err(BadVersion) ==> Has(data, at, FMGG) || Has(data, at, TJGG)
    ensures ParseHeader(data, at) == Err(BadMagic) ==> !Has(data, at, LMGG) && !Has(data, at, FMGG) && !Has(data, at, TJGG)
  {
    hide FromLE;
    MagicAt(data, at, GGUF_MAGIC);
    MagicAt(data, at, LMGG);
    MagicAt(data, at, FMGG);
    MagicAt(data, at, TJGG);
  }

  // ----- Hyperparameters

  lemma {:induction false} WordsAt(data: seq<Byte>, at: nat, ns: seq<nat>)
    requires ns != []
    ensures ReadU32s(data, at, |ns|) == Some(ns) <==> (forall i :: 0 <= i < |ns| ==> ns[i] < U32) && Has(data, at, Words(ns))
    decreases |ns|
  {
    hide ToLE, FromLE, ReadU32, Has;
    var rest := ns[1..];
    assert ns == [ns[0]] + rest;
    WordsLength(ns);
    WordAt(data, at, ns[0]);
    HasBoth(data, at, ToLE(ns[0], 4), Words(rest));
    EnoughBytes(data, at, ns);
    if rest != [] {
      WordsAt(data, at + 4, rest);
    } else {
      HasNothing(data, at + 4);
    }
  }

  lemma EnoughBytes(data: seq<Byte>, at: nat, ns: seq<nat>)
    ensures Has(data, at, Words(ns)) ==> at + 4 * |ns| <= |data|
    ensures ns != [] && at + 4 <= |data| ==> ReadU32(data, at).Some?
    ensures ns != [] && ReadU32s(data, at, |ns|).Some? ==> at + 4 * |ns| <= |data|
  {
    WordsLength(ns);
  }

  lemma HasNothing(data: seq<Byte>, at: nat)
    ensures Has(data, at, []) <==> at <= |data|
  {
  }

  /** Hyperparameters are accepted exactly if they are ones that are written. */
  lemma HyperExactly(data: seq<Byte>, at: nat, h: Hyper)
    ensures ParseHyper(data, at) == Ok(h) <==> GoodHyper(h) && Has(data, at, WriteHyper(h))
    ensures ParseHyper(data, at) == Err(ShortData) <==> at + 28 > |data|
  {
    hide Words, ReadU32s, Has;
    var ns := [h.nVocab, h.nEmbd, h.nMult, h.nHead, h.nLayer, h.nRot, h.ftype];
    WordsAt(data, at, ns);
    SevenWords(data, at, h);
    Enough(data, at, 7);
  }

  lemma SevenWords(data: seq<Byte>, at: nat, h: Hyper)
    ensures var ns := [h.nVocab, h.nEmbd, h.nMult, h.nHead, h.nLayer, h.nRot, h.ftype];
            var r := ReadU32s(data, at, 7);
            r == Some(ns) <==>
              r.Some? && h == Hyper(r.value[0], r.value[1], r.value[2], r.value[3], r.value[4], r.value[5], r.value[6])
  {
    hide ReadU32s;
    var r := ReadU32s(data, at, 7);
    if r.Some? {
      assert r.value == [r.value[0], r.value[1], r.value[2], r.value[3], r.value[4], r.value[5], r.value[6]];
    }
  }

  lemma {:induction false} Enough(data: seq<Byte>, at: nat, count: nat)
    requires count > 0
    ensures ReadU32s(data, at, count).None? <==> at + 4 * count > |data|
    decreases count
  {
    if count > 1 {
      Enough(data, at + 4, count - 1);
    }
  }

  // ----- Tokens

  /** A token whose text lies within the data is accepted exactly if it is one that is written. */
  lemma TokenExactly(data: seq<Byte>, at: nat, scores: bool, token: Token, next: nat)
    requires next <= |data|
    ensures ParseToken(data, at, scores) == Ok(Parsed(token, next))
       <==> GoodToken(token, scores) && Has(data, at, WriteToken(token)) && next == at + |WriteToken(token)|
  {
    if ParseToken(data, at, scores) == Ok(Parsed(token, next)) {
      TokenWritten(data, at, scores, token, next);
    }
    if GoodToken(token, scores) && Has(data, at, WriteToken(token)) && next == at + |WriteToken(token)| {
      TokenBack(data, at, token, scores);
    }
  }

  lemma TokenWritten(data: seq<Byte>, at: nat, scores: bool, token: Token, next: nat)
    requires next <= |data| && ParseToken(data, at, scores) == Ok(Parsed(token, next))
    ensures GoodToken(token, scores) && Has(data, at, WriteToken(token)) && next == at + |WriteToken(token)|
  {
    hide ToLE, ReadU32;
    var len := ReadU32(data, at).value;
    WordAt(data, at, len);
    var score := if token.score.Some? then token.score.value else [];
    assert |token.text| == len && Has(data, at + 4, token.text) && Has(data, at + 4 + len, score);
    hide Has;
    HasBoth(data, at, ToLE(len, 4), token.text);
    HasBoth(data, at, ToLE(len, 4) + token.text, score);
  }

  // ----- Tensor records

  /** The record of a tensor, from its header to where its data begin. */
  predicate IsRecord(data: seq<Byte>, at: nat, t: Entry, padding: bool, quants: Quants)
    requires ValidQuants(quants)
  {
    && |t.dims| <= 4 && |t.name| < 4096 && t.dtype in quants && t.dtype < U32
    && (forall i :: 0 <= i < |t.dims| ==> t.dims[i] < U32)
    && Has(data, at, Words([|t.dims|, |t.name|, t.dtype]) + Words(t.dims) + t.name)
    && StartsAt(at + 12 + 4 * |t.dims| + |t.name|, t.start, padding)
    && t.len == WrappedBytes(t.dims, quants[t.dtype])
  }

  /** A record that ends within the data is accepted exactly if it is one that is written. */
  lemma TensorExactly(data: seq<Byte>, at: nat, t: Entry, padding: bool, quants: Quants)
    requires ValidQuants(quants) && t.start <= |data|
    ensures ParseTensor(data, at, padding, quants) == Ok(t) <==> IsRecord(data, at, t, padding, quants)
  {
    if ParseTensor(data, at, padding, quants) == Ok(t) {
      RecordWritten(data, at, t, padding, quants);
    }
    if IsRecord(data, at, t, padding, quants) {
      RecordRead(data, at, t, padding, quants);
    }
  }

  lemma WordsOrNone(data: seq<Byte>, at: nat, ns: seq<nat>)
    requires at <= |data|
    ensures Unpack(Between(data, at, at + 4 * |ns|), |ns|) == Some(ns)
       <==> (forall i :: 0 <= i < |ns| ==> ns[i] < U32) && Has(data, at, Words(ns))
  {
    hide Unpack, Between, Has, Words;
    UnpackAhead(data, at, |ns|);
    if ns != [] {
      hide ReadU32s;
      WordsAt(data, at, ns);
    } else {
      NoWords(data, at);
    }
  }

  lemma NoWords(data: seq<Byte>, at: nat)
    requires at <= |data|
    ensures Has(data, at, Words([])) && ReadU32s(data, at, 0) == Some([])
  {
  }

  lemma NameThere(data: seq<Byte>, at: nat, n: nat)
    requires at + n <= |data|
    ensures |Between(data, at, at + n)| == n && Has(data, at, Between(data, at, at + n))
  {
  }

  /** What the parser goes by. */
  predicate Parts(data: seq<Byte>, at: nat, t: Entry, padding: bool, quants: Quants, nDims: nat, nameLen: nat)
    requires ValidQuants(quants)
  {
    var after := at + 12 + 4 * nDims;
    && nDims <= 4 && nameLen < 4096 && t.dtype in quants
    && Unpack(Between(data, at, at + 12), 3) == Some([nDims, nameLen, t.dtype])
    && Unpack(Between(data, at + 12, after), nDims) == Some(t.dims)
    && t.name == Between(data, after, after + nameLen)
    && t.start == DataStart(at, nDims, nameLen, padding)
    && t.len == WrappedBytes(t.dims, quants[t.dtype])
  }

  lemma HasParts(data: seq<Byte>, at: nat, t: Entry, padding: bool, quants: Quants) returns (nDims: nat, nameLen: nat)
    requires ValidQuants(quants) && ParseTensor(data, at, padding, quants) == Ok(t)
    ensures Parts(data, at, t, padding, quants, nDims, nameLen)
  {
    hide Unpack, Between, WrappedBytes, DataStart;
    var h := Unpack(Between(data, at, at + 12), 3).value;
    nDims, nameLen := h[0], h[1];
    assert h == [nDims, nameLen, h[2]];
  }

  lemma FromParts(data: seq<Byte>, at: nat, t: Entry, padding: bool, quants: Quants, nDims: nat, nameLen: nat)
    requires ValidQuants(quants) && Parts(data, at, t, padding, quants, nDims, nameLen)
    ensures ParseTensor(data, at, padding, quants) == Ok(t)
  {
    hide Unpack, Between, WrappedBytes, DataStart;
  }

  lemma RecordWritten(data: seq<Byte>, at: nat, t: Entry, padding: bool, quants: Quants)
    requires ValidQuants(quants) && t.start <= |data| && ParseTensor(data, at, padding, quants) == Ok(t)
    ensures IsRecord(data, at, t, padding, quants)
  {
    hide ParseTensor, Words, ReadU32s, WrappedBytes, DataStart, Align32, Unpack, Between, Has, StartsAt, TrueBytes;
    var nDims, nameLen := HasParts(data, at, t, padding, quants);
    TensorPlace(data, at, padding, quants);
    var h, after := [nDims, nameLen, t.dtype], at + 12 + 4 * nDims;
    DataStartIs(at, nDims, nameLen, padding);
    StartsBehind(after + nameLen, t.start, padding);
    WordsOrNone(data, at, h);
    assert h[2] < U32;
    WordsOrNone(data, at + 12, t.dims);
    NameThere(data, after, nameLen);
    WordsLength(h);
    WordsLength(t.dims);
    HasBoth(data, at, Words(h), Words(t.dims));
    HasBoth(data, at, Words(h) + Words(t.dims), t.name);
  }

  lemma StartsBehind(end: int, start: int, padding: bool)
    requires StartsAt(end, start, padding)
    ensures end <= start
  {
  }

  lemma StartUnique(at: int, nDims: nat, nameLen: nat, start: int, padding: bool)
    requires StartsAt(at + 12 + 4 * nDims + nameLen, start, padding)
    ensures start == DataStart(at, nDims, nameLen, padding)
  {
    var end := at + 12 + 4 * nDims + nameLen;
    AlignUp(end);
    if padding {
      Multiples(start, Align32(end));
    }
  }

  lemma Multiples(x: int, y: int)
    requires x % 32 == 0 && y % 32 == 0 && x - y < 32 && y - x < 32
    ensures x == y
  {
    assert x == 32 * (x / 32) && y == 32 * (y / 32);
  }

  lemma RecordThere(data: seq<Byte>, at: nat, head: seq<Byte>, dims: seq<Byte>, name: seq<Byte>)
    requires Has(data, at, head + dims + name) && |head| == 12
    ensures Has(data, at, head) && Has(data, at + 12, dims) && Has(data, at + 12 + |dims|, name)
    ensures at + 12 + |dims| + |name| <= |data|
  {
    HasBoth(data, at, head + dims, name);
    HasBoth(data, at, head, dims);
  }

  predicate WordSized(ns: seq<nat>) {
    forall i :: 0 <= i < |ns| ==> ns[i] < U32
  }

  lemma RecordPieces(data: seq<Byte>, at: nat, h: seq<nat>, dims: seq<nat>, name: seq<Byte>)
    requires |h| == 3 && WordSized(h) && WordSized(dims)
    requires Has(data, at, Words(h) + Words(dims) + name)
    ensures Unpack(Between(data, at, at + 12), 3) == Some(h)
    ensures var after := at + 12 + 4 * |dims|;
            Unpack(Between(data, at + 12, after), |dims|) == Some(dims) && Between(data, after, after + |name|) == name
  {
    hide Words, ReadU32s, Unpack, Between, Slice, Has, WordSized;
    WordsLength(h);
    WordsLength(dims);
    RecordThere(data, at, Words(h), Words(dims), name);
    WordsRead(data, at, h);
    WordsRead(data, at + 12, dims);
    NameRead(data, at + 12 + 4 * |dims|, name);
  }

  lemma WordsRead(data: seq<Byte>, at: nat, ns: seq<nat>)
    requires WordSized(ns) && at <= |data| && Has(data, at, Words(ns))
    ensures Unpack(Between(data, at, at + 4 * |ns|), |ns|) == Some(ns)
  {
    hide Words, Unpack, Between, Has;
    WordsOrNone(data, at, ns);
  }

  lemma NameRead(data: seq<Byte>, at: nat, name: seq<Byte>)
    requires Has(data, at, name)
    ensures Between(data, at, at + |name|) == name
  {
    SliceHas(data, at, name);
    SliceAhead(data, at, |name|);
  }

  lemma RecordRead(data: seq<Byte>, at: nat, t: Entry, padding: bool, quants: Quants)
    requires ValidQuants(quants) && t.start <= |data| && IsRecord(data, at, t, padding, quants)
    ensures ParseTensor(data, at, padding, quants) == Ok(t)
  {
    hide ParseTensor, Words, WrappedBytes, DataStart, Unpack, Between, StartsAt, Has;
    RecordPieces(data, at, [|t.dims|, |t.name|, t.dtype], t.dims, t.name);
    StartUnique(at, |t.dims|, |t.name|, t.start, padding);
    FromParts(data, at, t, padding, quants, |t.dims|, |t.name|);
  }

  // ----- Two small files

  /** One tensor of one float, as the feed-forward tensor of the first layer. */
  const FEED: TensorData := TensorData(FEED_FORWARD, [1, 1], 0, [0, 0, 0, 0])

  function Small(format: Format, version: nat, ftype: nat): File {
    File(format, version, Hyper(0, 1, 1, 1, 1, 1, ftype), [], [FEED])
  }

  lemma SmallIsGood(format: Format, version: nat, ftype: nat)
    requires GoodHeader(format, version) && KnownFtype(ftype)
    ensures ValidQuants(map[0 := (1, 4)]) && GoodSections(Small(format, version, ftype), map[0 := (1, 4)])
    ensures |Write(Small(format, version, ftype), 0, 0)| < LIMIT
    ensures LastWritten([FEED], FEED_FORWARD) == Some(FEED)
  {
    var f, quants := Small(format, version, ftype), map[0 := (1, 4)];
    OneFloat();
    assert GoodTensor(FEED, quants);
    SmallSize(f);
  }

  lemma OneFloat()
    ensures Tensors.Prod([1, 1]) == 1
  {
    assert [1, 1][..1] == [1] && [1][..0] == [];
    assert Tensors.Prod([1]) == 1;
  }

  lemma SmallSize(f: File)
    requires f.vocab == [] && f.tensors == [FEED] && GoodHeader(f.format, f.version)
    ensures |Write(f, 0, 0)| < LIMIT
  {
    hide Words, ToLE, DataStart;
    var at := |WriteHeader(f.format, f.version) + WriteHyper(f.hyper) + WriteVocab([])|;
    WordsLength([f.hyper.nVocab, f.hyper.nEmbd, f.hyper.nMult, f.hyper.nHead, f.hyper.nLayer, f.hyper.nRot, f.hyper.ftype]);
    DataStartIs(at, 2, 31, f.format == GGJT);
    var first := WriteTensor(FEED, at, f.format == GGJT, 0);
    assert [FEED][1..] == [] && WriteTensors([FEED], at, f.format == GGJT, 0) == first + [];
  }

  /** A half-precision file of the oldest format is read. */
  lemma ReadsHalfPrecision()
    ensures var data := Write(Small(GGML, 1, 1), 0, 0);
            var r := ParseModel(data, 0, map[0 := (1, 4)], 1);
            ValidQuants(map[0 := (1, 4)]) && r.Ok? && r.value.value.nFf == 1 && r.value.next == |data|
  {
    hide Write, ParseModel, GoodSections, LastWritten;
    SmallIsGood(GGML, 1, 1);
    assert [] + Write(Small(GGML, 1, 1), 0, 0) == Write(Small(GGML, 1, 1), 0, 0);
    assert !Outdated(GGML, 1, F16);
    ModelBack([], Small(GGML, 1, 1), F16, 0, map[0 := (1, 4)], 1);
  }

  /** A file quantized to four bits before version 2 of GGJT is not, nor is one of version 2; one of version 3 is. */
  lemma RefusesChangedLayouts()
    ensures ValidQuants(map[0 := (1, 4)])
    ensures ParseModel(Write(Small(GGJT, 1, 2), 0, 0), 0, map[0 := (1, 4)], 1) == Err(NotConvertible)
    ensures ParseModel(Write(Small(GGJT, 2, 2), 0, 0), 0, map[0 := (1, 4)], 1) == Err(NotConvertible)
    ensures ParseModel(Write(Small(GGJT, 3, 2), 0, 0), 0, map[0 := (1, 4)], 1).Ok?
  {
    hide Write, ParseModel, GoodSections, LastWritten, Small;
    forall v | v in {1, 2, 3}
      ensures ParseModel(Write(Small(GGJT, v, 2), 0, 0), 0, map[0 := (1, 4)], 1) == Err(NotConvertible) || v == 3
      ensures v == 3 ==> ParseModel(Write(Small(GGJT, v, 2), 0, 0), 0, map[0 := (1, 4)], 1).Ok?
    {
      FourBits(v);
    }
    SmallIsGood(GGJT, 1, 2);
  }

  lemma FourBits(v: nat)
    requires v in {1, 2, 3}
    ensures ValidQuants(map[0 := (1, 4)])
    ensures var r := ParseModel(Write(Small(GGJT, v, 2), 0, 0), 0, map[0 := (1, 4)], 1);
            if v == 3 then r.Ok? else r == Err(NotConvertible)
  {
    hide Write, ParseModel, GoodSections, LastWritten;
    var f := Small(GGJT, v, 2);
    SmallIsGood(GGJT, v, 2);
    assert [] + Write(f, 0, 0) == Write(f, 0, 0);
    assert ChangedAt(Q4_0, 3) && ChangedAt(Q4_0, 2);
    assert Outdated(GGJT, v, Q4_0) <==> v < 3;
    ModelBack([], f, Q4_0, 0, map[0 := (1, 4)], 1);
  }
}
