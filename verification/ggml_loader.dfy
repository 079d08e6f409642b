/**
 The loader of the legacy GGML formats: objects filled while an offset moves over the file
 (self.llama/convert_llama_ggml_to_gguf.py). Its methods meet the functions of module GgmlFormat.
 */
module GgmlLoader {
  import opened Wrappers
  import opened Bytes
  import Tensors
  import opened GgmlFormat

  class Hyperparameters {
    var nVocab: nat
    var nEmbd: nat
    var nMult: nat
    var nHead: nat
    var nLayer: nat
    var nRot: nat
    var nFf: nat
    var ftype: nat

    constructor ()
      ensures nFf == 0
    {
      nVocab, nEmbd, nMult, nHead, nLayer, nRot, nFf, ftype := 0, 0, 0, 0, 0, 0, 0, 0;
    }

    function Value(): Hyper
      reads this
    {
      Hyper(nVocab, nEmbd, nMult, nHead, nLayer, nRot, ftype)
    }

    method Load(data: seq<Byte>, offset: nat) returns (r: Result<nat, Error>)
      modifies this
      ensures nFf == old(nFf)
      ensures match ParseHyper(data, offset)
              case Err(e) => r == Err(e) && ftype == old(ftype) && (e == ShortData ==> Value() == old(Value()))
              case Ok(h) => r == Ok(28) && Value() == h
    {
      var n := ReadU32s(data, offset, 7);
      if n.None? {
        return Err(ShortData);
      }
      nVocab, nEmbd, nMult, nHead, nLayer, nRot := n.value[0], n.value[1], n.value[2], n.value[3], n.value[4], n.value[5];
      if !KnownFtype(n.value[6]) {
        return Err(BadFtype);
      }
      ftype := n.value[6];
      return Ok(28);
    }
  }

  class Vocab {
    var items: seq<Token>
    const loadScores: bool

    constructor (loadScores: bool)
      ensures items == [] && this.loadScores == loadScores
    {
      items := [];
      this.loadScores := loadScores;
    }

    method Load(data: seq<Byte>, offset: nat, nVocab: nat) returns (r: Result<nat, Error>)
      modifies this
      ensures match ParseVocab(data, offset, loadScores, nVocab)
              case Err(e) => r == Err(e)
              case Ok(p) => r.Ok? && offset + r.value == p.next && items == old(items) + p.value
    {
      hide ParseVocab, Slice, ReadU32;
      var at := offset;
      ghost var taken := [];
      NoneTaken(ParseVocab(data, at, loadScores, nVocab));
      for i := 0 to nVocab
        invariant at >= offset && items == old(items) + taken
        invariant ParseVocab(data, offset, loadScores, nVocab) == Prepend(taken, ParseVocab(data, at, loadScores, nVocab - i))
      {
        TakeToken(data, at, loadScores, nVocab - i, taken);
        var len := ReadU32(data, at);
        if len.None? {
          return Err(ShortData);
        }
        if len.value >= 4096 {
          return Err(AssertionFailed);
        }
        at := at + 4;
        var text := Slice(data, at, len.value);
        at := at + len.value;
        var score: Option<seq<Byte>> := None;
        if loadScores {
          if at + 4 > |data| {
            return Err(ShortData);
          }
          score := Some(data[at..at + 4]);
          at := at + 4;
        }
        items := items + [Token(text, score)];
        taken := taken + [Token(text, score)];
      }
      NoTokens(data, at, loadScores);
      AllTaken(taken, at);
      return Ok(at - offset);
    }
  }

  /** What a list answers of which a first part is taken and the rest still to be read. */
  function Prepend<T>(taken: seq<T>, rest: Result<Parsed<seq<T>>, Error>): Result<Parsed<seq<T>>, Error> {
    match rest
    case Err(e) => Err(e)
    case Ok(p) => Ok(Parsed(taken + p.value, p.next))
  }

  lemma NoneTaken<T>(rest: Result<Parsed<seq<T>>, Error>)
    ensures Prepend([], rest) == rest
  {
    if rest.Ok? {
      assert [] + rest.value.value == rest.value.value;
    }
  }

  lemma AllTaken<T>(taken: seq<T>, at: nat)
    ensures Prepend(taken, Ok(Parsed([], at))) == Ok(Parsed(taken, at))
  {
    assert taken + [] == taken;
  }

  lemma TakeToken(data: seq<Byte>, at: nat, scores: bool, n: nat, taken: seq<Token>)
    requires n > 0
    ensures Prepend(taken, ParseVocab(data, at, scores, n)) == (
              match ParseToken(data, at, scores)
              case Err(e) => Err(e)
              case Ok(first) => Prepend(taken + [first.value], ParseVocab(data, first.next, scores, n - 1)))
  {
    hide ParseToken;
    if ParseToken(data, at, scores).Ok? {
      var first := ParseToken(data, at, scores).value;
      var rest := ParseVocab(data, first.next, scores, n - 1);
      if rest.Ok? {
        OneTaken(taken, first.value, rest.value);
      }
    }
  }

  lemma NoTokens(data: seq<Byte>, at: nat, scores: bool)
    ensures ParseVocab(data, at, scores, 0) == Ok(Parsed([], at))
  {
  }

  class Tensor {
    var name: seq<Byte>
    var dims: seq<nat>
    var dtype: nat
    var startOffset: int
    var lenBytes: int
    const usePadding: bool

    constructor (usePadding: bool)
      ensures this.usePadding == usePadding
    {
      name, dims, dtype, startOffset, lenBytes := [], [], 0, 0, 0;
      this.usePadding := usePadding;
    }

    function Value(): Entry
      reads this
    {
      Entry(name, dims, dtype, startOffset, lenBytes)
    }

    /** The answer is how far the offset moves, in 64-bit integers: it may be nothing, or less. */
    method Load(data: seq<Byte>, offset: int, quants: Quants) returns (r: Result<int, Error>)
      requires ValidQuants(quants)
      modifies this
      ensures match ParseTensor(data, offset, usePadding, quants)
              case Err(e) => r == Err(e)
              case Ok(t) => Value() == t && r == Ok(Int64(Next(t) - offset))
    {
      hide Between, ReadU32s, Tensors.Prod, Align32, Int64;
      var at := offset;
      var h := Unpack(Between(data, at, at + 12), 3);
      if h.None? {
        return Err(ShortData);
      }
      var nDims, nameLen := h.value[0], h.value[1];
      if nDims > 4 || nameLen >= 4096 {
        return Err(AssertionFailed);
      }
      if h.value[2] !in quants {
        return Err(UnknownTensorType);
      }
      dtype := h.value[2];
      at := at + 12;
      var ds := Unpack(Between(data, at, at + 4 * nDims), nDims);
      if ds.None? {
        return Err(ShortData);
      }
      dims := ds.value;
      at := at + 4 * nDims;
      name := Between(data, at, at + nameLen);
      at := at + nameLen;
      var pad := if usePadding then Align32(at) - at else 0;
      at := at + pad;
      var nElems := Int64(Tensors.Prod(dims));
      var nBytes := Int64(nElems * quants[dtype].1) / quants[dtype].0;
      startOffset, lenBytes := at, nBytes;
      at := Int64(at + nBytes);
      return Ok(Int64(at - offset));
    }
  }

  /** Adding what a tensor answers gives the next offset. */
  lemma MovesToNext(at: int, t: Entry)
    ensures Int64(at + Int64(Next(t) - at)) == Next(t)
  {
    hide Int64;
    Int64Back(at, Next(t));
    var k := Int64Congruent(t.start + t.len);
    Int64Small(Next(t));
  }

  lemma OneTaken<T>(taken: seq<T>, first: T, rest: Parsed<seq<T>>)
    ensures taken + ([first] + rest.value) == taken + [first] + rest.value
  {
  }

  lemma ReadOneMore(data: seq<Byte>, at: int, padding: bool, quants: Quants, rounds: nat)
    requires ValidQuants(quants) && at < |data| && rounds > 0
    ensures match ParseTensor(data, at, padding, quants)
            case Err(e) => ParseTensors(data, at, padding, quants, rounds) == Err(e)
            case Ok(t) => ParseTensors(data, at, padding, quants, rounds) == Prepend([t], ParseTensors(data, Next(t), padding, quants, rounds - 1))
  {
    hide ParseTensor, ValidQuants, Next;
  }

  lemma TakeTensor(data: seq<Byte>, at: int, padding: bool, quants: Quants, rounds: nat, taken: seq<Entry>)
    requires ValidQuants(quants) && at < |data| && rounds > 0
    ensures Prepend(taken, ParseTensors(data, at, padding, quants, rounds)) == (
              match ParseTensor(data, at, padding, quants)
              case Err(e) => Err(e)
              case Ok(t) => Prepend(taken + [t], ParseTensors(data, Next(t), padding, quants, rounds - 1)))
  {
    hide ParseTensor, ParseTensors, ValidQuants, Next;
    ReadOneMore(data, at, padding, quants, rounds);
    if ParseTensor(data, at, padding, quants).Ok? {
      var t := ParseTensor(data, at, padding, quants).value;
      var rest := ParseTensors(data, Next(t), padding, quants, rounds - 1);
      if rest.Ok? {
        OneTaken(taken, t, rest.value);
      }
    }
  }

  /** A map from names to positions, as the loop fills it. */
  ghost predicate Indexes(index: map<seq<Byte>, nat>, ts: seq<Entry>) {
    forall name :: LastNamed(ts, name) == (if name in index then Some(index[name]) else None)
  }

  lemma IndexOne(index: map<seq<Byte>, nat>, ts: seq<Entry>, t: Entry)
    requires Indexes(index, ts)
    ensures Indexes(index[t.name := |ts|], ts + [t])
  {
    forall name
      ensures LastNamed(ts + [t], name) == (if name in index[t.name := |ts|] then Some(index[t.name := |ts|][name]) else None)
    {
      assert (ts + [t])[..|ts|] == ts;
    }
  }

  class GGMLModel {
    var fileFormat: Format
    var formatVersion: nat
    var hyperparameters: Hyperparameters?
    var vocab: Vocab?
    var tensors: seq<Tensor>
    var tensorMap: map<seq<Byte>, nat>

    constructor ()
      ensures hyperparameters == null && vocab == null && tensors == [] && tensorMap == map[]
    {
      fileFormat, formatVersion := GGML, 0;
      hyperparameters, vocab, tensors, tensorMap := null, null, [], map[];
    }

    method ValidateHeader(data: seq<Byte>, offset: nat) returns (r: Result<nat, Error>)
      modifies this`fileFormat, this`formatVersion
      ensures match ParseHeader(data, offset)
              case Err(e) => r == Err(e) && fileFormat == old(fileFormat) && formatVersion == old(formatVersion)
              case Ok(h) => r == Ok(h.size) && fileFormat == h.format && formatVersion == h.version
    {
      hide ReadU32, Slice;
      var magic := Slice(data, offset, 4);
      if magic == GGUF_MAGIC {
        return Err(AlreadyGguf);
      }
      if magic == LMGG {
        fileFormat, formatVersion := GGML, 1;
        return Ok(4);
      }
      var version := ReadU32(data, offset + 4);
      if version.None? {
        return Err(ShortData);
      }
      if magic == FMGG {
        if version.value != 1 {
          return Err(BadVersion);
        }
        fileFormat, formatVersion := GGMF, version.value;
        return Ok(8);
      }
      if magic == TJGG {
        if version.value < 1 || version.value > 3 {
          return Err(BadVersion);
        }
        fileFormat, formatVersion := GGJT, version.value;
        return Ok(8);
      }
      return Err(BadMagic);
    }

    /**
     Objects already in place stay as they are until the whole file is read; a missing feed-forward tensor is
     only noticed after that. A loop over the tensors that has not ended after the rounds given is given up.
     */
    method Load(data: seq<Byte>, offset: nat, quants: Quants, rounds: nat) returns (r: Result<int, Error>)
      requires ValidQuants(quants)
      modifies this
      ensures match ParseModel(data, offset, quants, rounds)
              case Err(e) => r == Err(e)
              case Ok(p) => r == Ok(p.next) && Holds(p.value)
      ensures match ParseSections(data, offset, quants, rounds)
              case Err(_) => hyperparameters == old(hyperparameters) && vocab == old(vocab)
                             && tensors == old(tensors) && tensorMap == old(tensorMap)
              case Ok(p) => Holds(p.value.(nFf := match FeedForwardSize(p.value.tensors) case Err(_) => 0 case Ok(n) => n))
    {
      hide ParseSections, LastNamed, ValidQuants, Indexes, Hold;
      var size, hp, v, ts, index := ReadSections(data, offset, quants, rounds);
      if size.Err? {
        return Err(size.error);
      }
      hyperparameters, vocab, tensors, tensorMap := hp, v, ts, index;
      ghost var m := ParseSections(data, offset, quants, rounds).value.value;
      var done := SetFeedForward(m.tensors);
      if done.Err? {
        return Err(done.error);
      }
      return Ok(size.value);
    }

    /** The part of the load that fills new objects. */
    method ReadSections(data: seq<Byte>, offset: nat, quants: Quants, rounds: nat)
      returns (r: Result<int, Error>, hp: Hyperparameters?, v: Vocab?, ts: seq<Tensor>, index: map<seq<Byte>, nat>)
      requires ValidQuants(quants)
      modifies this`fileFormat, this`formatVersion
      ensures match ParseSections(data, offset, quants, rounds)
              case Err(e) => r == Err(e)
              case Ok(p) =>
                && r == Ok(p.next) && fileFormat == p.value.format && formatVersion == p.value.version
                && hp != null && fresh(hp) && hp.Value() == p.value.hyper && hp.nFf == 0
                && v != null && fresh(v) && v.items == p.value.vocab
                && Hold(ts, p.value.tensors) && Indexes(index, p.value.tensors)
    {
      hide ParseHeader, ParseHyper, ParseVocab, ParseTensors, ValidQuants, Indexes, Hold, Convertible;
      hp, v, ts, index := null, null, [], map[];
      var at := offset;
      var size := ValidateHeader(data, at);
      if size.Err? {
        return Err(size.error), hp, v, ts, index;
      }
      at := at + size.value;
      hp := new Hyperparameters();
      size := hp.Load(data, at);
      if size.Err? {
        return Err(size.error), hp, v, ts, index;
      }
      at := at + size.value;
      if !Convertible(fileFormat, formatVersion, hp.ftype) {
        return Err(NotConvertible), hp, v, ts, index;
      }
      v := new Vocab(fileFormat != GGML);
      size := v.Load(data, at, hp.nVocab);
      if size.Err? {
        return Err(size.error), hp, v, ts, index;
      }
      at := at + size.value;
      r, ts, index := LoadTensors(data, at, fileFormat == GGJT, quants, rounds);
    }

    /** The second dimension of the last tensor of the name, found through the map. */
    method SetFeedForward(ghost es: seq<Entry>) returns (r: Result<(), Error>)
      requires hyperparameters != null && Hold(tensors, es) && Indexes(tensorMap, es)
      modifies hyperparameters`nFf
      ensures match FeedForwardSize(es)
              case Err(e) => r == Err(e) && hyperparameters.nFf == old(hyperparameters.nFf)
              case Ok(n) => r == Ok(()) && hyperparameters.nFf == n
    {
      assert LastNamed(es, FEED_FORWARD) == (if FEED_FORWARD in tensorMap then Some(tensorMap[FEED_FORWARD]) else None);
      if FEED_FORWARD !in tensorMap {
        return Err(MissingFeedForward);
      }
      var tensor := tensors[tensorMap[FEED_FORWARD]];
      assert tensor.Value() == es[tensorMap[FEED_FORWARD]];
      if |tensor.dims| < 2 {
        return Err(TooFewDims);
      }
      hyperparameters.nFf := tensor.dims[1];
      return Ok(());
    }

    /** The objects loaded hold these values. */
    ghost predicate Holds(m: Model)
      reads this, hyperparameters, vocab, tensors
    {
      && hyperparameters != null && vocab != null
      && fileFormat == m.format && formatVersion == m.version
      && hyperparameters.Value() == m.hyper && hyperparameters.nFf == m.nFf
      && vocab.items == m.vocab
      && Hold(tensors, m.tensors)
      && Indexes(tensorMap, m.tensors)
    }
  }

  ghost predicate Hold(ts: seq<Tensor>, es: seq<Entry>)
    reads ts
  {
    |ts| == |es| && forall i :: 0 <= i < |ts| ==> ts[i].Value() == es[i]
  }

  /** Read tensors up to the end of the data, for at most so many rounds. */
  method LoadTensors(data: seq<Byte>, offset: int, padding: bool, quants: Quants, rounds: nat)
    returns (r: Result<int, Error>, tensors: seq<Tensor>, tensorMap: map<seq<Byte>, nat>)
    requires ValidQuants(quants)
    ensures match ParseTensors(data, offset, padding, quants, rounds)
            case Err(e) => r == Err(e)
            case Ok(p) =>
              && r == Ok(p.next)
              && (forall t <- tensors :: fresh(t))
              && Hold(tensors, p.value) && Indexes(tensorMap, p.value)
  {
    hide ParseTensors, ParseTensor, LastNamed, Indexes, Next, Int64;
    var at, left := offset, rounds;
    tensors, tensorMap := [], map[];
    ghost var taken := [];
    EmptyIndex();
    NoneTaken(ParseTensors(data, at, padding, quants, left));
    while at < |data|
      invariant forall t <- tensors :: fresh(t)
      invariant Hold(tensors, taken) && Indexes(tensorMap, taken)
      invariant ParseTensors(data, offset, padding, quants, rounds) == Prepend(taken, ParseTensors(data, at, padding, quants, left))
      decreases left
    {
      if left == 0 {
        OutOfRounds(data, at, padding, quants);
        return Err(StillReading), tensors, tensorMap;
      }
      TakeTensor(data, at, padding, quants, left, taken);
      left := left - 1;
      var tensor := new Tensor(padding);
      var size := tensor.Load(data, at, quants);
      if size.Err? {
        return size, tensors, tensorMap;
      }
      MovesToNext(at, tensor.Value());
      at := Int64(at + size.value);
      IndexOne(tensorMap, taken, tensor.Value());
      tensorMap := tensorMap[tensor.name := |tensors|];
      tensors := tensors + [tensor];
      taken := taken + [tensor.Value()];
    }
    NothingBeyond(data, at, padding, quants, left);
    AllTaken(taken, at);
    return Ok(at), tensors, tensorMap;
  }

  lemma OutOfRounds(data: seq<Byte>, at: int, padding: bool, quants: Quants)
    requires ValidQuants(quants) && at < |data|
    ensures ParseTensors(data, at, padding, quants, 0) == Err(StillReading)
  {
  }

  lemma EmptyIndex()
    ensures Indexes(map[], [])
  {
  }
}
