/**
 Base64 with the standard and the URL-safe alphabet (self.llama/common/base64.hpp;
 sections 4 and 5 of RFC 4648). Characters are given by their codes.
 */
module Base64 {
  import opened Wrappers
  import opened Bytes

  type Sextet = v: nat | v < 64

  datatype Alphabet = Auto | Standard | UrlFilenameSafe

  datatype Behavior = Moderate | Loose

  datatype Error = InvalidCharacter

  const PAD: Byte := '=' as int

  // ----- The two alphabets

  /** The character for a value; encoding with Auto uses the standard alphabet. */
  function Symbol(alphabet: Alphabet, v: Sextet): Byte {
    if v < 26 then 'A' as int + v
    else if v < 52 then 'a' as int + (v - 26)
    else if v < 62 then '0' as int + (v - 52)
    else if v == 62 then (if alphabet == UrlFilenameSafe then '-' as int else '+' as int)
    else (if alphabet == UrlFilenameSafe then '_' as int else '/' as int)
  }

  datatype Lookup = Value(v: Sextet, alphabet: Alphabet) | Invalid

  /** The value of a character, and the alphabet from then on. */
  function Base64Value(alphabet: Alphabet, c: Byte): Lookup {
    if 'A' as int <= c <= 'Z' as int then Value(c - 'A' as int, alphabet)
    else if 'a' as int <= c <= 'z' as int then Value(c - 'a' as int + 26, alphabet)
    else if '0' as int <= c <= '9' as int then Value(c - '0' as int + 52, alphabet)
    else
      match alphabet
      case Standard =>
        if c == '+' as int then Value(62, alphabet)
        else if c == '/' as int then Value(63, alphabet)
        else Invalid
      case UrlFilenameSafe =>
        if c == '-' as int then Value(62, alphabet)
        else if c == '_' as int then Value(63, alphabet)
        else Invalid
      case Auto =>
        if c == '+' as int then Value(62, Standard)
        else if c == '/' as int then Value(63, Standard)
        else if c == '-' as int then Value(62, UrlFilenameSafe)
        else if c == '_' as int then Value(63, UrlFilenameSafe)
        else Invalid
  }

  /** Text written in alphabet a can be read when told a, or when left to find out. */
  predicate Reads(reader: Alphabet, writer: Alphabet) {
    reader == Auto || reader == writer || (reader == Standard && writer == Auto)
  }

  lemma SymbolValue(reader: Alphabet, writer: Alphabet, v: Sextet)
    requires Reads(reader, writer)
    ensures Symbol(writer, v) != PAD
    ensures Base64Value(reader, Symbol(writer, v)).Value?
    ensures Base64Value(reader, Symbol(writer, v)).v == v
    ensures Reads(Base64Value(reader, Symbol(writer, v)).alphabet, writer)
  {
  }

  lemma ValueSymbol(alphabet: Alphabet, c: Byte)
    requires alphabet != Auto && Base64Value(alphabet, c).Value?
    ensures Symbol(alphabet, Base64Value(alphabet, c).v) == c
    ensures Base64Value(alphabet, c).alphabet == alphabet
  {
  }

  // ----- Bits

  /** Bitwise or. */
  function Or(x: nat, y: nat): nat {
    if x == 0 then y
    else (if x % 2 == 1 || y % 2 == 1 then 1 else 0) + 2 * Or(x / 2, y / 2)
  }

  function Pow2(k: nat): (p: nat)
    ensures p > 0
  {
    if k == 0 then 1 else 2 * Pow2(k - 1)
  }

  /** Fields that do not overlap are simply added. */
  lemma {:induction false} OrDisjoint(x: nat, y: nat, k: nat)
    requires y < Pow2(k)
    ensures Or(x * Pow2(k), y) == x * Pow2(k) + y
    decreases k
  {
    if k == 0 {
      OrZero(x);
    } else {
      var p := x * Pow2(k - 1);
      assert x * Pow2(k) == 2 * p;
      OrDisjoint(x, y / 2, k - 1);
    }
  }

  lemma OrZero(x: nat)
    ensures Or(x, 0) == x
  {
  }

  // ----- Three bytes as four values

  function Value0(a: Byte): Sextet { a / 4 }
  function Value1(a: Byte, b: Byte): Sextet { (a % 4) * 16 + b / 16 }
  function Value2(b: Byte, c: Byte): Sextet { (b % 16) * 4 + c / 64 }
  function Value3(c: Byte): Sextet { c % 64 }

  function Byte0(w: Sextet, x: Sextet): Byte { w * 4 + x / 16 }
  function Byte1(x: Sextet, y: Sextet): Byte { (x % 16) * 16 + y / 4 }
  function Byte2(y: Sextet, z: Sextet): Byte { (y % 4) * 64 + z }

  lemma BytesBack(a: Byte, b: Byte, c: Byte)
    ensures Byte0(Value0(a), Value1(a, b)) == a
    ensures Byte1(Value1(a, b), Value2(b, c)) == b
    ensures Byte2(Value2(b, c), Value3(c)) == c
  {
  }

  lemma ValuesBack(w: Sextet, x: Sextet, y: Sextet, z: Sextet)
    ensures Value0(Byte0(w, x)) == w
    ensures Value1(Byte0(w, x), Byte1(x, y)) == x
    ensures Value2(Byte1(x, y), Byte2(y, z)) == y
    ensures Value3(Byte2(y, z)) == z
  {
  }

  /** The bits of the bytes six at a time, the last value filled up with zeros. */
  function Pack(s: seq<Byte>): seq<Sextet> {
    if |s| == 0 then []
    else if |s| == 1 then [Value0(s[0]), Value1(s[0], 0)]
    else if |s| == 2 then [Value0(s[0]), Value1(s[0], s[1]), Value2(s[1], 0)]
    else [Value0(s[0]), Value1(s[0], s[1]), Value2(s[1], s[2]), Value3(s[2])] + Pack(s[3..])
  }

  /** The bits of the values eight at a time, a rest of fewer than eight dropped. */
  function Unpack(v: seq<Sextet>): seq<Byte> {
    if |v| < 2 then []
    else if |v| == 2 then [Byte0(v[0], v[1])]
    else if |v| == 3 then [Byte0(v[0], v[1]), Byte1(v[1], v[2])]
    else [Byte0(v[0], v[1]), Byte1(v[1], v[2]), Byte2(v[2], v[3])] + Unpack(v[4..])
  }

  lemma PackGroup(s: seq<Byte>, from: nat)
    requires from + 3 <= |s|
    ensures Pack(s[from..])
         == [Value0(s[from]), Value1(s[from], s[from + 1]), Value2(s[from + 1], s[from + 2]), Value3(s[from + 2])]
            + Pack(s[from + 3..])
  {
    hide Value0, Value1, Value2, Value3;
    assert s[from..][3..] == s[from + 3..];
  }

  function PackedSize(n: nat): nat {
    if n == 0 then 0 else if n < 3 then n + 1 else 4 + PackedSize(n - 3)
  }

  lemma {:induction false} PackLength(s: seq<Byte>)
    ensures |Pack(s)| == PackedSize(|s|)
  {
    hide Value0, Value1, Value2, Value3;
    if |s| >= 3 {
      PackLength(s[3..]);
    }
  }

  lemma {:induction false} UnpackLength(v: seq<Sextet>)
    ensures |Unpack(v)| == |v| * 3 / 4
  {
    hide Byte0, Byte1, Byte2;
    if |v| >= 4 {
      UnpackLength(v[4..]);
    }
  }

  lemma {:induction false} UnpackPack(s: seq<Byte>)
    ensures Unpack(Pack(s)) == s
  {
    hide Value0, Value1, Value2, Value3, Byte0, Byte1, Byte2;
    if |s| == 1 {
      BytesBack(s[0], 0, 0);
    } else if |s| == 2 {
      BytesBack(s[0], s[1], 0);
    } else if |s| >= 3 {
      BytesBack(s[0], s[1], s[2]);
      UnpackPack(s[3..]);
      assert Pack(s)[4..] == Pack(s[3..]);
      assert s == [s[0], s[1], s[2]] + s[3..];
    }
  }

  /** Values whose unused bits are zero: none, four or two of the last one, and never a single value left. */
  predicate ZeroRest(v: seq<Sextet>) {
    && |v| % 4 != 1
    && (|v| % 4 == 2 ==> v[|v| - 1] % 16 == 0)
    && (|v| % 4 == 3 ==> v[|v| - 1] % 4 == 0)
  }

  lemma ZeroRestTail(v: seq<Sextet>)
    requires |v| >= 4
    ensures ZeroRest(v[4..]) <==> ZeroRest(v)
  {
  }

  lemma LastValuesBack(w: Sextet, x: Sextet, y: Sextet)
    ensures x % 16 == 0 ==> Value1(Byte0(w, x), 0) == x
    ensures y % 4 == 0 ==> Value2(Byte1(x, y), 0) == y
  {
  }

  lemma {:induction false} PackUnpack(v: seq<Sextet>)
    requires ZeroRest(v)
    ensures Pack(Unpack(v)) == v
  {
    hide Value0, Value1, Value2, Value3, Byte0, Byte1, Byte2;
    if |v| == 2 {
      ValuesBack(v[0], v[1], 0, 0);
      LastValuesBack(v[0], v[1], 0);
    } else if |v| == 3 {
      ValuesBack(v[0], v[1], v[2], 0);
      LastValuesBack(v[0], v[1], v[2]);
    } else if |v| >= 4 {
      ValuesBack(v[0], v[1], v[2], v[3]);
      ZeroRestTail(v);
      PackUnpack(v[4..]);
      assert Unpack(v)[3..] == Unpack(v[4..]);
      assert v == [v[0], v[1], v[2], v[3]] + v[4..];
    }
  }

  lemma {:induction false} PackZeroRest(s: seq<Byte>)
    ensures ZeroRest(Pack(s))
  {
    if |s| >= 3 {
      PackZeroRest(s[3..]);
      ZeroRestTail(Pack(s));
      assert Pack(s)[4..] == Pack(s[3..]);
    }
  }

  /** The byte that part completes after last, given how many values of the group came before. */
  function NextByte(last: Sextet, part: Sextet, phase: nat): Byte
    requires 0 < phase < 4
  {
    if phase == 1 then Byte0(last, part)
    else if phase == 2 then Byte1(last, part)
    else Byte2(last, part)
  }

  /** What one more value adds. */
  function Completed(v: seq<Sextet>, x: Sextet): seq<Byte> {
    if |v| % 4 == 0 then [] else [NextByte(v[|v| - 1], x, |v| % 4)]
  }

  lemma CompletedTail(v: seq<Sextet>, x: Sextet)
    requires |v| >= 4
    ensures Completed(v[4..], x) == Completed(v, x)
  {
    hide NextByte;
    var n := |v|;
    assert (n - 4) % 4 == n % 4;
  }

  lemma UnpackGroup(v: seq<Sextet>)
    requires |v| >= 4
    ensures Unpack(v) == [Byte0(v[0], v[1]), Byte1(v[1], v[2]), Byte2(v[2], v[3])] + Unpack(v[4..])
  {
  }

  lemma CompletedShort(v: seq<Sextet>, x: Sextet)
    requires |v| < 4
    ensures |v| == 0 ==> Completed(v, x) == []
    ensures |v| == 1 ==> Completed(v, x) == [Byte0(v[0], x)]
    ensures |v| == 2 ==> Completed(v, x) == [Byte1(v[1], x)]
    ensures |v| == 3 ==> Completed(v, x) == [Byte2(v[2], x)]
  {
    hide Byte0, Byte1, Byte2;
  }

  lemma UnpackSmall(v: seq<Sextet>, x: Sextet)
    requires |v| < 4
    ensures Unpack(v + [x]) == Unpack(v) + Completed(v, x)
  {
    hide Byte0, Byte1, Byte2, Unpack, Completed;
    UnpackShort(v);
    CompletedShort(v, x);
    if |v| == 3 {
      assert v + [x] == [v[0], v[1], v[2], x];
      UnpackFour(v[0], v[1], v[2], x);
    } else {
      UnpackShort(v + [x]);
    }
  }

  lemma UnpackShort(v: seq<Sextet>)
    requires |v| < 4
    ensures |v| < 2 ==> Unpack(v) == []
    ensures |v| == 2 ==> Unpack(v) == [Byte0(v[0], v[1])]
    ensures |v| == 3 ==> Unpack(v) == [Byte0(v[0], v[1]), Byte1(v[1], v[2])]
  {
  }

  lemma UnpackFour(w: Sextet, x: Sextet, y: Sextet, z: Sextet)
    ensures Unpack([w, x, y, z]) == [Byte0(w, x), Byte1(x, y), Byte2(y, z)]
  {
    assert [w, x, y, z][4..] == [];
  }

  lemma {:induction false} UnpackSnoc(v: seq<Sextet>, x: Sextet)
    ensures Unpack(v + [x]) == Unpack(v) + Completed(v, x)
  {
    hide Byte0, Byte1, Byte2, Completed, Unpack;
    if |v| < 4 {
      UnpackSmall(v, x);
    } else {
      UnpackSnoc(v[4..], x);
      assert (v + [x])[4..] == v[4..] + [x];
      UnpackGroup(v);
      UnpackGroup(v + [x]);
      CompletedTail(v, x);
    }
  }

  // ----- Encoding

  function Symbols(alphabet: Alphabet, v: seq<Sextet>): (t: seq<Byte>)
    ensures |t| == |v|
  {
    seq(|v|, i requires 0 <= i < |v| => Symbol(alphabet, v[i]))
  }

  function Pads(n: nat): (t: seq<Byte>)
    ensures |t| == n && forall i :: 0 <= i < n ==> t[i] == PAD
  {
    seq(n, _ => PAD)
  }

  /** How many characters of padding the text for n bytes takes. */
  function Padding(n: nat): (p: nat)
    ensures p <= 2
  {
    2 - (n + 2) % 3
  }

  /** The text for a string of bytes, padded to a multiple of four characters. */
  function Encoding(s: seq<Byte>, alphabet: Alphabet): seq<Byte> {
    Symbols(alphabet, Pack(s)) + Pads(Padding(|s|))
  }

  function RequiredEncodeSize(size: nat): nat {
    (size / 3 + (if size % 3 != 0 then 1 else 0)) * 4
  }

  function MaxDecodeSize(size: nat): nat {
    (size / 4 + (if size % 4 != 0 then 1 else 0)) * 3
  }

  lemma EncodeSizeRepeats(n: nat)
    requires n >= 3
    ensures RequiredEncodeSize(n) == 4 + RequiredEncodeSize(n - 3)
  {
  }

  lemma PaddingRepeats(n: nat)
    requires n >= 3
    ensures Padding(n) == Padding(n - 3)
  {
  }

  lemma {:induction false} PaddedSize(n: nat)
    ensures PackedSize(n) + Padding(n) == RequiredEncodeSize(n)
  {
    if n >= 3 {
      PaddedSize(n - 3);
      EncodeSizeRepeats(n);
      PaddingRepeats(n);
    }
  }

  /** The text is as long as required_encode_size says. */
  lemma EncodingLength(s: seq<Byte>, alphabet: Alphabet)
    ensures |Encoding(s, alphabet)| == RequiredEncodeSize(|s|)
  {
    PackLength(s);
    PaddedSize(|s|);
  }

  /** A field shifted left and the next bits put in, as the encoder and the decoder compute them. */
  lemma {:induction false} Shifted(x: nat, y: nat, k: nat)
    requires (k == 2 && y < 4) || (k == 4 && y < 16) || (k == 6 && y < 64)
    ensures Pow2(k) == if k == 2 then 4 else if k == 4 then 16 else 64
    ensures Or(x * Pow2(k), y) == x * Pow2(k) + y
  {
    assert Pow2(1) == 2 && Pow2(2) == 4 && Pow2(3) == 8 && Pow2(4) == 16 && Pow2(5) == 32 && Pow2(6) == 64;
    OrDisjoint(x, y, k);
  }

  lemma SymbolsAppend(alphabet: Alphabet, v: seq<Sextet>, w: seq<Sextet>)
    ensures Symbols(alphabet, v + w) == Symbols(alphabet, v) + Symbols(alphabet, w)
  {
  }

  lemma EncodingGroup(s: seq<Byte>, from: nat, alphabet: Alphabet)
    requires from + 3 <= |s|
    ensures Encoding(s[from..], alphabet)
         == [Symbol(alphabet, Value0(s[from])), Symbol(alphabet, Value1(s[from], s[from + 1])),
             Symbol(alphabet, Value2(s[from + 1], s[from + 2])), Symbol(alphabet, Value3(s[from + 2]))]
            + Encoding(s[from + 3..], alphabet)
  {
    hide Value0, Value1, Value2, Value3, Symbol, Pack, Padding, Pads;
    var v := [Value0(s[from]), Value1(s[from], s[from + 1]), Value2(s[from + 1], s[from + 2]), Value3(s[from + 2])];
    PackGroup(s, from);
    SymbolsAppend(alphabet, v, Pack(s[from + 3..]));
    PaddingRepeats(|s[from..]|);
  }

  lemma EncodingEnd(s: seq<Byte>, from: nat, alphabet: Alphabet)
    requires from <= |s| < from + 3
    ensures Encoding(s[from..], alphabet)
         == if |s| == from then []
            else if |s| == from + 1 then
              [Symbol(alphabet, Value0(s[from])), Symbol(alphabet, Value1(s[from], 0)), PAD, PAD]
            else [Symbol(alphabet, Value0(s[from])), Symbol(alphabet, Value1(s[from], s[from + 1])),
                  Symbol(alphabet, Value2(s[from + 1], 0)), PAD]
  {
    hide Value0, Value1, Value2, Value3, Symbol;
  }

  method Encode(s: seq<Byte>, alphabet: Alphabet) returns (out: seq<Byte>)
    ensures out == Encoding(s, alphabet)
  {
    hide Pow2, Or, Encoding, Symbol;
    out := [];
    var pos := 0;
    assert s[0..] == s;
    while pos != |s|
      invariant pos <= |s|
      invariant out + Encoding(s[pos..], alphabet) == Encoding(s, alphabet)
      decreases |s| - pos
    {
      if pos + 3 <= |s| {
        EncodingGroup(s, pos, alphabet);
      } else {
        EncodingEnd(s, pos, alphabet);
      }
      var i0 := s[pos];
      pos := pos + 1;
      out := out + [Symbol(alphabet, i0 / 4)];
      var i1, i2 := 0, 0;
      if pos != |s| {
        i1 := s[pos];
        pos := pos + 1;
        Shifted(i0 % 4, i1 / 16, 4);
        out := out + [Symbol(alphabet, Or((i0 % 4) * Pow2(4), i1 / 16))];
      } else {
        Shifted(i0 % 4, 0, 4);
        out := out + [Symbol(alphabet, (i0 % 4) * Pow2(4))];
        out := out + [PAD];
        out := out + [PAD];
        break;
      }
      if pos != |s| {
        i2 := s[pos];
        pos := pos + 1;
        Shifted(i1 % 16, i2 / 64, 2);
        out := out + [Symbol(alphabet, Or((i1 % 16) * Pow2(2), i2 / 64))];
      } else {
        Shifted(i1 % 16, 0, 2);
        out := out + [Symbol(alphabet, (i1 % 16) * Pow2(2))];
        out := out + [PAD];
        break;
      }
      out := out + [Symbol(alphabet, i2 % 64)];
    }
    EncodingEnd(s, |s|, alphabet);
  }

  // ----- Decoding

  /** The values of a text up to the first padding character, the alphabet settling on the way. */
  function Values(t: seq<Byte>, alphabet: Alphabet): Result<seq<Sextet>, Error> {
    if t == [] || t[0] == PAD then Ok([])
    else
      match Base64Value(alphabet, t[0])
      case Invalid => Err(InvalidCharacter)
      case Value(v, a) =>
        match Values(t[1..], a)
        case Err(e) => Err(e)
        case Ok(vs) => Ok([v] + vs)
  }

  /** What follows the first padding character. */
  function AfterPad(t: seq<Byte>): seq<Byte> {
    if t == [] then [] else if t[0] == PAD then t[1..] else AfterPad(t[1..])
  }

  predicate AllPad(t: seq<Byte>) {
    forall i :: 0 <= i < |t| ==> t[i] == PAD
  }

  function Decoding(t: seq<Byte>, alphabet: Alphabet, behavior: Behavior): Result<seq<Byte>, Error> {
    match Values(t, alphabet)
    case Err(e) => Err(e)
    case Ok(vs) => if behavior == Loose || AllPad(AfterPad(t)) then Ok(Unpack(vs)) else Err(InvalidCharacter)
  }

  /** The number of bits held over, for a number of values read. */
  function BitsHeld(n: nat): nat {
    if n % 4 == 0 then 0 else if n % 4 == 1 then 6 else if n % 4 == 2 then 4 else 2
  }

  /** The byte as the decoder computes it from the last value, the bits held over and the next value. */
  function ShiftedByte(last: Sextet, part: Sextet, bits: nat): Byte
    requires bits == 2 || bits == 4 || bits == 6
  {
    Or(last * Pow2(8 - bits), part / Pow2(bits - 2)) % 256
  }

  lemma Remainder(q: nat, r: nat)
    requires r < 256
    ensures (q * 256 + r) % 256 == r
  {
  }

  /** A value is its upper part and its lower k values. */
  lemma Parted(last: Sextet)
    ensures last == (last / 16) * 16 + last % 16 && last == (last / 4) * 4 + last % 4
    ensures last % 16 <= 15 && last % 4 <= 3
  {
  }

  lemma Truncated(last: Sextet, part: Sextet)
    ensures (last * 4 + part / 16) % 256 == Byte0(last, part)
    ensures (last * 16 + part / 4) % 256 == Byte1(last, part)
    ensures (last * 64 + part) % 256 == Byte2(last, part)
  {
    Parted(last);
    var u, v, x, y := last / 16, last / 4, last % 16, last % 4;
    assert part / 16 <= 3 && part / 4 <= 15;
    Remainder(0, Byte0(last, part));
    Remainder(u, x * 16 + part / 4);
    Remainder(v, y * 64 + part);
  }

  lemma ShiftedByteIsNext(last: Sextet, part: Sextet, phase: nat)
    requires 0 < phase < 4
    ensures ShiftedByte(last, part, BitsHeld(phase)) == NextByte(last, part, phase)
  {
    hide Or, Pow2, Byte0, Byte1, Byte2;
    Truncated(last, part);
    LowPowers();
    if phase == 1 {
      Shifted(last, part / 16, 2);
    } else if phase == 2 {
      Shifted(last, part / 4, 4);
    } else {
      Shifted(last, part, 6);
    }
  }

  lemma LowPowers()
    ensures Pow2(0) == 1 && Pow2(2) == 4 && Pow2(4) == 16
  {
    assert Pow2(1) == 2 && Pow2(3) == 8;
  }

  /** whole is the values vs followed by the outcome of the rest. */
  predicate Continues(whole: Result<seq<Sextet>, Error>, vs: seq<Sextet>, rest: Result<seq<Sextet>, Error>) {
    match rest
    case Err(e) => whole == Err(e)
    case Ok(ws) => whole == Ok(vs + ws)
  }

  /** After pos characters without padding: the values so far, and what is still to come. */
  predicate ReadSoFar(t: seq<Byte>, initial: Alphabet, pos: nat, vs: seq<Sextet>, alphabet: Alphabet) {
    && pos <= |t| && |vs| == pos
    && Continues(Values(t, initial), vs, Values(t[pos..], alphabet))
    && AfterPad(t) == AfterPad(t[pos..])
  }

  lemma NothingRead(t: seq<Byte>, initial: Alphabet)
    ensures ReadSoFar(t, initial, 0, [], initial)
  {
    assert t[0..] == t;
    match Values(t, initial)
    case Err(_) =>
    case Ok(ws) => assert [] + ws == ws;
  }

  lemma ReadOne(t: seq<Byte>, initial: Alphabet, pos: nat, vs: seq<Sextet>, alphabet: Alphabet)
    requires ReadSoFar(t, initial, pos, vs, alphabet) && pos < |t| && t[pos] != PAD
    ensures match Base64Value(alphabet, t[pos])
            case Invalid => Values(t, initial) == Err(InvalidCharacter)
            case Value(v, a) => ReadSoFar(t, initial, pos + 1, vs + [v], a)
  {
    var rest := t[pos..];
    assert rest[1..] == t[pos + 1..];
    match Base64Value(alphabet, t[pos])
    case Invalid =>
    case Value(v, a) =>
      match Values(rest[1..], a)
      case Err(_) =>
      case Ok(ws) => assert vs + ([v] + ws) == (vs + [v]) + ws;
  }

  /** At the end of the text, or at padding, all values have been read. */
  lemma AllRead(t: seq<Byte>, initial: Alphabet, pos: nat, vs: seq<Sextet>, alphabet: Alphabet)
    requires ReadSoFar(t, initial, pos, vs, alphabet)
    requires pos < |t| ==> t[pos] == PAD
    ensures Values(t, initial) == Ok(vs)
    ensures AfterPad(t) == if pos == |t| then [] else t[pos + 1..]
  {
    var rest := t[pos..];
    assert vs + [] == vs;
    if pos < |t| {
      assert rest[1..] == t[pos + 1..];
    }
  }

  lemma HeldNext(n: nat)
    ensures BitsHeld(n) == BitsHeld(n % 4)
    ensures BitsHeld(n + 1) == if n % 4 == 0 then 6 else BitsHeld(n) - 2
    ensures n % 4 == 0 <==> BitsHeld(n) == 0
    ensures n % 4 != 0 ==> BitsHeld(n) == 2 || BitsHeld(n) == 4 || BitsHeld(n) == 6
  {
  }

  /** What one more value does to the bits held over and to the output. */
  lemma OneMore(vs: seq<Sextet>, part: Sextet, last: Sextet, bits: nat)
    requires bits == BitsHeld(|vs|) && (vs != [] ==> last == vs[|vs| - 1])
    ensures bits + 6 >= 8 ==> (bits == 2 || bits == 4 || bits == 6) && BitsHeld(|vs| + 1) == bits - 2
                              && Unpack(vs + [part]) == Unpack(vs) + [ShiftedByte(last, part, bits)]
    ensures bits + 6 < 8 ==> BitsHeld(|vs| + 1) == bits + 6 && Unpack(vs + [part]) == Unpack(vs)
  {
    hide ShiftedByte, NextByte, Unpack, BitsHeld;
    HeldNext(|vs|);
    UnpackSnoc(vs, part);
    if |vs| % 4 != 0 {
      ShiftedByteIsNext(last, part, |vs| % 4);
    }
  }

  method Decode(t: seq<Byte>, initial: Alphabet, behavior: Behavior) returns (r: Result<seq<Byte>, Error>)
    ensures r == Decoding(t, initial, behavior)
  {
    hide Base64Value, ShiftedByte, Unpack, Values, AfterPad, BitsHeld, ReadSoFar;
    var out: seq<Byte> := [];
    var alphabet, last: Sextet, bits: nat := initial, 0, 0;
    var pos := 0;
    ghost var vs: seq<Sextet> := [];
    UnpackShort([]);
    NothingHeld();
    NothingRead(t, initial);
    while pos != |t|
      invariant pos <= |t| && ReadSoFar(t, initial, pos, vs, alphabet)
      invariant out == Unpack(vs) && bits == BitsHeld(|vs|) && (vs != [] ==> last == vs[|vs| - 1])
      decreases |t| - pos
    {
      var c := t[pos];
      if c == PAD {
        break;
      }
      ReadOne(t, initial, pos, vs, alphabet);
      pos := pos + 1;
      var value := Base64Value(alphabet, c);
      if value.Invalid? {
        return Err(InvalidCharacter);
      }
      var part := value.v;
      alphabet := value.alphabet;
      OneMore(vs, part, last, bits);
      if bits + 6 >= 8 {
        out := out + [ShiftedByte(last, part, bits)];
        bits := bits - 2;
      } else {
        bits := bits + 6;
      }
      last, vs := part, vs + [part];
    }
    AllRead(t, initial, pos, vs, alphabet);
    if pos != |t| {
      pos := pos + 1;
    }
    if behavior != Loose {
      ghost var from := pos;
      while pos != |t|
        invariant from <= pos <= |t|
        invariant forall i :: from <= i < pos ==> t[i] == PAD
        decreases |t| - pos
      {
        if t[pos] != PAD {
          assert t[from..][pos - from] != PAD;
          return Err(InvalidCharacter);
        }
        pos := pos + 1;
      }
    }
    r := Ok(out);
  }

  lemma NothingHeld()
    ensures BitsHeld(0) == 0
  {
  }

  /** Output never outgrows three quarters of the characters read, so never max_decode_size. */
  lemma DecodedLength(t: seq<Byte>, alphabet: Alphabet, behavior: Behavior)
    ensures Decoding(t, alphabet, behavior).Ok? ==> |Decoding(t, alphabet, behavior).value| <= MaxDecodeSize(|t|)
  {
    hide Unpack, Values, AfterPad;
    if Decoding(t, alphabet, behavior).Ok? {
      var vs := Values(t, alphabet).value;
      ValuesLength(t, alphabet);
      UnpackLength(vs);
      ThreeQuarters(|vs|, |t|);
    }
  }

  lemma {:induction false} ValuesLength(t: seq<Byte>, alphabet: Alphabet)
    ensures Values(t, alphabet).Ok? ==> |Values(t, alphabet).value| <= |t|
  {
    if t != [] && t[0] != PAD && Base64Value(alphabet, t[0]).Value? {
      ValuesLength(t[1..], Base64Value(alphabet, t[0]).alphabet);
    }
  }

  lemma ThreeQuarters(n: nat, m: nat)
    requires n <= m
    ensures n * 3 / 4 <= MaxDecodeSize(m)
  {
    assert n * 3 / 4 <= m * 3 / 4;
    var q, r := m / 4, m % 4;
    assert m * 3 == 4 * (3 * q) + 3 * r;
  }

  // ----- Decoding over its own input

  /** What is left of the characters is padding. */
  method OnlyPadding(buf: array<Byte>, from: nat, size: nat) returns (r: bool)
    requires from <= size <= buf.Length
    ensures r <==> AllPad(buf[from..size])
  {
    for i := from to size
      invariant forall k :: from <= k < i ==> buf[k] == PAD
    {
      if buf[i] != PAD {
        assert buf[from..size][i - from] != PAD;
        return false;
      }
    }
    return true;
  }

  /** Decodes the first size characters of the buffer into its beginning. */
  method DecodeInPlace(buf: array<Byte>, size: nat, initial: Alphabet, behavior: Behavior)
    returns (r: Result<nat, Error>)
    requires size <= buf.Length
    modifies buf
    ensures match Decoding(old(buf[..size]), initial, behavior)
            case Err(e) => r == Err(e)
            case Ok(s) =>
              && r == Ok(|s|) && |s| <= size
              && buf[..|s|] == s && buf[|s|..] == old(buf[|s|..])
  {
    hide Base64Value, ShiftedByte, Unpack, Values, AfterPad, BitsHeld, ReadSoFar, Decoding;
    ghost var t := buf[..size];
    var alphabet, last: Sextet, bits: nat := initial, 0, 0;
    var pos, out := 0, 0;
    ghost var vs: seq<Sextet> := [];
    UnpackShort([]);
    NothingHeld();
    NothingRead(t, initial);
    while pos != size
      invariant pos <= size && ReadSoFar(t, initial, pos, vs, alphabet) && |vs| == pos
      invariant out <= pos && buf[..out] == Unpack(vs) && bits == BitsHeld(|vs|) && (vs != [] ==> last == vs[|vs| - 1])
      invariant forall k :: out <= k < buf.Length ==> buf[k] == old(buf[k])
      decreases size - pos
    {
      var c := buf[pos];
      assert c == t[pos];
      if c == PAD {
        break;
      }
      ReadOne(t, initial, pos, vs, alphabet);
      pos := pos + 1;
      var value := Base64Value(alphabet, c);
      if value.Invalid? {
        ValuesFail(t, initial, behavior);
        return Err(InvalidCharacter);
      }
      var part := value.v;
      alphabet := value.alphabet;
      OneMore(vs, part, last, bits);
      WrittenBehind(vs, part);
      if bits + 6 >= 8 {
        ghost var before := buf[..out];
        buf[out] := ShiftedByte(last, part, bits);
        out := out + 1;
        assert buf[..out] == before + [buf[out - 1]];
        bits := bits - 2;
      } else {
        bits := bits + 6;
      }
      last, vs := part, vs + [part];
      ReadLength(t, initial, pos, vs, alphabet);
    }
    AllRead(t, initial, pos, vs, alphabet);
    if pos != size {
      pos := pos + 1;
    }
    DecodingIs(t, initial, behavior, vs);
    if behavior != Loose {
      var padded := OnlyPadding(buf, pos, size);
      assert buf[pos..size] == t[pos..];
      if !padded {
        return Err(InvalidCharacter);
      }
    }
    assert buf[out..] == old(buf[out..]);
    r := Ok(out);
  }

  lemma ReadLength(t: seq<Byte>, initial: Alphabet, pos: nat, vs: seq<Sextet>, alphabet: Alphabet)
    requires ReadSoFar(t, initial, pos, vs, alphabet)
    ensures |vs| == pos <= |t|
  {
  }

  lemma ValuesFail(t: seq<Byte>, initial: Alphabet, behavior: Behavior)
    requires Values(t, initial) == Err(InvalidCharacter)
    ensures Decoding(t, initial, behavior) == Err(InvalidCharacter)
  {
  }

  lemma DecodingIs(t: seq<Byte>, initial: Alphabet, behavior: Behavior, vs: seq<Sextet>)
    requires Values(t, initial) == Ok(vs)
    ensures Decoding(t, initial, behavior)
         == if behavior == Loose || AllPad(AfterPad(t)) then Ok(Unpack(vs)) else Err(InvalidCharacter)
  {
  }

  /** The place written stays behind the characters read. */
  lemma WrittenBehind(vs: seq<Sextet>, part: Sextet)
    ensures |Unpack(vs + [part])| <= |vs|
    ensures |Unpack(vs)| <= |vs|
  {
    hide Unpack;
    UnpackLength(vs);
    UnpackLength(vs + [part]);
  }

  // ----- Round trips

  lemma {:induction false} ValuesOfSymbols(v: seq<Sextet>, tail: seq<Byte>, writer: Alphabet, reader: Alphabet)
    requires Reads(reader, writer) && (tail != [] ==> tail[0] == PAD)
    ensures Values(Symbols(writer, v) + tail, reader) == Ok(v)
    ensures AfterPad(Symbols(writer, v) + tail) == AfterPad(tail)
    decreases |v|
  {
    hide Symbol, Base64Value, Reads;
    var t := Symbols(writer, v) + tail;
    if v == [] {
      assert t == tail;
    } else {
      SymbolValue(reader, writer, v[0]);
      assert t[0] == Symbol(writer, v[0]);
      assert t[1..] == Symbols(writer, v[1..]) + tail;
      ValuesOfSymbols(v[1..], tail, writer, Base64Value(reader, Symbol(writer, v[0])).alphabet);
      assert v == [v[0]] + v[1..];
    }
  }

  /**
   Decoding undoes encoding: for every string, both alphabets, told the alphabet or left to find out,
   and with any number of padding characters, in particular the right one and none.
   */
  lemma DecodeEncode(s: seq<Byte>, writer: Alphabet, reader: Alphabet, pads: nat, behavior: Behavior)
    requires Reads(reader, writer)
    ensures Decoding(Symbols(writer, Pack(s)) + Pads(pads), reader, behavior) == Ok(s)
    ensures Decoding(Encoding(s, writer), reader, behavior) == Ok(s)
  {
    hide Symbols, Pack, Unpack, Values, Reads;
    ValuesOfSymbols(Pack(s), Pads(pads), writer, reader);
    ValuesOfSymbols(Pack(s), Pads(Padding(|s|)), writer, reader);
    UnpackPack(s);
  }

  /** Text as an encoder would write it: section 3.5 of RFC 4648. */
  predicate IsCanonical(t: seq<Byte>, alphabet: Alphabet, pads: nat) {
    && alphabet != Auto
    && |t| % 4 == 0 && pads <= 2 && pads <= |t|
    && (forall i :: 0 <= i < |t| - pads ==> Base64Value(alphabet, t[i]).Value?)
    && (forall i :: |t| - pads <= i < |t| ==> t[i] == PAD)
    && (pads == 1 ==> Base64Value(alphabet, t[|t| - 2]).v % 4 == 0)
    && (pads == 2 ==> Base64Value(alphabet, t[|t| - 3]).v % 16 == 0)
  }

  /** Characters of one alphabet, up to padding, are the symbols of their values. */
  lemma {:induction false} SymbolsOfValues(t: seq<Byte>, tail: seq<Byte>, alphabet: Alphabet)
    requires alphabet != Auto && (tail != [] ==> tail[0] == PAD)
    requires forall i :: 0 <= i < |t| ==> Base64Value(alphabet, t[i]).Value?
    ensures var r := Values(t + tail, alphabet);
            && r.Ok? && |r.value| == |t|
            && (forall i :: 0 <= i < |t| ==> r.value[i] == Base64Value(alphabet, t[i]).v)
            && Symbols(alphabet, r.value) == t
    ensures AfterPad(t + tail) == AfterPad(tail)
    decreases |t|
  {
    hide Symbol, Base64Value;
    if t == [] {
      assert t + tail == tail;
    } else {
      ValueSymbol(alphabet, t[0]);
      SymbolValue(alphabet, alphabet, Base64Value(alphabet, t[0]).v);
      assert (t + tail)[1..] == t[1..] + tail;
      SymbolsOfValues(t[1..], tail, alphabet);
    }
  }

  lemma UnpackedPadding(n: nat, pads: nat)
    requires pads <= 2 && (n + pads) % 4 == 0
    ensures Padding(n * 3 / 4) == pads
  {
    var q := (n + pads) / 4;
    assert n == 4 * q - pads;
    if pads == 0 {
      assert n * 3 / 4 == 3 * q;
    } else if pads == 1 {
      assert n * 3 / 4 == 3 * (q - 1) + 2;
    } else {
      assert n * 3 / 4 == 3 * (q - 1) + 1;
    }
  }

  lemma CanonicalRest(n: nat, pads: nat)
    requires pads <= 2 && (n + pads) % 4 == 0
    ensures n % 4 == if pads == 0 then 0 else 4 - pads
  {
  }

  lemma CanonicalZeroRest(t: seq<Byte>, alphabet: Alphabet, pads: nat, vs: seq<Sextet>)
    requires IsCanonical(t, alphabet, pads) && |vs| == |t| - pads
    requires forall i :: 0 <= i < |vs| ==> vs[i] == Base64Value(alphabet, t[i]).v
    ensures ZeroRest(vs)
  {
    hide Base64Value;
    CanonicalRest(|vs|, pads);
  }

  /** Encoding undoes decoding on canonical text. */
  lemma EncodeDecode(t: seq<Byte>, alphabet: Alphabet, pads: nat, behavior: Behavior)
    requires IsCanonical(t, alphabet, pads)
    ensures Decoding(t, alphabet, behavior).Ok?
    ensures Encoding(Decoding(t, alphabet, behavior).value, alphabet) == t
  {
    hide Base64Value, Symbols, Values, Pack, Unpack, Padding, ZeroRest;
    var body, tail := t[..|t| - pads], t[|t| - pads..];
    assert t == body + tail && tail == Pads(pads);
    SymbolsOfValues(body, tail, alphabet);
    var vs := Values(t, alphabet).value;
    CanonicalZeroRest(t, alphabet, pads, vs);
    PackUnpack(vs);
    UnpackLength(vs);
    UnpackedPadding(|vs|, pads);
  }

  /** What an encoder writes is canonical: together, encoding and decoding are inverse between bytes and such text. */
  lemma EncodingIsCanonical(s: seq<Byte>, alphabet: Alphabet)
    requires alphabet != Auto
    ensures IsCanonical(Encoding(s, alphabet), alphabet, Padding(|s|))
  {
    hide Base64Value, Pack, Padding, Symbol;
    var t, v, pads := Encoding(s, alphabet), Pack(s), Padding(|s|);
    EncodingLength(s, alphabet);
    WholeGroups(|s|);
    forall i | 0 <= i < |v|
      ensures Base64Value(alphabet, t[i]) == Value(v[i], alphabet)
    {
      SymbolValue(alphabet, alphabet, v[i]);
      ValueSymbol(alphabet, Symbol(alphabet, v[i]));
    }
    PackZeroRest(s);
    CanonicalRest(|v|, pads);
  }

  lemma WholeGroups(n: nat)
    ensures RequiredEncodeSize(n) % 4 == 0
  {
    var groups := n / 3 + (if n % 3 != 0 then 1 else 0);
    FourTimes(groups);
  }

  lemma FourTimes(k: nat)
    ensures k * 4 % 4 == 0
  {
  }
}
