/**
 What the two Base64 texts are: the alphabets written out (tables 1 and 2 of RFC 4648), bytes and values as one number,
 which texts are accepted, and what it means to leave the alphabet open.
 */
module Base64Exact {
  import opened Wrappers
  import opened Bytes
  import opened Base64

  // ----- The alphabets

  const UPPER := "ABCDEFGHIJKLMNOPQRSTUVWXYZ"
  const LOWER := "abcdefghijklmnopqrstuvwxyz"
  const DIGITS := "0123456789"
  const SIGNS := "+/"
  const URL_SIGNS := "-_"

  function Table(alphabet: Alphabet): string {
    UPPER + LOWER + DIGITS + if alphabet == UrlFilenameSafe then URL_SIGNS else SIGNS
  }

  lemma Letters(k: nat)
    ensures |UPPER| == 26 && |LOWER| == 26
    ensures k < 26 ==> UPPER[k] as int == 65 + k && LOWER[k] as int == 97 + k
  {
  }

  lemma DigitsAndSigns(k: nat)
    ensures |DIGITS| == 10 && |SIGNS| == 2 && |URL_SIGNS| == 2
    ensures k < 10 ==> DIGITS[k] as int == 48 + k
  {
  }

  /** The character for a value is the one at its place in the table. */
  lemma SymbolTable(alphabet: Alphabet, v: Sextet)
    ensures |Table(alphabet)| == 64
    ensures Symbol(alphabet, v) == Table(alphabet)[v] as int
  {
    hide UPPER, LOWER, DIGITS;
    Letters(if v < 26 then v else if v < 52 then v - 26 else 0);
    DigitsAndSigns(if 52 <= v < 62 then v - 52 else 0);
  }

  /** A character is read exactly if it is in the table, as its place there. */
  lemma ValueTable(alphabet: Alphabet, c: Byte)
    requires alphabet != Auto
    ensures Base64Value(alphabet, c).Value? <==> exists v: Sextet :: Symbol(alphabet, v) == c
    ensures forall v: Sextet :: Symbol(alphabet, v) == c ==> Base64Value(alphabet, c) == Value(v, alphabet)
  {
    hide Symbol, Base64Value;
    if Base64Value(alphabet, c).Value? {
      ValueSymbol(alphabet, c);
    }
    forall v: Sextet | Symbol(alphabet, v) == c
      ensures Base64Value(alphabet, c) == Value(v, alphabet)
    {
      SymbolValue(alphabet, alphabet, v);
      ValueSymbol(alphabet, c);
    }
  }

  // ----- The same bits

  /** The number whose digits to base 256 follow those of acc. */
  function Number256(acc: nat, s: seq<Byte>): nat
    decreases |s|
  {
    if s == [] then acc else Number256(acc * 256 + s[0], s[1..])
  }

  function Number64(acc: nat, v: seq<Sextet>): nat
    decreases |v|
  {
    if v == [] then acc else Number64(acc * 64 + v[0], v[1..])
  }

  lemma First256(acc: nat, a: Byte, rest: seq<Byte>)
    ensures Number256(acc, [a] + rest) == Number256(acc * 256 + a, rest)
  {
    assert ([a] + rest)[1..] == rest;
  }

  lemma First64(acc: nat, w: Sextet, rest: seq<Sextet>)
    ensures Number64(acc, [w] + rest) == Number64(acc * 64 + w, rest)
  {
    assert ([w] + rest)[1..] == rest;
  }

  lemma Number256Three(acc: nat, a: Byte, b: Byte, c: Byte, rest: seq<Byte>)
    ensures Number256(acc, [a, b, c] + rest) == Number256(acc * 0x100_0000 + (a * 0x1_0000 + b * 0x100 + c), rest)
  {
    hide Number256;
    First256(acc, a, [b, c] + rest);
    First256(acc * 256 + a, b, [c] + rest);
    First256((acc * 256 + a) * 256 + b, c, rest);
    assert [a] + ([b, c] + rest) == [a, b, c] + rest && [b] + ([c] + rest) == [b, c] + rest;
    assert ((acc * 256 + a) * 256 + b) * 256 + c == acc * 0x100_0000 + (a * 0x1_0000 + b * 0x100 + c);
  }

  lemma Number64Four(acc: nat, w: Sextet, x: Sextet, y: Sextet, z: Sextet, rest: seq<Sextet>)
    ensures Number64(acc, [w, x, y, z] + rest) == Number64(acc * 0x100_0000 + (w * 0x4_0000 + x * 0x1000 + y * 64 + z), rest)
  {
    hide Number64;
    First64(acc, w, [x, y, z] + rest);
    First64(acc * 64 + w, x, [y, z] + rest);
    First64((acc * 64 + w) * 64 + x, y, [z] + rest);
    First64(((acc * 64 + w) * 64 + x) * 64 + y, z, rest);
    assert [w] + ([x, y, z] + rest) == [w, x, y, z] + rest && [x] + ([y, z] + rest) == [x, y, z] + rest;
    assert [y] + ([z] + rest) == [y, z] + rest;
    assert (((acc * 64 + w) * 64 + x) * 64 + y) * 64 + z == acc * 0x100_0000 + (w * 0x4_0000 + x * 0x1000 + y * 64 + z);
  }

  lemma Number64Short(acc: nat, w: Sextet, x: Sextet, y: Sextet)
    ensures Number64(acc, []) == acc
    ensures Number64(acc, [w]) == acc * 64 + w
    ensures Number64(acc, [w, x]) == acc * 0x1000 + (w * 64 + x)
    ensures Number64(acc, [w, x, y]) == acc * 0x4_0000 + (w * 0x1000 + x * 64 + y)
  {
    assert [w] + [] == [w] && [w] + [x] == [w, x] && [w] + [x, y] == [w, x, y] && [x] + [y] == [x, y];
    First64(acc, w, []);
    First64(acc, w, [x]);
    First64(acc, w, [x, y]);
    First64(acc * 64 + w, x, []);
    First64(acc * 64 + w, x, [y]);
    First64((acc * 64 + w) * 64 + x, y, []);
    assert x == Number64(0, [x]);
  }

  lemma Number256Short(acc: nat, a: Byte, b: Byte)
    ensures Number256(acc, []) == acc
    ensures Number256(acc, [a]) == acc * 256 + a
    ensures Number256(acc, [a, b]) == acc * 0x1_0000 + (a * 256 + b)
  {
    assert [a] + [] == [a] && [a] + [b] == [a, b];
    First256(acc, a, []);
    First256(acc, a, [b]);
    First256(acc * 256 + a, b, []);
  }

  lemma GroupIsNumber(a: Byte, b: Byte, c: Byte)
    ensures Value0(a) * 0x4_0000 + Value1(a, b) * 0x1000 + Value2(b, c) * 64 + Value3(c) == a * 0x1_0000 + b * 0x100 + c
  {
  }

  lemma BytesAreNumber(w: Sextet, x: Sextet, y: Sextet, z: Sextet)
    ensures Byte0(w, x) * 0x1_0000 + Byte1(x, y) * 0x100 + Byte2(y, z) == w * 0x4_0000 + x * 0x1000 + y * 64 + z
    ensures (w * 64 + x) / 16 == Byte0(w, x)
    ensures (w * 0x1000 + x * 64 + y) / 4 == Byte0(w, x) * 256 + Byte1(x, y)
  {
  }

  /** The bits the last value holds beyond the bytes, as a factor. */
  function Fill(n: nat): nat {
    if n % 3 == 0 then 1 else if n % 3 == 1 then 16 else 4
  }

  lemma FillRepeats(n: nat)
    requires n >= 3
    ensures Fill(n) == Fill(n - 3)
  {
  }

  /** Read as one number, the values are the bytes with zeros behind them; with their number this determines them. */
  lemma {:induction false} PackIsNumber(acc: nat, s: seq<Byte>)
    ensures Number64(acc, Pack(s)) == Number256(acc, s) * Fill(|s|)
    ensures |Pack(s)| == (|s| * 4 + 2) / 3
    decreases |s|
  {
    hide Number64, Number256, Value0, Value1, Value2, Value3, Fill;
    if |s| < 3 {
      PackShortIsNumber(acc, s);
    } else {
      var a: Byte, b: Byte, c: Byte, rest := s[0], s[1], s[2], s[3..];
      assert s == [a, b, c] + rest;
      GroupIsNumber(a, b, c);
      Number256Three(acc, a, b, c, rest);
      Number64Four(acc, Value0(a), Value1(a, b), Value2(b, c), Value3(c), Pack(rest));
      PackIsNumber(acc * 0x100_0000 + (a * 0x1_0000 + b * 0x100 + c), rest);
      FillRepeats(|s|);
    }
  }

  lemma PackShortIsNumber(acc: nat, s: seq<Byte>)
    requires |s| < 3
    ensures Number64(acc, Pack(s)) == Number256(acc, s) * Fill(|s|)
    ensures |Pack(s)| == (|s| * 4 + 2) / 3
  {
    hide Number64, Number256;
    if |s| == 0 {
      Number64Short(acc, 0, 0, 0);
      Number256Short(acc, 0, 0);
    } else if |s| == 1 {
      assert s == [s[0]];
      Number64Short(acc, Value0(s[0]), Value1(s[0], 0), 0);
      Number256Short(acc, s[0], 0);
    } else {
      assert s == [s[0], s[1]];
      Number64Short(acc, Value0(s[0]), Value1(s[0], s[1]), Value2(s[1], 0));
      Number256Short(acc, s[0], s[1]);
    }
  }

  /** The bits of a number of values that fill no byte, as a divisor. */
  function Rest(n: nat): (d: nat)
    ensures d > 0
  {
    if n % 4 == 0 then 1 else if n % 4 == 1 then 64 else if n % 4 == 2 then 16 else 4
  }

  lemma RestRepeats(n: nat)
    requires n >= 4
    ensures Rest(n) == Rest(n - 4)
  {
  }

  /** Read as one number, the bytes are the values without the bits that fill no byte. */
  lemma {:induction false} UnpackIsNumber(acc: nat, v: seq<Sextet>)
    ensures Number256(acc, Unpack(v)) == Number64(acc, v) / Rest(|v|)
    ensures |Unpack(v)| == |v| * 6 / 8
    decreases |v|
  {
    hide Number64, Number256, Byte0, Byte1, Byte2, Rest;
    if |v| < 4 {
      UnpackShortIsNumber(acc, v);
    } else {
      var w: Sextet, x: Sextet, y: Sextet, z: Sextet, rest := v[0], v[1], v[2], v[3], v[4..];
      assert v == [w, x, y, z] + rest;
      BytesAreNumber(w, x, y, z);
      Number64Four(acc, w, x, y, z, rest);
      Number256Three(acc, Byte0(w, x), Byte1(x, y), Byte2(y, z), Unpack(rest));
      UnpackIsNumber(acc * 0x100_0000 + (w * 0x4_0000 + x * 0x1000 + y * 64 + z), rest);
      RestRepeats(|v|);
    }
  }

  lemma UnpackShortIsNumber(acc: nat, v: seq<Sextet>)
    requires |v| < 4
    ensures Number256(acc, Unpack(v)) == Number64(acc, v) / Rest(|v|)
    ensures |Unpack(v)| == |v| * 6 / 8
  {
    hide Number64, Number256, Byte0, Byte1, Unpack;
    UnpackShort(v);
    if |v| == 0 {
      Number64Short(acc, 0, 0, 0);
      Number256Short(acc, 0, 0);
    } else {
      var w: Sextet, x: Sextet, y: Sextet := v[0], if |v| > 1 then v[1] else 0, if |v| > 2 then v[2] else 0;
      Number64Short(acc, w, x, y);
      Number256Short(acc, Byte0(w, x), Byte1(x, y));
      BytesAreNumber(w, x, y, 0);
      if |v| == 1 {
        assert v == [w];
        Dropped(acc, w, 64, 1);
      } else if |v| == 2 {
        assert v == [w, x];
        Dropped(acc, w * 64 + x, 16, 256);
      } else {
        assert v == [w, x, y];
        Dropped(acc, w * 0x1000 + x * 64 + y, 4, 0x1_0000);
      }
    }
  }

  lemma Dropped(acc: nat, low: nat, d: nat, m: nat)
    requires (d == 64 && m == 1 && low < 64) || (d == 16 && m == 256) || (d == 4 && m == 0x1_0000)
    ensures (acc * (m * d) + low) / d == acc * m + low / d
  {
  }

  // ----- The text

  /** The text is the table's character for every value, then padding up to a multiple of four characters. */
  lemma EncodingExactly(s: seq<Byte>, alphabet: Alphabet)
    ensures |Encoding(s, alphabet)| == 4 * ((|s| + 2) / 3)
    ensures forall k :: 0 <= k < |Encoding(s, alphabet)| ==>
              Encoding(s, alphabet)[k] == if k < |Pack(s)| then Table(alphabet)[Pack(s)[k]] as int else PAD
    ensures |Table(alphabet)| == 64
  {
    hide Symbol, Pack, Table;
    SymbolTable(alphabet, 0);
    EncodingLength(s, alphabet);
    forall k | 0 <= k < |Pack(s)|
      ensures Encoding(s, alphabet)[k] == Table(alphabet)[Pack(s)[k]] as int
    {
      SymbolTable(alphabet, Pack(s)[k]);
    }
  }

  // ----- Which texts are accepted

  /** p is where the first padding character is, or the end. */
  predicate PadAt(t: seq<Byte>, p: nat) {
    && p <= |t| && (p < |t| ==> t[p] == PAD)
    && forall i :: 0 <= i < p ==> t[i] != PAD
  }

  /** The characters before p are in the table, as these values. */
  predicate Spells(t: seq<Byte>, p: nat, alphabet: Alphabet, v: seq<Sextet>)
    requires p <= |t|
  {
    |v| == p && forall i :: 0 <= i < p ==> Symbol(alphabet, v[i]) == t[i]
  }

  lemma PadNext(t: seq<Byte>, p: nat)
    requires PadAt(t, p)
    ensures p == 0 <==> t == [] || t[0] == PAD
    ensures p > 0 ==> PadAt(t[1..], p - 1)
  {
  }

  lemma {:induction false} ValuesExactly(t: seq<Byte>, p: nat, alphabet: Alphabet)
    requires alphabet != Auto && PadAt(t, p)
    ensures Values(t, alphabet).Ok? <==> exists v :: Spells(t, p, alphabet, v)
    ensures forall v :: Spells(t, p, alphabet, v) ==> Values(t, alphabet) == Ok(v)
    ensures AfterPad(t) == if p == |t| then [] else t[p + 1..]
    decreases |t|
  {
    hide Symbol, Base64Value;
    if p > 0 {
      PadNext(t, p);
      var rest := t[1..];
      ValuesExactly(rest, p - 1, alphabet);
      ValueTable(alphabet, t[0]);
      if Values(t, alphabet).Ok? {
        var v :| Spells(rest, p - 1, alphabet, v);
        var x: Sextet :| Symbol(alphabet, x) == t[0];
        assert Spells(t, p, alphabet, [x] + v);
      }
      forall v | Spells(t, p, alphabet, v)
        ensures Values(t, alphabet) == Ok(v)
      {
        assert Spells(rest, p - 1, alphabet, v[1..]);
        assert v == [v[0]] + v[1..];
      }
    } else {
      assert Spells(t, p, alphabet, []);
    }
  }

  /**
   Text is decoded exactly if every character before the first padding character is in the table, and what follows that
   character, unless the reader is loose, is padding. The bytes are those of the values the characters stand for.
   */
  lemma DecodingExactly(t: seq<Byte>, p: nat, alphabet: Alphabet, behavior: Behavior, v: seq<Sextet>)
    requires alphabet != Auto && PadAt(t, p)
    ensures Decoding(t, alphabet, behavior).Ok? <==>
            && (exists v :: Spells(t, p, alphabet, v))
            && (behavior == Loose || forall i :: p <= i < |t| ==> t[i] == PAD)
    ensures Decoding(t, alphabet, behavior).Ok? && Spells(t, p, alphabet, v) ==> Decoding(t, alphabet, behavior) == Ok(Unpack(v))
  {
    hide Values, Unpack, Symbol;
    ValuesExactly(t, p, alphabet);
    if p < |t| {
      if AllPad(t[p + 1..]) {
        forall i | p < i < |t|
          ensures t[i] == PAD
        {
          assert t[i] == t[p + 1..][i - p - 1];
        }
      }
    }
  }

  // ----- The alphabet left open

  lemma {:induction false} ValuesAuto(t: seq<Byte>)
    ensures Values(t, Auto).Ok? <==> Values(t, Standard).Ok? || Values(t, UrlFilenameSafe).Ok?
    ensures Values(t, Standard).Ok? ==> Values(t, Auto) == Values(t, Standard)
    ensures Values(t, UrlFilenameSafe).Ok? ==> Values(t, Auto) == Values(t, UrlFilenameSafe)
    decreases |t|
  {
    if t != [] && t[0] != PAD && Base64Value(Auto, t[0]).Value? {
      ValuesAuto(t[1..]);
    }
  }

  /** Text is accepted with the alphabet left open exactly if it is accepted in one of the two, and as the same bytes. */
  lemma AutoIsEither(t: seq<Byte>, behavior: Behavior)
    ensures Decoding(t, Auto, behavior).Ok? <==>
            Decoding(t, Standard, behavior).Ok? || Decoding(t, UrlFilenameSafe, behavior).Ok?
    ensures Decoding(t, Standard, behavior).Ok? ==> Decoding(t, Auto, behavior) == Decoding(t, Standard, behavior)
    ensures Decoding(t, UrlFilenameSafe, behavior).Ok? ==> Decoding(t, Auto, behavior) == Decoding(t, UrlFilenameSafe, behavior)
  {
    hide Values, Unpack, AfterPad;
    ValuesAuto(t);
  }
}
