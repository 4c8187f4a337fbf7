/**
 Tensors of the Open Inference Protocol v2 as gRPC carries them, `serving/oip_grpc/server.py`: typed
 contents, or raw little-endian bytes in which each `BYTES` element has a four-byte length prefix.
 Both become the flat `data` of the same REST body.
 */
module RawTensors {
  import opened Wrappers
  import opened Utf8

  datatype Error =
    | NegativeDimension
    | TruncatedPrefix
    | ElementPastEnd
    | NotUtf8
    | WrongElementCount
    | UnsupportedDatatype
    | WrongByteCount
    | RawCountMismatch
    | BothForms
    | MustBeRaw

  datatype Datatype =
    | BOOL | INT8 | INT16 | INT32 | INT64 | UINT8 | UINT16 | UINT32 | UINT64
    | FP16 | FP32 | FP64 | BYTES | Other(name: string)

  /** A floating-point value is its bit pattern, lowest byte first. */
  datatype Value = Bool(b: bool) | Int(n: int) | Float(bits: seq<Byte>) | Text(s: string)

  // ---- little-endian words -------------------------------------------------

  function Pow256(w: nat): nat { if w == 0 then 1 else 256 * Pow256(w - 1) }

  function Le(n: nat, w: nat): (bs: seq<Byte>)
    ensures |bs| == w
  {
    if w == 0 then [] else [n % 256] + Le(n / 256, w - 1)
  }

  function ReadLe(bs: seq<Byte>): (n: nat)
    ensures n < Pow256(|bs|)
  {
    if bs == [] then 0 else bs[0] + 256 * ReadLe(bs[1..])
  }

  lemma {:induction false} ReadOfLe(n: nat, w: nat)
    requires n < Pow256(w)
    ensures ReadLe(Le(n, w)) == n
  {
    if w > 0 {
      ReadOfLe(n / 256, w - 1);
      assert Le(n, w)[1..] == Le(n / 256, w - 1);
    }
  }

  lemma {:induction false} LeOfRead(bs: seq<Byte>)
    ensures Le(ReadLe(bs), |bs|) == bs
  {
    if bs != [] {
      var low: int, high := bs[0], ReadLe(bs[1..]);
      LeOfRead(bs[1..]);
      assert (low + 256 * high) % 256 == low && (low + 256 * high) / 256 == high;
      assert bs == [bs[0]] + bs[1..];
    }
  }

  datatype Format = Bools | Signed(bytes: nat) | Unsigned(bytes: nat) | Floats(bytes: nat) {
    function Width(): nat { if Bools? then 1 else bytes }
  }

  function FormatOf(d: Datatype): (f: Option<Format>)
    ensures f.Some? ==> f.value.Width() > 0
  {
    match d
    case BOOL => Some(Bools)
    case INT8 => Some(Signed(1))
    case INT16 => Some(Signed(2))
    case INT32 => Some(Signed(4))
    case INT64 => Some(Signed(8))
    case UINT8 => Some(Unsigned(1))
    case UINT16 => Some(Unsigned(2))
    case UINT32 => Some(Unsigned(4))
    case UINT64 => Some(Unsigned(8))
    case FP16 => Some(Floats(2))
    case FP32 => Some(Floats(4))
    case FP64 => Some(Floats(8))
    case _ => None
  }

  /** The values a word of the format can carry. */
  predicate FitsWord(f: Format, v: Value) {
    match f
    case Bools => v.Bool?
    case Signed(w) => v.Int? && -(Pow256(w) as int) <= 2 * v.n < Pow256(w)
    case Unsigned(w) => v.Int? && 0 <= v.n < Pow256(w)
    case Floats(w) => v.Float? && |v.bits| == w
  }

  function ReadWord(f: Format, word: seq<Byte>): Value
    requires |word| == f.Width()
  {
    match f
    case Bools => Bool(word[0] != 0)
    case Signed(w) => var n := ReadLe(word); Int(if 2 * n >= Pow256(w) then n - Pow256(w) else n)
    case Unsigned(w) => Int(ReadLe(word))
    case Floats(w) => Float(word)
  }

  /** The encoding a client uses: two's complement, one byte per boolean. */
  function WriteWord(f: Format, v: Value): (word: seq<Byte>)
    requires FitsWord(f, v)
    ensures |word| == f.Width()
  {
    match f
    case Bools => [if v.b then 1 else 0]
    case Signed(w) => Le(if v.n < 0 then v.n + Pow256(w) else v.n, w)
    case Unsigned(w) => Le(v.n, w)
    case Floats(w) => v.bits
  }

  lemma ReadOfWrite(f: Format, v: Value)
    requires FitsWord(f, v)
    ensures ReadWord(f, WriteWord(f, v)) == v
  {
    match f
    case Signed(w) => ReadOfLe(if v.n < 0 then v.n + Pow256(w) else v.n, w);
    case Unsigned(w) => ReadOfLe(v.n, w);
    case _ =>
  }

  /** And back: what is read can be written, and but for booleans, of which any other byte is a second spelling, it
      is written as it was. */
  lemma WriteOfRead(f: Format, word: seq<Byte>)
    requires |word| == f.Width() && f.Width() > 0
    ensures FitsWord(f, ReadWord(f, word)) && (!f.Bools? ==> WriteWord(f, ReadWord(f, word)) == word)
    ensures f.Bools? ==> WriteWord(f, ReadWord(f, word)) == [if word[0] == 0 then 0 else 1]
  {
    LeOfRead(word);
    if f.Signed? && 2 * ReadLe(word) >= Pow256(|word|) {
      assert ReadWord(f, word).n < 0;
    }
  }

  /** `np.frombuffer(...).tolist()`. */
  function ReadWords(f: Format, raw: seq<Byte>): seq<Value>
    requires f.Width() > 0
    decreases |raw|
  {
    if |raw| < f.Width() then []
    else [ReadWord(f, raw[..f.Width()])] + ReadWords(f, raw[f.Width()..])
  }

  function WriteWords(f: Format, vs: seq<Value>): seq<Byte>
    requires forall v <- vs :: FitsWord(f, v)
  {
    if vs == [] then [] else WriteWord(f, vs[0]) + WriteWords(f, vs[1..])
  }

  lemma {:induction false} WordsSize(f: Format, vs: seq<Value>)
    requires forall v <- vs :: FitsWord(f, v)
    ensures |WriteWords(f, vs)| == |vs| * f.Width()
  {
    if vs != [] {
      WordsSize(f, vs[1..]);
      assert (1 + |vs[1..]|) * f.Width() == f.Width() + |vs[1..]| * f.Width();
    }
  }

  lemma {:induction false} ReadOfWriteWords(f: Format, vs: seq<Value>)
    requires f.Width() > 0 && forall v <- vs :: FitsWord(f, v)
    ensures ReadWords(f, WriteWords(f, vs)) == vs
  {
    if vs != [] {
      var head, rest := WriteWord(f, vs[0]), WriteWords(f, vs[1..]);
      ReadOfWrite(f, vs[0]);
      ReadOfWriteWords(f, vs[1..]);
      assert (head + rest)[..f.Width()] == head && (head + rest)[f.Width()..] == rest;
      assert [vs[0]] + vs[1..] == vs;
    }
  }

  // ---- length-prefixed elements --------------------------------------------

  function Product(shape: seq<int>): int {
    if shape == [] then 1 else shape[0] * Product(shape[1..])
  }

  predicate NonNegative(shape: seq<int>) {
    forall i | 0 <= i < |shape| :: shape[i] >= 0
  }

  lemma {:induction false} ProductIsNat(shape: seq<int>)
    requires NonNegative(shape)
    ensures Product(shape) >= 0
  {
    if shape != [] {
      ProductIsNat(shape[1..]);
    }
  }

  function Elements(shape: seq<int>): Result<int, Error> {
    if !NonNegative(shape) then Err(NegativeDimension) else Ok(Product(shape))
  }

  /** A list put in front of a result, unless it is a refusal. */
  function Onto<T>(out: seq<T>, r: Result<seq<T>, Error>): Result<seq<T>, Error> {
    if r.Err? then r else Ok(out + r.value)
  }

  lemma OntoComposes<T>(out: seq<T>, t: T, r: Result<seq<T>, Error>)
    ensures Onto(out, Onto([t], r)) == Onto(out + [t], r)
    ensures Onto([], r) == r && Onto(out, Ok([])) == Ok(out)
  {
    if r.Ok? {
      assert out + ([t] + r.value) == (out + [t]) + r.value && [] + r.value == r.value;
    }
    assert out + [] == out;
  }

  /** The element at `offset` and the offset after it. */
  function ReadElement(raw: seq<Byte>, offset: nat): (r: Result<(string, nat), Error>)
    requires offset < |raw|
    ensures r.Ok? ==> offset + 4 <= r.value.1 <= |raw|
  {
    if offset + 4 > |raw| then Err(TruncatedPrefix)
    else
      var length := ReadLe(raw[offset..offset + 4]);
      if offset + 4 + length > |raw| then Err(ElementPastEnd)
      else
        var text := Decode(raw[offset + 4..offset + 4 + length]);
        if text.None? then Err(NotUtf8) else Ok((text.value, offset + 4 + length))
  }

  /** The elements of a raw `BYTES` tensor from `offset` to the very end. */
  function Parse(raw: seq<Byte>, offset: nat): Result<seq<string>, Error>
    requires offset <= |raw|
    decreases |raw| - offset
  {
    if offset == |raw| then Ok([])
    else
      var element := ReadElement(raw, offset);
      if element.Err? then Err(element.error)
      else Onto([element.value.0], Parse(raw, element.value.1))
  }

  const LIMIT := 0x1_0000_0000

  /** The four-byte length prefix. */
  function Prefix(n: nat): (prefix: seq<Byte>)
    ensures |prefix| == 4
  {
    Le(n, 4)
  }

  lemma ReadOfPrefix(n: nat)
    requires n < LIMIT
    ensures ReadLe(Prefix(n)) == n
  {
    ReadOfLe(n, 4);
  }

  lemma PrefixOfRead(prefix: seq<Byte>)
    requires |prefix| == 4
    ensures ReadLe(prefix) < LIMIT && Prefix(ReadLe(prefix)) == prefix
  {
    LeOfRead(prefix);
  }

  function Framed(bs: seq<Byte>): seq<Byte>
    requires |bs| < LIMIT
  {
    Prefix(|bs|) + bs
  }

  predicate Fit(texts: seq<string>) {
    forall t <- texts :: |Encode(t)| < LIMIT
  }

  function FrameAll(strings: seq<seq<Byte>>): seq<Byte>
    requires forall bs <- strings :: |bs| < LIMIT
  {
    if strings == [] then [] else Framed(strings[0]) + FrameAll(strings[1..])
  }

  function EncodeEach(texts: seq<string>): (strings: seq<seq<Byte>>)
    ensures Fit(texts) ==> forall bs <- strings :: |bs| < LIMIT
  {
    if texts == [] then [] else [Encode(texts[0])] + EncodeEach(texts[1..])
  }

  function EncodeTexts(texts: seq<string>): seq<Byte>
    requires Fit(texts)
  {
    FrameAll(EncodeEach(texts))
  }

  function Texts(strings: seq<seq<Byte>>): Option<seq<string>> {
    if strings == [] then Some([])
    else
      var first, rest := Decode(strings[0]), Texts(strings[1..]);
      if first.None? || rest.None? then None else Some([first.value] + rest.value)
  }

  lemma {:induction false} TextsOfEncode(texts: seq<string>)
    ensures Texts(EncodeEach(texts)) == Some(texts)
  {
    if texts != [] {
      DecodeOfEncode(texts[0]);
      TextsOfEncode(texts[1..]);
      assert [texts[0]] + texts[1..] == texts;
    }
  }

  lemma ElementIsRead(before: seq<Byte>, prefix: seq<Byte>, bs: seq<Byte>, rest: seq<Byte>)
    requires |prefix| == 4 && ReadLe(prefix) == |bs|
    ensures var raw, at := before + (prefix + bs) + rest, |before|;
            at < |raw| && ReadElement(raw, at) ==
            if Decode(bs).None? then Err(NotUtf8) else Ok((Decode(bs).value, at + 4 + |bs|))
  {
    var raw, at := before + (prefix + bs) + rest, |before|;
    assert raw[at..at + 4] == prefix;
    assert raw[at + 4..at + 4 + |bs|] == bs;
  }

  lemma FrameIsRead(before: seq<Byte>, bs: seq<Byte>, rest: seq<Byte>)
    requires |bs| < LIMIT
    ensures var raw, at := before + Framed(bs) + rest, |before|;
            at < |raw| && ReadElement(raw, at) ==
            if Decode(bs).None? then Err(NotUtf8) else Ok((Decode(bs).value, at + 4 + |bs|))
  {
    ReadOfPrefix(|bs|);
    ElementIsRead(before, Prefix(|bs|), bs, rest);
  }

  lemma ElementParts(raw: seq<Byte>, offset: nat)
    requires offset < |raw| && ReadElement(raw, offset).Ok?
    ensures var (text, next) := ReadElement(raw, offset).value;
            var prefix, body := raw[offset..offset + 4], raw[offset + 4..next];
            ReadLe(prefix) == |body| && Decode(body) == Some(text) && raw[offset..] == prefix + body + raw[next..]
  {
  }

  lemma ElementIsFramed(raw: seq<Byte>, offset: nat)
    requires offset < |raw| && ReadElement(raw, offset).Ok?
    ensures var (text, next) := ReadElement(raw, offset).value;
            |Encode(text)| < LIMIT && raw[offset..] == Framed(Encode(text)) + raw[next..]
  {
    var (text, next) := ReadElement(raw, offset).value;
    ElementParts(raw, offset);
    EncodeOfDecode(raw[offset + 4..next]);
    PrefixOfRead(raw[offset..offset + 4]);
  }

  lemma ParseOneFrame(before: seq<Byte>, bs: seq<Byte>, rest: seq<Byte>)
    requires |bs| < LIMIT
    ensures Parse(before + (Framed(bs) + rest), |before|) ==
            if Decode(bs).None? then Err(NotUtf8)
            else Onto([Decode(bs).value], Parse((before + Framed(bs)) + rest, |before + Framed(bs)|))
  {
    FrameIsRead(before, bs, rest);
    ParseAfterRead(before, Framed(bs), rest);
  }

  lemma ParseAfterRead(before: seq<Byte>, frame: seq<Byte>, rest: seq<Byte>)
    requires frame != []
    requires var r := ReadElement(before + frame + rest, |before|);
             r.Ok? ==> r.value.1 == |before + frame|
    ensures var r := ReadElement(before + frame + rest, |before|);
            Parse(before + (frame + rest), |before|) ==
            if r.Err? then Err(r.error) else Onto([r.value.0], Parse((before + frame) + rest, |before + frame|))
  {
    assert before + (frame + rest) == before + frame + rest;
  }

  lemma {:induction false} ParseOfFrames(before: seq<Byte>, strings: seq<seq<Byte>>)
    requires forall bs <- strings :: |bs| < LIMIT
    ensures Parse(before + FrameAll(strings), |before|) ==
            if Texts(strings).Some? then Ok(Texts(strings).value) else Err(NotUtf8)
    ensures Texts(strings).Some? ==> |Texts(strings).value| == |strings|
    decreases |strings|
  {
    if strings != [] {
      ParseOneFrame(before, strings[0], FrameAll(strings[1..]));
      ParseOfFrames(before + Framed(strings[0]), strings[1..]);
    }
  }

  lemma ParseOfEncode(texts: seq<string>)
    requires Fit(texts)
    ensures Parse(EncodeTexts(texts), 0) == Ok(texts)
  {
    TextsOfEncode(texts);
    ParseOfFrames([], EncodeEach(texts));
    assert [] + EncodeTexts(texts) == EncodeTexts(texts);
  }

  lemma {:induction false} EncodeOfParse(raw: seq<Byte>, offset: nat)
    requires offset <= |raw| && Parse(raw, offset).Ok?
    ensures Fit(Parse(raw, offset).value) && EncodeTexts(Parse(raw, offset).value) == raw[offset..]
    decreases |raw| - offset
  {
    if offset < |raw| {
      var (text, next) := ReadElement(raw, offset).value;
      ElementIsFramed(raw, offset);
      EncodeOfParse(raw, next);
      var rest := Parse(raw, next).value;
      assert Parse(raw, offset).value[1..] == rest;
    }
  }

  // ---- one raw tensor ------------------------------------------------------

  function TextValues(texts: seq<string>): seq<Value> {
    seq(|texts|, i requires 0 <= i < |texts| => Text(texts[i]))
  }

  /** `decode_raw`. */
  function Decoded(d: Datatype, raw: seq<Byte>, shape: seq<int>): Result<seq<Value>, Error> {
    var count := Elements(shape);
    if count.Err? then Err(count.error)
    else if d.BYTES? then
      var texts := Parse(raw, 0);
      if texts.Err? then Err(texts.error)
      else if |texts.value| != count.value then Err(WrongElementCount)
      else Ok(TextValues(texts.value))
    else
      var format := FormatOf(d);
      if format.None? then Err(UnsupportedDatatype)
      else if |raw| != count.value * format.value.Width() then Err(WrongByteCount)
      else Ok(ReadWords(format.value, raw))
  }

  /** The decoder with its offset. */
  method DecodeRaw(d: Datatype, raw: seq<Byte>, shape: seq<int>) returns (r: Result<seq<Value>, Error>)
    ensures r == Decoded(d, raw, shape)
  {
    var count := Elements(shape);
    if count.Err? {
      return Err(count.error);
    }
    if !d.BYTES? {
      var format := FormatOf(d);
      if format.None? {
        return Err(UnsupportedDatatype);
      }
      if |raw| != count.value * format.value.Width() {
        return Err(WrongByteCount);
      }
      return Ok(ReadWords(format.value, raw));
    }
    var texts := ParseAll(raw);
    if texts.Err? {
      return Err(texts.error);
    }
    if |texts.value| != count.value {
      return Err(WrongElementCount);
    }
    r := Ok(TextValues(texts.value));
  }

  method ParseAll(raw: seq<Byte>) returns (r: Result<seq<string>, Error>)
    ensures r == Parse(raw, 0)
  {
    var out, offset := [], 0;
    OntoComposes([], "", Parse(raw, 0));
    while offset < |raw|
      invariant offset <= |raw|
      invariant Parse(raw, 0) == Onto(out, Parse(raw, offset))
    {
      ghost var element := ReadElement(raw, offset);
      if offset + 4 > |raw| {
        return Err(TruncatedPrefix);
      }
      var length := ReadLe(raw[offset..offset + 4]);
      offset := offset + 4;
      if offset + length > |raw| {
        return Err(ElementPastEnd);
      }
      var text := Decode(raw[offset..offset + length]);
      if text.None? {
        return Err(NotUtf8);
      }
      OntoComposes(out, text.value, Parse(raw, offset + length));
      out := out + [text.value];
      offset := offset + length;
    }
    OntoComposes(out, "", Ok([]));
    r := Ok(out);
  }

  /** A `BYTES` tensor is accepted exactly when its bytes are the concatenation of `product(shape)`
      length-prefixed UTF-8 elements - and then those elements are the answer. */
  lemma BytesAcceptedIff(raw: seq<Byte>, shape: seq<int>)
    ensures Decoded(BYTES, raw, shape).Ok? <==>
            NonNegative(shape) &&
            exists texts :: Fit(texts) && |texts| == Product(shape) && raw == EncodeTexts(texts)
    ensures forall texts ::
              Fit(texts) && |texts| == Product(shape) && NonNegative(shape) && raw == EncodeTexts(texts) ==>
              Decoded(BYTES, raw, shape) == Ok(TextValues(texts))
  {
    if Parse(raw, 0).Ok? {
      EncodeOfParse(raw, 0);
    }
    forall texts | Fit(texts) && raw == EncodeTexts(texts)
      ensures Parse(raw, 0) == Ok(texts)
    {
      ParseOfEncode(texts);
    }
  }

  // ---- datatype by datatype ------------------------------------------------

  /** The number a little-endian word spells out, half by half. */
  function Spelled(word: seq<Byte>): int
    requires |word| in {1, 2, 4, 8}
    decreases |word|
  {
    if |word| == 1 then word[0]
    else if |word| == 2 then Spelled(word[..1]) + 0x100 * Spelled(word[1..])
    else if |word| == 4 then Spelled(word[..2]) + 0x1_0000 * Spelled(word[2..])
    else Spelled(word[..4]) + 0x1_0000_0000 * Spelled(word[4..])
  }

  lemma ReadStep(first: int, rest: int, p: int, r: int)
    ensures first + 256 * (rest + p * r) == first + 256 * rest + 256 * p * r
  {
  }

  lemma {:induction false} ReadOfBoth(a: seq<Byte>, b: seq<Byte>)
    ensures ReadLe(a + b) == ReadLe(a) + Pow256(|a|) * ReadLe(b)
  {
    if a == [] {
      assert a + b == b;
      assert Pow256(0) * ReadLe(b) == ReadLe(b);
    } else {
      ReadOfBoth(a[1..], b);
      ReadFirst(a, b);
      ReadStep(a[0], ReadLe(a[1..]), Pow256(|a| - 1), ReadLe(b));
    }
  }

  lemma ReadFirst(a: seq<Byte>, b: seq<Byte>)
    requires a != []
    ensures ReadLe(a + b) == a[0] as int + 256 * ReadLe(a[1..] + b)
    ensures ReadLe(a) == a[0] as int + 256 * ReadLe(a[1..]) && Pow256(|a|) == 256 * Pow256(|a| - 1)
  {
    assert (a + b)[1..] == a[1..] + b;
  }

  lemma {:induction false} ReadIsSpelled(word: seq<Byte>)
    requires |word| in {1, 2, 4, 8}
    ensures ReadLe(word) == Spelled(word)
    decreases |word|
  {
    if |word| > 1 {
      var half := |word| / 2;
      assert word == word[..half] + word[half..];
      ReadOfBoth(word[..half], word[half..]);
      ReadIsSpelled(word[..half]);
      ReadIsSpelled(word[half..]);
      SizesOfWords();
    }
  }

  lemma SizesOfWords()
    ensures Pow256(1) == 0x100 && Pow256(2) == 0x1_0000 && Pow256(4) == 0x1_0000_0000
    ensures Pow256(8) == 0x1_0000_0000_0000_0000
  {
    assert Pow256(3) == 256 * Pow256(2) && Pow256(5) == 256 * Pow256(4);
    assert Pow256(6) == 256 * Pow256(5) && Pow256(7) == 256 * Pow256(6);
  }

  /** The value of one word, datatype by datatype: signed integers are two's complement. */
  predicate IsValueOf(d: Datatype, word: seq<Byte>, v: Value) {
    match d
    case BOOL => |word| == 1 && v == Bool(word[0] != 0)
    case INT8 => |word| == 1 && v == Int(if word[0] >= 128 then Spelled(word) - 0x100 else Spelled(word))
    case INT16 => |word| == 2 && v == Int(if word[1] >= 128 then Spelled(word) - 0x1_0000 else Spelled(word))
    case INT32 => |word| == 4 && v == Int(if word[3] >= 128 then Spelled(word) - 0x1_0000_0000 else Spelled(word))
    case INT64 =>
      |word| == 8 && v == Int(if word[7] >= 128 then Spelled(word) - 0x1_0000_0000_0000_0000 else Spelled(word))
    case UINT8 => |word| == 1 && v == Int(Spelled(word))
    case UINT16 => |word| == 2 && v == Int(Spelled(word))
    case UINT32 => |word| == 4 && v == Int(Spelled(word))
    case UINT64 => |word| == 8 && v == Int(Spelled(word))
    case FP16 => |word| == 2 && v == Float(word)
    case FP32 => |word| == 4 && v == Float(word)
    case FP64 => |word| == 8 && v == Float(word)
    case _ => false
  }

  /** The sign of a two's complement word is in its last byte. */
  lemma SignIsLast(word: seq<Byte>)
    requires word != []
    ensures 2 * ReadLe(word) >= Pow256(|word|) <==> word[|word| - 1] >= 128
  {
    var n := |word| - 1;
    var last := [word[n]];
    assert word == word[..n] + last;
    ReadOfBoth(word[..n], last);
    assert ReadLe(last) == word[n] as int by {
      assert last[1..] == [];
    }
    HalfOf(ReadLe(word[..n]), Pow256(n), word[n]);
  }

  lemma HalfOf(low: int, p: int, last: int)
    requires 0 <= low < p && 0 <= last < 256
    ensures 2 * (low + p * last) >= 256 * p <==> last >= 128
  {
    if last >= 128 {
      assert p * (last - 128) >= 0;
    } else {
      assert p * (127 - last) >= 0;
    }
  }

  lemma WordIsValue(d: Datatype, word: seq<Byte>)
    requires FormatOf(d).Some? && |word| == FormatOf(d).value.Width()
    ensures IsValueOf(d, word, ReadWord(FormatOf(d).value, word))
  {
    SizesOfWords();
    if !d.BOOL? {
      ReadIsSpelled(word);
      SignIsLast(word);
    }
  }

  lemma OneMoreTime(n: int, w: int)
    ensures n * w == (n - 1) * w + w
  {
  }

  lemma {:induction false} WordCount(f: Format, raw: seq<Byte>, n: nat)
    requires f.Width() > 0 && |raw| == n * f.Width()
    ensures |ReadWords(f, raw)| == n
  {
    OneMoreTime(n, f.Width());
    if n > 0 {
      assert (n - 1) * f.Width() >= 0;
      WordCount(f, raw[f.Width()..], n - 1);
    }
  }

  lemma OneWordOn(raw: seq<Byte>, at: nat, w: nat)
    requires w <= at && at + w <= |raw|
    ensures raw[w..][at - w..at - w + w] == raw[at..at + w]
  {
  }

  /** The word that begins at `at`, the `i`-th of its width. */
  lemma {:induction false} WordAt(f: Format, raw: seq<Byte>, i: nat, at: nat)
    requires f.Width() > 0 && at == i * f.Width() && at + f.Width() <= |raw|
    ensures i < |ReadWords(f, raw)| && ReadWords(f, raw)[i] == ReadWord(f, raw[at..at + f.Width()])
    decreases i
  {
    var w := f.Width();
    assert ReadWords(f, raw) == [ReadWord(f, raw[..w])] + ReadWords(f, raw[w..]);
    if i > 0 {
      OneMoreTime(i, w);
      ProductOfNats(i - 1, w);
      OneWordOn(raw, at, w);
      WordAt(f, raw[w..], i - 1, at - w);
    } else {
      assert at == 0 && raw[0..0 + w] == raw[..w];
    }
  }

  lemma ProductOfNats(a: nat, b: nat)
    ensures a * b >= 0
  {
  }

  lemma WordIsInside(i: nat, n: nat, w: nat)
    requires i < n
    ensures 0 <= i * w && i * w + w <= n * w
  {
    assert (n - i - 1) * w >= 0;
    assert n * w == i * w + w + (n - i - 1) * w;
  }

  /** The number of bytes an element of the datatype takes. */
  function BytesOf(d: Datatype): nat {
    match d
    case BOOL => 1
    case INT8 => 1
    case UINT8 => 1
    case INT16 => 2
    case UINT16 => 2
    case FP16 => 2
    case INT32 => 4
    case UINT32 => 4
    case FP32 => 4
    case INT64 => 8
    case UINT64 => 8
    case FP64 => 8
    case _ => 0
  }

  /** Every element is the value of its own word. */
  predicate AreValues(d: Datatype, raw: seq<Byte>, vs: seq<Value>) {
    |raw| == |vs| * BytesOf(d) &&
    forall i: nat | i < |vs| ::
      0 <= i * BytesOf(d) && i * BytesOf(d) + BytesOf(d) <= |raw| &&
      IsValueOf(d, raw[i * BytesOf(d)..i * BytesOf(d) + BytesOf(d)], vs[i])
  }

  lemma WordsAreValues(d: Datatype, raw: seq<Byte>, n: nat)
    requires FormatOf(d).Some? && |raw| == n * BytesOf(d)
    ensures AreValues(d, raw, ReadWords(FormatOf(d).value, raw)) && |ReadWords(FormatOf(d).value, raw)| == n
  {
    var f, w := FormatOf(d).value, BytesOf(d);
    WordCount(f, raw, n);
    forall i: nat | i < n
      ensures 0 <= i * w && i * w + w <= |raw| && IsValueOf(d, raw[i * w..i * w + w], ReadWords(f, raw)[i])
    {
      WordIsInside(i, n, w);
      WordAt(f, raw, i, i * w);
      WordIsValue(d, raw[i * w..i * w + w]);
    }
  }

  /** A raw tensor of fixed-width elements: a negative dimension is refused, then a number of bytes that is not the
      product of the dimensions times the width; otherwise there are that many values, each of its own word. */
  lemma RawWordsAre(d: Datatype, raw: seq<Byte>, shape: seq<int>)
    requires !d.BYTES? && !d.Other?
    ensures
      var r := Decoded(d, raw, shape);
      if exists i | 0 <= i < |shape| :: shape[i] < 0 then r == Err(NegativeDimension)
      else if |raw| != Product(shape) * BytesOf(d) then r == Err(WrongByteCount)
      else r.Ok? && |r.value| == Product(shape) && AreValues(d, raw, r.value)
  {
    if NonNegative(shape) {
      ProductIsNat(shape);
      if |raw| == Product(shape) * BytesOf(d) {
        WordsAreValues(d, raw, Product(shape));
      }
    }
  }

  /** A datatype of another name is refused, once its dimensions are not negative. */
  lemma OthersAreRefused(name: string, raw: seq<Byte>, shape: seq<int>)
    ensures Decoded(Other(name), raw, shape) ==
            if exists i | 0 <= i < |shape| :: shape[i] < 0 then Err(NegativeDimension) else Err(UnsupportedDatatype)
  {
  }

  /** The number of elements is the product of the dimensions; a scalar has one. */
  lemma {:induction false} ProductOfBoth(a: seq<int>, b: seq<int>, n: int)
    ensures Product(a + b) == Product(a) * Product(b) && Product([n]) == n && Product([]) == 1
  {
    if a == [] {
      assert a + b == b;
    } else {
      assert (a + b)[1..] == a[1..] + b;
      ProductOfBoth(a[1..], b, n);
      assert a[0] * (Product(a[1..]) * Product(b)) == (a[0] * Product(a[1..])) * Product(b);
    }
    assert [n][1..] == [];
  }

  // ---- typed contents ------------------------------------------------------

  /** `InferTensorContents`: one list per field. */
  datatype Contents = Contents(bools: seq<bool>, ints: seq<int>, longs: seq<int>, uints: seq<int>,
                               ulongs: seq<int>, floats: seq<seq<Byte>>, doubles: seq<seq<Byte>>,
                               strings: seq<seq<Byte>>)

  const EMPTY := Contents([], [], [], [], [], [], [], [])

  function IntValues(ns: seq<int>): seq<Value> {
    seq(|ns|, i requires 0 <= i < |ns| => Int(ns[i]))
  }

  function BoolValues(bs: seq<bool>): seq<Value> {
    seq(|bs|, i requires 0 <= i < |bs| => Bool(bs[i]))
  }

  function FloatValues(xs: seq<seq<Byte>>): seq<Value> {
    seq(|xs|, i requires 0 <= i < |xs| => Float(xs[i]))
  }

  /** The field a datatype is read from, as values; `BYTES` is read as text below. */
  function Field(d: Datatype, c: Contents): seq<Value> {
    match d
    case BOOL => BoolValues(c.bools)
    case INT8 => IntValues(c.ints)
    case INT16 => IntValues(c.ints)
    case INT32 => IntValues(c.ints)
    case INT64 => IntValues(c.longs)
    case UINT8 => IntValues(c.uints)
    case UINT16 => IntValues(c.uints)
    case UINT32 => IntValues(c.uints)
    case UINT64 => IntValues(c.ulongs)
    case FP32 => FloatValues(c.floats)
    case FP64 => FloatValues(c.doubles)
    case _ => []
  }

  function Typed(d: Datatype, c: Contents): Result<seq<Value>, Error> {
    match d
    case FP16 => Err(MustBeRaw)
    case Other(_) => Err(MustBeRaw)
    case BYTES => if Texts(c.strings).None? then Err(NotUtf8) else Ok(TextValues(Texts(c.strings).value))
    case _ => Ok(Field(d, c))
  }

  predicate AreInts(r: Result<seq<Value>, Error>, ns: seq<int>) {
    r.Ok? && |r.value| == |ns| && forall i | 0 <= i < |ns| :: r.value[i] == Int(ns[i])
  }

  predicate AreFloats(r: Result<seq<Value>, Error>, xs: seq<seq<Byte>>) {
    r.Ok? && |r.value| == |xs| && forall i | 0 <= i < |xs| :: r.value[i] == Float(xs[i])
  }

  lemma {:induction false} TextsIff(strings: seq<seq<Byte>>)
    ensures Texts(strings).Some? <==> forall i | 0 <= i < |strings| :: Decode(strings[i]).Some?
    ensures Texts(strings).Some? ==>
              |Texts(strings).value| == |strings| &&
              forall i | 0 <= i < |strings| :: Decode(strings[i]) == Some(Texts(strings).value[i])
  {
    if strings != [] {
      TextsIff(strings[1..]);
      assert forall i | 0 < i < |strings| :: strings[i] == strings[1..][i - 1];
      assert forall i | 0 <= i < |strings[1..]| :: strings[1..][i] == strings[i + 1];
    }
  }

  /** Which field of the contents each datatype is read from; two datatypes have none. */
  lemma TypedReadsItsField(d: Datatype, c: Contents)
    ensures d in {INT8, INT16, INT32} ==> AreInts(Typed(d, c), c.ints)
    ensures d in {UINT8, UINT16, UINT32} ==> AreInts(Typed(d, c), c.uints)
    ensures (d == INT64 ==> AreInts(Typed(d, c), c.longs)) && (d == UINT64 ==> AreInts(Typed(d, c), c.ulongs))
    ensures (d == FP32 ==> AreFloats(Typed(d, c), c.floats)) && (d == FP64 ==> AreFloats(Typed(d, c), c.doubles))
    ensures d == BOOL ==> Typed(d, c).Ok? && |Typed(d, c).value| == |c.bools| &&
                          forall i | 0 <= i < |c.bools| :: Typed(d, c).value[i] == Bool(c.bools[i])
    ensures d == BYTES ==>
              if forall i | 0 <= i < |c.strings| :: Decode(c.strings[i]).Some? then
                Typed(d, c).Ok? && |Typed(d, c).value| == |c.strings| &&
                forall i | 0 <= i < |c.strings| :: Typed(d, c).value[i] == Text(Decode(c.strings[i]).value)
              else Typed(d, c) == Err(NotUtf8)
    ensures d == FP16 || d.Other? ==> Typed(d, c) == Err(MustBeRaw)
  {
    TextsIff(c.strings);
  }

  /** A typed tensor the protocol allows: as many values as the shape says, each one a value of the
      datatype, and a datatype that has a typed field. */
  predicate WellTyped(d: Datatype, c: Contents, shape: seq<int>) {
    && !d.FP16? && !d.Other? && NonNegative(shape)
    && if d.BYTES? then |c.strings| == Product(shape) && forall bs <- c.strings :: |bs| < LIMIT
       else |Field(d, c)| == Product(shape) && forall v <- Field(d, c) :: FitsWord(FormatOf(d).value, v)
  }

  /** The same tensor in raw form. */
  function RawForm(d: Datatype, c: Contents, shape: seq<int>): seq<Byte>
    requires WellTyped(d, c, shape)
  {
    if d.BYTES? then FrameAll(c.strings) else WriteWords(FormatOf(d).value, Field(d, c))
  }

  /** Typed or raw, the same tensor gives the same values - and the same refusal when it holds an
      element that is not text. */
  lemma RawFormMeansTheSame(d: Datatype, c: Contents, shape: seq<int>)
    requires WellTyped(d, c, shape)
    ensures Decoded(d, RawForm(d, c, shape), shape) == Typed(d, c)
  {
    if d.BYTES? {
      ParseOfFrames([], c.strings);
      assert [] + FrameAll(c.strings) == FrameAll(c.strings);
    } else {
      ReadOfWriteWords(FormatOf(d).value, Field(d, c));
      WordsSize(FormatOf(d).value, Field(d, c));
    }
  }

  // ---- the request ---------------------------------------------------------

  datatype Tensor = Tensor(name: string, datatype_: Datatype, shape: seq<int>, contents: Option<Contents>)

  datatype Request = Request(id: string, inputs: seq<Tensor>, raw: seq<seq<Byte>>)

  datatype Entry = Entry(name: string, shape: seq<int>, datatype_: Datatype, data: seq<Value>)

  datatype Body = Body(id: string, inputs: seq<Entry>)

  function ConvertOne(r: Request, i: nat): Result<Entry, Error>
    requires i < |r.inputs| && (r.raw != [] ==> |r.raw| == |r.inputs|)
  {
    var t := r.inputs[i];
    var data :=
      if r.raw != [] then
        if t.contents.Some? then Err(BothForms) else Decoded(t.datatype_, r.raw[i], t.shape)
      else Typed(t.datatype_, if t.contents.Some? then t.contents.value else EMPTY);
    if data.Err? then Err(data.error) else Ok(Entry(t.name, t.shape, t.datatype_, data.value))
  }

  /** Inputs `i` and on; the first refusal ends the conversion. */
  function ConvertFrom(r: Request, i: nat): Result<seq<Entry>, Error>
    requires i <= |r.inputs| && (r.raw != [] ==> |r.raw| == |r.inputs|)
    decreases |r.inputs| - i
  {
    if i == |r.inputs| then Ok([])
    else
      var entry := ConvertOne(r, i);
      if entry.Err? then Err(entry.error)
      else
        Onto([entry.value], ConvertFrom(r, i + 1))
  }

  function Converted(r: Request): Result<Body, Error> {
    if r.raw != [] && |r.raw| != |r.inputs| then Err(RawCountMismatch)
    else
      var entries := ConvertFrom(r, 0);
      if entries.Err? then Err(entries.error) else Ok(Body(r.id, entries.value))
  }

  /** `request_to_json`. */
  method RequestToJson(r: Request) returns (body: Result<Body, Error>)
    ensures body == Converted(r)
  {
    if r.raw != [] && |r.raw| != |r.inputs| {
      return Err(RawCountMismatch);
    }
    var inputs := [];
    ghost var none := Entry("", [], BYTES, []);
    OntoComposes(inputs, none, ConvertFrom(r, 0));
    for i := 0 to |r.inputs|
      invariant ConvertFrom(r, 0) == Onto(inputs, ConvertFrom(r, i))
    {
      var tensor := r.inputs[i];
      var data;
      if r.raw != [] {
        if tensor.contents.Some? {
          return Err(BothForms);
        }
        data := DecodeRaw(tensor.datatype_, r.raw[i], tensor.shape);
      } else {
        data := Typed(tensor.datatype_, if tensor.contents.Some? then tensor.contents.value else EMPTY);
      }
      if data.Err? {
        return Err(data.error);
      }
      var entry := Entry(tensor.name, tensor.shape, tensor.datatype_, data.value);
      OntoComposes(inputs, entry, ConvertFrom(r, i + 1));
      inputs := inputs + [entry];
    }
    OntoComposes(inputs, none, Ok([]));
    body := Ok(Body(r.id, inputs));
  }

  function Sent(t: Tensor): Contents { if t.contents.Some? then t.contents.value else EMPTY }

  predicate AllWellTyped(inputs: seq<Tensor>) {
    forall i | 0 <= i < |inputs| :: WellTyped(inputs[i].datatype_, Sent(inputs[i]), inputs[i].shape)
  }

  /** The request with every tensor moved from its typed field to `raw_input_contents`. */
  function SentRaw(r: Request): Request
    requires AllWellTyped(r.inputs)
  {
    Request(r.id,
            seq(|r.inputs|, i requires 0 <= i < |r.inputs| => r.inputs[i].(contents := None)),
            seq(|r.inputs|, i requires 0 <= i < |r.inputs| =>
              RawForm(r.inputs[i].datatype_, Sent(r.inputs[i]), r.inputs[i].shape)))
  }

  lemma {:induction false} SameEntries(r: Request, i: nat)
    requires r.raw == [] && AllWellTyped(r.inputs) && i <= |r.inputs|
    ensures ConvertFrom(SentRaw(r), i) == ConvertFrom(r, i)
    decreases |r.inputs| - i
  {
    if i < |r.inputs| {
      RawFormMeansTheSame(r.inputs[i].datatype_, Sent(r.inputs[i]), r.inputs[i].shape);
      SameEntries(r, i + 1);
    }
  }

  /** The same request sent typed or raw yields the same REST body. */
  lemma TypedAndRawAgree(r: Request)
    requires r.raw == [] && AllWellTyped(r.inputs)
    ensures Converted(SentRaw(r)) == Converted(r)
  {
    SameEntries(r, 0);
  }
}
