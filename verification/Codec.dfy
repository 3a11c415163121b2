/** The key encoding: byte order is value order (data/memcmp.rs, data/tuple.rs). */
module Codec {
  import opened Wrappers
  import opened Values
  import opened Bytes
  import opened Floats
  import opened ValueOrder

  const NULL_TAG: byte := 0x01
  const FALSE_TAG: byte := 0x02
  const TRUE_TAG: byte := 0x03
  const VEC_TAG: byte := 0x04
  const NUM_TAG: byte := 0x05
  const STR_TAG: byte := 0x06
  const BYTES_TAG: byte := 0x07
  const UUID_TAG: byte := 0x08
  const REGEX_TAG: byte := 0x09
  const LIST_TAG: byte := 0x0A
  const SET_TAG: byte := 0x0B
  const VLD_TAG: byte := 0x0C
  const JSON_TAG: byte := 0x0D
  const BOT_TAG: byte := 0xFF
  const INIT_TAG: byte := 0x00

  const VEC_F32: byte := 0x01
  const VEC_F64: byte := 0x02

  const IS_FLOAT: byte := 0x10
  const IS_APPROX_INT: byte := 0x04
  const IS_EXACT_INT: byte := 0x00
  const EXACT_INT_BOUND: int := 0x20_0000_0000_0000

  const ENC_GROUP_SIZE: nat := 8
  const ENC_MARKER: byte := 0xFF

  // ----- byte strings -----

  /** The first `n` bytes, filled up with zeros. */
  function Chunk(s: Bytes, n: nat): (r: Bytes)
    ensures |r| == n
  {
    if n == 0 then []
    else if s == [] then [0] + Chunk([], n - 1)
    else [s[0]] + Chunk(s[1..], n - 1)
  }

  lemma {:induction false} ChunkIs(s: Bytes, n: nat)
    ensures |s| >= n ==> Chunk(s, n) == s[..n]
    ensures |s| < n ==> Chunk(s, n) == s + seq(n - |s|, _ => 0)
    decreases n
  {
    if n > 0 {
      if s == [] {
        ChunkIs([], n - 1);
      } else {
        ChunkIs(s[1..], n - 1);
        assert s == [s[0]] + s[1..];
      }
    }
  }

  function Marker(s: Bytes): byte {
    if |s| >= ENC_GROUP_SIZE then ENC_MARKER else ENC_MARKER - (ENC_GROUP_SIZE - |s|)
  }

  /** Groups of eight bytes, each followed by a marker that counts the padding. */
  function EncBytes(s: Bytes): Bytes {
    Chunk(s, ENC_GROUP_SIZE) + [Marker(s)] + if |s| >= ENC_GROUP_SIZE then EncBytes(s[ENC_GROUP_SIZE..]) else []
  }

  function DecBytes(data: Bytes): (r: Option<(Bytes, Bytes)>)
    ensures r.Some? ==> |r.value.1| < |data|
  {
    if |data| <= ENC_GROUP_SIZE then None
    else
      var pad := ENC_MARKER - data[ENC_GROUP_SIZE];
      if pad == 0 then
        match DecBytes(data[ENC_GROUP_SIZE + 1..])
        case None => None
        case Some((key, rest)) => Some((data[..ENC_GROUP_SIZE] + key, rest))
      else if pad > ENC_GROUP_SIZE then None
      else Some((data[..ENC_GROUP_SIZE - pad], data[ENC_GROUP_SIZE + 1..]))
  }

  lemma {:induction false} BytesBack(s: Bytes, rest: Bytes)
    ensures DecBytes(EncBytes(s) + rest) == Some((s, rest))
    decreases |s|
  {
    hide Chunk;
    var data := EncBytes(s) + rest;
    ChunkIs(s, ENC_GROUP_SIZE);
    assert data[..ENC_GROUP_SIZE] == Chunk(s, ENC_GROUP_SIZE);
    assert data[ENC_GROUP_SIZE] == Marker(s);
    if |s| >= ENC_GROUP_SIZE {
      BytesBack(s[ENC_GROUP_SIZE..], rest);
      assert data[ENC_GROUP_SIZE + 1..] == EncBytes(s[ENC_GROUP_SIZE..]) + rest;
      assert s == s[..ENC_GROUP_SIZE] + s[ENC_GROUP_SIZE..];
    } else {
      assert data[ENC_GROUP_SIZE + 1..] == rest;
      assert data[..|s|] == Chunk(s, ENC_GROUP_SIZE)[..|s|] == s;
    }
  }

  /** A group decides, or its padding does, or what follows it. */
  lemma {:induction false} ChunkOrder(s: Bytes, t: Bytes, n: nat)
    requires LexLess(s, t)
    ensures Below(Chunk(s, n), Chunk(t, n)) ||
      (&& Chunk(s, n) == Chunk(t, n)
       && (if |s| < n then |s| < |t| else |t| >= n && LexLess(s[n..], t[n..])))
    decreases n
  {
    if n > 0 {
      if s == [] {
        assert Chunk(t, n)[1..] == Chunk(t[1..], n - 1) && Chunk(s, n)[1..] == Chunk([], n - 1);
        if t[0] == 0 && t[1..] != [] {
          ChunkOrder([], t[1..], n - 1);
        }
      } else {
        assert Chunk(t, n)[1..] == Chunk(t[1..], n - 1) && Chunk(s, n)[1..] == Chunk(s[1..], n - 1);
        if s[0] == t[0] {
          ChunkOrder(s[1..], t[1..], n - 1);
          if |s| >= n && |t| >= n {
            assert s[1..][n - 1..] == s[n..] && t[1..][n - 1..] == t[n..];
          }
        }
      }
    }
  }

  lemma FirstDecides(x: Bytes, y: Bytes)
    requires x != [] && y != [] && x[0] < y[0]
    ensures Below(x, y)
  {
  }

  lemma {:induction false} BytesOrder(s: Bytes, t: Bytes)
    requires LexLess(s, t)
    ensures Below(EncBytes(s), EncBytes(t))
    decreases |s|
  {
    hide EncBytes, Chunk, LexLess, Below;
    var n := ENC_GROUP_SIZE;
    ChunkOrder(s, t, n);
    EncBytesIs(s);
    EncBytesIs(t);
    var x := [Marker(s)] + if |s| >= n then EncBytes(s[n..]) else [];
    var y := [Marker(t)] + if |t| >= n then EncBytes(t[n..]) else [];
    assert EncBytes(s) == Chunk(s, n) + x && EncBytes(t) == Chunk(t, n) + y;
    if Below(Chunk(s, n), Chunk(t, n)) {
      BelowAppend(Chunk(s, n), Chunk(t, n), x, y);
    } else {
      if |s| >= n {
        BytesOrder(s[n..], t[n..]);
        BelowAfter([Marker(s)], EncBytes(s[n..]), EncBytes(t[n..]));
      } else {
        FirstDecides(x, y);
      }
      BelowAfter(Chunk(s, n), x, y);
    }
  }

  // ----- numbers -----

  predicate IsExact(i: i64) {
    -EXACT_INT_BOUND < i < EXACT_INT_BOUND
  }

  function NumTail(n: Num): Bytes {
    match n
    case Int(i) => if IsExact(i) then [IS_EXACT_INT] else [IS_APPROX_INT] + Word(OrderEncodeI64(i))
    case Float(_) => [IS_FLOAT]
  }

  /** The double first, then what tells integers apart that share it. */
  function EncNum(n: Num): Bytes {
    Word(OrderEncodeF64(FloatOf(n))) + NumTail(n)
  }

  function DecNum(bs: Bytes): (r: Option<(Num, Bytes)>)
    ensures r.Some? ==> |r.value.1| < |bs|
  {
    if |bs| < 9 then None
    else
      var bits := OrderDecodeF64(ReadWord(bs[..8]));
      var tag, rest := bs[8], bs[9..];
      if tag == IS_FLOAT then Some((Float(bits), rest))
      else if tag == IS_EXACT_INT then Some((Int(IntOfF64(bits)), rest))
      else if tag == IS_APPROX_INT && |rest| >= 8 then Some((Int(OrderDecodeI64(ReadWord(rest[..8]))), rest[8..]))
      else None
  }

  function ReadWord(bs: Bytes): (u: u64)
    requires |bs| == 8
  {
    WordFits();
    FromBound(bs);
    FromBigEndian(bs)
  }

  lemma NumBack(n: Num, rest: Bytes)
    ensures DecNum(EncNum(n) + rest) == Some((n, rest))
  {
    hide F64OfInt, IntOfF64, Word, FromBigEndian, OrderEncodeF64, OrderDecodeF64, OrderEncodeI64, OrderDecodeI64;
    var bits := FloatOf(n);
    var bs := EncNum(n) + rest;
    OrderCodesBack(bits, 0);
    WordBack(OrderEncodeF64(bits));
    assert bs[..8] == Word(OrderEncodeF64(bits));
    assert bs[8..] == NumTail(n) + rest;
    assert bs[9..] == bs[8..][1..];
    match n
    case Float(_) => assert bs[9..] == rest;
    case Int(i) =>
      if IsExact(i) {
        ConversionBack(i);
        assert bs[9..] == rest;
      } else {
        OrderCodesBack(bits, i);
        WordBack(OrderEncodeI64(i));
        assert bs[9..] == Word(OrderEncodeI64(i)) + rest;
        assert bs[9..][..8] == Word(OrderEncodeI64(i)) && bs[9..][8..] == rest;
      }
  }

  lemma TailOrder(a: Num, b: Num)
    requires TotalKey(FloatOf(a)) == TotalKey(FloatOf(b)) && CmpNum(a, b) == Less
    ensures Below(NumTail(a), NumTail(b))
  {
    if a.Int? && b.Int? {
      ConversionOrder(a.i, b.i);
      WordOrder(OrderEncodeI64(a.i), OrderEncodeI64(b.i));
      BelowAfter([IS_APPROX_INT], Word(OrderEncodeI64(a.i)), Word(OrderEncodeI64(b.i)));
    }
  }

  lemma NumLess(a: Num, b: Num)
    requires CmpNum(a, b) == Less
    ensures Below(EncNum(a), EncNum(b))
  {
    var k, l := FloatOf(a), FloatOf(b);
    OrderCodesBack(k, 0);
    OrderCodesBack(l, 0);
    if a.Int? && b.Int? {
      ConversionOrder(a.i, b.i);
    }
    if TotalKey(k) < TotalKey(l) {
      WordOrder(OrderEncodeF64(k), OrderEncodeF64(l));
      BelowAppend(Word(OrderEncodeF64(k)), Word(OrderEncodeF64(l)), NumTail(a), NumTail(b));
    } else {
      TailOrder(a, b);
      BelowAfter(Word(OrderEncodeF64(k)), NumTail(a), NumTail(b));
    }
  }

  lemma NumEqual(a: Num, b: Num)
    ensures CmpNum(a, b) == Equal <==> a == b
    ensures CmpNum(a, b) == Greater ==> CmpNum(b, a) == Less
  {
    TotalKeyDetermines(FloatOf(a), FloatOf(b));
  }

  // ----- values -----

  function Tag(v: DataValue): (t: byte)
    ensures t > INIT_TAG
  {
    match v
    case Null => NULL_TAG
    case Bool(b) => if b then TRUE_TAG else FALSE_TAG
    case Num(_) => NUM_TAG
    case Str(_) => STR_TAG
    case Bytes(_) => BYTES_TAG
    case Uuid(_) => UUID_TAG
    case Regex(_) => REGEX_TAG
    case List(_) => LIST_TAG
    case Set(_) => SET_TAG
    case Vec(_) => VEC_TAG
    case Json(_) => JSON_TAG
    case Vld(_) => VLD_TAG
    case Bot => BOT_TAG
  }

  /** Complemented, so that later timestamps come first. */
  function EncValidity(v: Validity): Bytes {
    Word(WORD - 1 - OrderEncodeI64(v.ts)) + [if v.isAssert then 0 else 1]
  }

  function EncElems(es: seq<nat>, width: nat): Bytes {
    if es == [] then [] else BigEndian(es[0], width) + EncElems(es[1..], width)
  }

  /** Lengths are written as words. */
  function Wrapped(n: nat): u64 {
    n % WORD
  }

  function EncVec(v: Vector): Bytes {
    match v
    case F32(es) => [VEC_F32] + Word(Wrapped(|es|)) + EncElems(es, 4)
    case F64(es) => [VEC_F64] + Word(Wrapped(|es|)) + EncElems(es, 8)
  }

  function Payload(v: DataValue): Bytes
    decreases v, 1
  {
    match v
    case Null => []
    case Bool(_) => []
    case Num(n) => EncNum(n)
    case Str(s) => EncBytes(s)
    case Bytes(s) => EncBytes(s)
    case Uuid(u) => u
    case Regex(s) => EncBytes(s)
    case List(items) => EncSeq(items) + [INIT_TAG]
    case Set(members) => EncSeq(members) + [INIT_TAG]
    case Vec(x) => EncVec(x)
    case Json(s) => EncBytes(s)
    case Vld(x) => EncValidity(x)
    case Bot => []
  }

  function Enc(v: DataValue): (r: Bytes)
    ensures r != [] && r[0] == Tag(v)
    decreases v, 2
  {
    [Tag(v)] + Payload(v)
  }

  function EncSeq(vs: seq<DataValue>): Bytes
    decreases vs, 0
  {
    if vs == [] then [] else Enc(vs[0]) + EncSeq(vs[1..])
  }

  // ----- order -----

  /** What the types of the source guarantee: identifiers of sixteen bytes, and lengths that fit a word. */
  ghost predicate Sized(v: DataValue)
    decreases v, 1
  {
    match v
    case Uuid(u) => |u| == 16
    case Vec(F32(es)) => |es| < WORD
    case Vec(F64(es)) => |es| < WORD
    case List(items) => AllSized(items)
    case Set(members) => AllSized(members)
    case _ => true
  }

  ghost predicate AllSized(vs: seq<DataValue>)
    decreases vs, 0
  {
    vs == [] || (Sized(vs[0]) && AllSized(vs[1..]))
  }

  function Elems(v: Vector): seq<nat> {
    match v
    case F32(es) => es
    case F64(es) => es
  }

  /** Vectors by kind, then by length, then by the bit patterns of their elements. */
  function CmpPatterns(a: Vector, b: Vector): Ordering {
    if a.F32? != b.F32? then (if a.F32? then Less else Greater)
    else if |Elems(a)| != |Elems(b)| then CmpInt(|Elems(a)|, |Elems(b)|)
    else CmpKeys(Elems(a), Elems(b))
  }

  /** The order that the encoding follows: as that of values, but by tags, and with vectors by bit patterns. */
  function EncodedCmp(a: DataValue, b: DataValue): Ordering
    decreases a, 1
  {
    if Tag(a) != Tag(b) then CmpInt(Tag(a), Tag(b))
    else
      match (a, b)
      case (Vec(x), Vec(y)) => CmpPatterns(x, y)
      case (List(x), List(y)) => EncodedCmpSeq(x, y)
      case (Set(x), Set(y)) => EncodedCmpSeq(x, y)
      case _ => Cmp(a, b)
  }

  function EncodedCmpSeq(a: seq<DataValue>, b: seq<DataValue>): Ordering
    decreases a, 0
  {
    if a == [] then (if b == [] then Equal else Less)
    else if b == [] then Greater
    else
      var c := EncodedCmp(a[0], b[0]);
      if c != Equal then c else EncodedCmpSeq(a[1..], b[1..])
  }

  lemma ValidityOrder(a: Validity, b: Validity)
    requires CmpValidity(a, b) == Less
    ensures Below(EncValidity(a), EncValidity(b))
  {
    var x, y := WORD - 1 - OrderEncodeI64(a.ts), WORD - 1 - OrderEncodeI64(b.ts);
    if a.ts != b.ts {
      WordOrder(x, y);
      BelowAppend(Word(x), Word(y), [if a.isAssert then 0 else 1], [if b.isAssert then 0 else 1]);
    } else {
      BelowAfter(Word(x), [0], [1]);
    }
  }

  lemma TagLess(a: DataValue, b: DataValue)
    requires Tag(a) < Tag(b)
    ensures Below(Enc(a), Enc(b))
  {
  }

  lemma SameTag(a: DataValue, b: DataValue)
    requires Tag(a) == Tag(b) && Below(Payload(a), Payload(b))
    ensures Below(Enc(a), Enc(b))
  {
    BelowAfter([Tag(a)], Payload(a), Payload(b));
  }

  lemma BytesCmp(x: Bytes, y: Bytes)
    ensures CmpBytes(x, y) == Less ==> Below(EncBytes(x), EncBytes(y))
    ensures CmpBytes(x, y) == Greater ==> Below(EncBytes(y), EncBytes(x))
    ensures CmpBytes(x, y) == Equal <==> x == y
  {
    hide EncBytes;
    LexTotal(x, y);
    if CmpBytes(x, y) == Less {
      BytesOrder(x, y);
    } else if CmpBytes(x, y) == Greater {
      BytesOrder(y, x);
    }
  }

  lemma UuidCmp(x: Bytes, y: Bytes)
    requires |x| == |y|
    ensures CmpBytes(x, y) == Less ==> Below(x, y)
    ensures CmpBytes(x, y) == Greater ==> Below(y, x)
    ensures CmpBytes(x, y) == Equal <==> x == y
  {
    LexTotal(x, y);
    SameLength(x, y);
    SameLength(y, x);
  }

  lemma NumCmp(x: Num, y: Num)
    ensures CmpNum(x, y) == Less ==> Below(EncNum(x), EncNum(y))
    ensures CmpNum(x, y) == Greater ==> Below(EncNum(y), EncNum(x))
    ensures CmpNum(x, y) == Equal <==> x == y
  {
    hide EncNum, CmpNum;
    NumEqual(x, y);
    if CmpNum(x, y) == Less {
      NumLess(x, y);
    } else if CmpNum(x, y) == Greater {
      NumLess(y, x);
    }
  }

  lemma VldCmp(x: Validity, y: Validity)
    ensures CmpValidity(x, y) == Less ==> Below(EncValidity(x), EncValidity(y))
    ensures CmpValidity(x, y) == Greater ==> Below(EncValidity(y), EncValidity(x))
    ensures CmpValidity(x, y) == Equal <==> x == y
  {
    hide EncValidity;
    if CmpValidity(x, y) == Less {
      ValidityOrder(x, y);
    } else if CmpValidity(x, y) == Greater {
      ValidityOrder(y, x);
    }
  }

  lemma {:induction false} ElemsCmp(x: seq<nat>, y: seq<nat>, width: nat)
    requires |x| == |y| && forall i :: 0 <= i < |x| ==> x[i] < Pow256(width) && y[i] < Pow256(width)
    ensures CmpKeys(x, y) == Less ==> Below(EncElems(x, width), EncElems(y, width))
    ensures CmpKeys(x, y) == Greater ==> Below(EncElems(y, width), EncElems(x, width))
    ensures CmpKeys(x, y) == Equal <==> x == y
    decreases |x|
  {
    hide Pow256, BigEndian;
    if x != [] {
      var xs, ys := EncElems(x[1..], width), EncElems(y[1..], width);
      if x[0] < y[0] {
        BigEndianOrder(x[0], y[0], width);
        BelowAppend(BigEndian(x[0], width), BigEndian(y[0], width), xs, ys);
      } else if y[0] < x[0] {
        BigEndianOrder(y[0], x[0], width);
        BelowAppend(BigEndian(y[0], width), BigEndian(x[0], width), ys, xs);
      } else {
        ElemsCmp(x[1..], y[1..], width);
        BelowPrefix(BigEndian(x[0], width), xs, ys);
        BelowPrefix(BigEndian(x[0], width), ys, xs);
        assert x == [x[0]] + x[1..] && y == [y[0]] + y[1..];
      }
    }
  }

  function Width(v: Vector): nat {
    if v.F32? then 4 else 8
  }

  lemma EncVecIs(v: Vector)
    requires Sized(Vec(v))
    ensures EncVec(v) == [if v.F32? then VEC_F32 else VEC_F64] + Word(|Elems(v)|) + EncElems(Elems(v), Width(v))
  {
    hide Word, EncElems;
    assert Wrapped(|Elems(v)|) == |Elems(v)|;
  }

  /** Vectors of one kind: the length decides, then the elements. */
  lemma SameKindLess(x: Vector, y: Vector)
    requires Sized(Vec(x)) && Sized(Vec(y)) && x.F32? == y.F32? && CmpPatterns(x, y) == Less
    ensures Below(EncVec(x), EncVec(y))
  {
    hide Word, EncElems, EncVec, Below, Pow256, CmpKeys;
    EncVecIs(x);
    EncVecIs(y);
    var p := [if x.F32? then VEC_F32 else VEC_F64];
    var (xs, ys) := (EncElems(Elems(x), Width(x)), EncElems(Elems(y), Width(x)));
    var k, l := Word(|Elems(x)|), Word(|Elems(y)|);
    if |Elems(x)| == |Elems(y)| {
      WordFits();
      ElemsCmp(Elems(x), Elems(y), Width(x));
      BelowAfter(k, xs, ys);
    } else {
      WordOrder(|Elems(x)|, |Elems(y)|);
      BelowAppend(k, l, xs, ys);
    }
    BelowAfter(p, k + xs, l + ys);
    assert EncVec(x) == p + (k + xs) && EncVec(y) == p + (l + ys);
  }

  lemma VecLess(x: Vector, y: Vector)
    requires Sized(Vec(x)) && Sized(Vec(y)) && CmpPatterns(x, y) == Less
    ensures Below(EncVec(x), EncVec(y))
  {
    if x.F32? == y.F32? {
      SameKindLess(x, y);
    }
  }

  lemma VecCmp(x: Vector, y: Vector)
    requires Sized(Vec(x)) && Sized(Vec(y))
    ensures CmpPatterns(x, y) == Less ==> Below(EncVec(x), EncVec(y))
    ensures CmpPatterns(x, y) == Greater ==> Below(EncVec(y), EncVec(x))
    ensures CmpPatterns(x, y) == Equal <==> x == y
  {
    hide EncVec, Below;
    CmpKeysFlips(Elems(x), Elems(y));
    if CmpPatterns(x, y) == Less {
      VecLess(x, y);
    } else if CmpPatterns(x, y) == Greater {
      VecLess(y, x);
    } else {
      SameKeys(Elems(x), Elems(y));
    }
  }

  lemma {:induction false} SameKeys(x: seq<int>, y: seq<int>)
    requires |x| == |y|
    ensures CmpKeys(x, y) == Equal <==> x == y
    decreases |x|
  {
    if x != [] {
      SameKeys(x[1..], y[1..]);
      assert x == [x[0]] + x[1..] && y == [y[0]] + y[1..];
    }
  }

  /** Encodings sort strictly in their own order, and decide before either ends. */
  lemma {:induction false} EncodedOrder(a: DataValue, b: DataValue)
    requires Sized(a) && Sized(b)
    ensures EncodedCmp(a, b) == Less ==> Below(Enc(a), Enc(b))
    ensures EncodedCmp(a, b) == Greater ==> Below(Enc(b), Enc(a))
    ensures EncodedCmp(a, b) == Equal <==> a == b
    decreases a, 2
  {
    hide Enc, Payload, EncodedCmp, Sized, Below;
    TagsFirst(a, b);
    if Tag(a) == Tag(b) {
      PayloadOrder(a, b);
      if Below(Payload(a), Payload(b)) {
        SameTag(a, b);
      }
      if Below(Payload(b), Payload(a)) {
        SameTag(b, a);
      }
    } else if Tag(a) < Tag(b) {
      TagLess(a, b);
    } else {
      TagLess(b, a);
    }
  }

  lemma TagsFirst(a: DataValue, b: DataValue)
    ensures Tag(a) != Tag(b) ==> EncodedCmp(a, b) == CmpInt(Tag(a), Tag(b))
  {
  }

  /** Behind equal tags the rest decides. */
  lemma {:induction false} PayloadOrder(a: DataValue, b: DataValue)
    requires Sized(a) && Sized(b) && Tag(a) == Tag(b)
    ensures EncodedCmp(a, b) == Less ==> Below(Payload(a), Payload(b))
    ensures EncodedCmp(a, b) == Greater ==> Below(Payload(b), Payload(a))
    ensures EncodedCmp(a, b) == Equal <==> a == b
    decreases a, 1
  {
    hide EncNum, EncBytes, EncVec, EncValidity, CmpNum, CmpBytes, CmpPatterns, CmpValidity, Below;
    match a
    case Null =>
    case Bool(_) =>
    case Bot =>
    case Num(x) => NumCmp(x, b.n);
    case Str(x) => BytesCmp(x, b.text);
    case Bytes(x) => BytesCmp(x, b.bytes);
    case Uuid(x) => UuidCmp(x, b.uuid);
    case Regex(x) => BytesCmp(x, b.pattern);
    case Json(x) => BytesCmp(x, b.json);
    case List(x) => EncodedSeqOrder(x, b.items);
    case Set(x) => EncodedSeqOrder(x, b.members);
    case Vec(x) => VecCmp(x, b.vec);
    case Vld(x) => VldCmp(x, b.vld);
  }

  /** Terminated sequences do the same; the terminator sorts before every value. */
  lemma {:induction false} EncodedSeqOrder(a: seq<DataValue>, b: seq<DataValue>)
    requires AllSized(a) && AllSized(b)
    ensures EncodedCmpSeq(a, b) == Less ==> Below(EncSeq(a) + [INIT_TAG], EncSeq(b) + [INIT_TAG])
    ensures EncodedCmpSeq(a, b) == Greater ==> Below(EncSeq(b) + [INIT_TAG], EncSeq(a) + [INIT_TAG])
    ensures EncodedCmpSeq(a, b) == Equal <==> a == b
    decreases a, 0
  {
    hide Enc, EncodedCmp, Sized;
    var z := [INIT_TAG];
    if a != [] && b != [] {
      var x, y := Enc(a[0]), Enc(b[0]);
      var xs, ys := EncSeq(a[1..]) + z, EncSeq(b[1..]) + z;
      assert EncSeq(a) + z == x + xs && EncSeq(b) + z == y + ys;
      EncodedOrder(a[0], b[0]);
      if Below(x, y) {
        BelowAppend(x, y, xs, ys);
      }
      if Below(y, x) {
        BelowAppend(y, x, ys, xs);
      }
      if EncodedCmp(a[0], b[0]) == Equal {
        EncodedSeqOrder(a[1..], b[1..]);
        BelowPrefix(x, xs, ys);
        BelowPrefix(x, ys, xs);
      }
      assert a == [a[0]] + a[1..] && b == [b[0]] + b[1..];
    } else if b != [] {
      assert EncSeq(b) + z == Enc(b[0]) + (EncSeq(b[1..]) + z);
    } else if a != [] {
      assert EncSeq(a) + z == Enc(a[0]) + (EncSeq(a[1..]) + z);
    }
  }

  /** All values: byte order is the order of encodings, and none is a prefix of another value's. */
  lemma EncodingOrder(a: DataValue, b: DataValue)
    requires Sized(a) && Sized(b)
    ensures EncodedCmp(a, b) == Less <==> LexLess(Enc(a), Enc(b))
    ensures EncodedCmp(a, b) == Greater <==> LexLess(Enc(b), Enc(a))
    ensures Enc(a) <= Enc(b) ==> a == b
  {
    hide Enc, EncodedCmp, Sized, LexLess;
    EncodedOrder(a, b);
    var x, y := Enc(a), Enc(b);
    LexLessIs(x, y);
    LexLessIs(y, x);
    LexTotal(x, y);
    BelowAsymmetric(x, y);
    if x <= y && a != b {
      PrefixNotBelow(x, y);
    }
  }

  /** Byte order is value order if and only if the two orders put the values alike. */
  lemma KeptIfAlike(a: DataValue, b: DataValue)
    requires Sized(a) && Sized(b)
    ensures OrderKept(a, b) <==> Cmp(a, b) == EncodedCmp(a, b)
  {
    hide Enc, Cmp, EncodedCmp, Sized, LexLess;
    EncodingOrder(a, b);
  }

  /** The keys sort as the values do, and equal values have equal keys. */
  ghost predicate OrderKept(a: DataValue, b: DataValue) {
    && (Cmp(a, b) == Less <==> LexLess(Enc(a), Enc(b)))
    && (Cmp(a, b) == Greater <==> LexLess(Enc(b), Enc(a)))
  }

  // ----- which values clash -----

  /** Different patterns that vectors count as equal: two zeros, or two that are no numbers. */
  ghost predicate Ties(e: nat, f: nat, sign: nat, inf: nat) {
    var k, l := if e < sign then e else e - sign, if f < sign then f else f - sign;
    (k == 0 && l == 0) || (k > inf && l > inf)
  }

  /** The larger of two patterns stands for a negative number. */
  ghost predicate Reverses(e: nat, f: nat, sign: nat, inf: nat) {
    var top := if e < f then f else e;
    sign <= top <= sign + inf
  }

  lemma PatternOrder(e: nat, f: nat, sign: nat, inf: nat)
    requires e != f && e < 2 * sign && f < 2 * sign && inf < sign
    ensures Ties(e, f, sign, inf) <==> VecKey(e, sign, inf) == VecKey(f, sign, inf)
    ensures !Ties(e, f, sign, inf) ==>
      (Reverses(e, f, sign, inf) <==> CmpInt(VecKey(e, sign, inf), VecKey(f, sign, inf)) != CmpInt(e, f))
  {
  }

  function SignOf(v: Vector): nat {
    if v.F32? then 0x8000_0000 else SIGN
  }

  function InfinityOf(v: Vector): nat {
    if v.F32? then 0x7F80_0000 else 0x7FF0_0000_0000_0000
  }

  function KeysOf(es: seq<nat>, sign: nat, inf: nat): (r: seq<int>)
    ensures |r| == |es|
  {
    seq(|es|, i requires 0 <= i < |es| => VecKey(es[i], sign, inf))
  }

  /** The first patterns that differ point another way than the values of the elements, or they tie and the rest points another way. */
  ghost predicate ElemsClash(es: seq<nat>, fs: seq<nat>, sign: nat, inf: nat)
    requires |es| == |fs|
  {
    es != [] &&
    if es[0] == fs[0] then ElemsClash(es[1..], fs[1..], sign, inf)
    else if Ties(es[0], fs[0], sign, inf) then CmpKeys(KeysOf(es[1..], sign, inf), KeysOf(fs[1..], sign, inf)) != CmpInt(es[0], fs[0])
    else Reverses(es[0], fs[0], sign, inf)
  }

  /** Vectors of one kind and length clash in their elements. */
  ghost predicate VecClash(x: Vector, y: Vector) {
    x.F32? == y.F32? && |Elems(x)| == |Elems(y)| && ElemsClash(Elems(x), Elems(y), SignOf(x), InfinityOf(x))
  }

  /** A vector against what is a number, text, bytes, identifier, regular expression, list or set, or JSON against a validity. */
  ghost predicate KindsClash(a: DataValue, b: DataValue) {
    || (a.Vec? && 2 <= Rank(b) <= 8) || (b.Vec? && 2 <= Rank(a) <= 8)
    || (a.Json? && b.Vld?) || (a.Vld? && b.Json?)
  }

  /** The values clash where they first differ. */
  ghost predicate Clash(a: DataValue, b: DataValue)
    decreases a, 1
  {
    match (a, b)
    case (Vec(x), Vec(y)) => VecClash(x, y)
    case (List(x), List(y)) => SeqClash(x, y)
    case (Set(x), Set(y)) => SeqClash(x, y)
    case _ => KindsClash(a, b)
  }

  /** Different elements that count as equal, for the vectors in them tie, leave it to the rest to go the way of the patterns. */
  ghost predicate SeqClash(a: seq<DataValue>, b: seq<DataValue>)
    decreases a, 0
  {
    a != [] && b != [] &&
    if a[0] == b[0] then SeqClash(a[1..], b[1..])
    else if Cmp(a[0], b[0]) == Equal then CmpSeq(a[1..], b[1..]) != TieOrder(a[0], b[0])
    else Clash(a[0], b[0])
  }

  /** How the first patterns compare that differ in two values that count as equal. */
  function TieOrder(a: DataValue, b: DataValue): Ordering
    decreases a, 1
  {
    match (a, b)
    case (Vec(x), Vec(y)) => CmpKeys(Elems(x), Elems(y))
    case (List(x), List(y)) => TieOrderSeq(x, y)
    case (Set(x), Set(y)) => TieOrderSeq(x, y)
    case _ => Equal
  }

  function TieOrderSeq(a: seq<DataValue>, b: seq<DataValue>): Ordering
    decreases a, 0
  {
    if a == [] || b == [] then Equal
    else if a[0] == b[0] then TieOrderSeq(a[1..], b[1..])
    else TieOrder(a[0], b[0])
  }

  lemma {:induction false} ElemsClashIff(es: seq<nat>, fs: seq<nat>, sign: nat, inf: nat)
    requires |es| == |fs| && inf < sign && forall i :: 0 <= i < |es| ==> es[i] < 2 * sign && fs[i] < 2 * sign
    ensures ElemsClash(es, fs, sign, inf) <==> CmpKeys(KeysOf(es, sign, inf), KeysOf(fs, sign, inf)) != CmpKeys(es, fs)
    decreases |es|
  {
    hide VecKey, Ties, Reverses;
    if es != [] {
      var ks, ls := KeysOf(es, sign, inf), KeysOf(fs, sign, inf);
      assert ks[1..] == KeysOf(es[1..], sign, inf) && ls[1..] == KeysOf(fs[1..], sign, inf);
      if es[0] == fs[0] {
        ElemsClashIff(es[1..], fs[1..], sign, inf);
      } else {
        PatternOrder(es[0], fs[0], sign, inf);
      }
    }
  }

  lemma KeysAre(v: Vector)
    ensures VecKeys(v) == KeysOf(Elems(v), SignOf(v), InfinityOf(v))
  {
    hide VecKey;
  }

  lemma VecClashIff(x: Vector, y: Vector)
    ensures VecClash(x, y) <==> CmpVector(x, y) != CmpPatterns(x, y)
  {
    hide VecKeys, KeysOf, ElemsClash, CmpKeys;
    KeysAre(x);
    KeysAre(y);
    if x.F32? == y.F32? && |Elems(x)| == |Elems(y)| {
      ElemsClashIff(Elems(x), Elems(y), SignOf(x), InfinityOf(x));
    }
  }

  lemma CmpSame(a: DataValue)
    ensures Cmp(a, a) == Equal
  {
    CmpFlips(a, a);
  }

  /** Values that count as equal and differ are told apart by the first patterns that differ. */
  lemma {:induction false} TieIs(a: DataValue, b: DataValue)
    requires Sized(a) && Sized(b) && a != b && Cmp(a, b) == Equal
    ensures EncodedCmp(a, b) == TieOrder(a, b)
    decreases a, 1
  {
    hide CmpNum, CmpBytes, CmpValidity, CmpVector, CmpPatterns;
    match a
    case Num(x) => NumCmp(x, b.n);
    case Str(x) => BytesCmp(x, b.text);
    case Bytes(x) => BytesCmp(x, b.bytes);
    case Uuid(x) => BytesCmp(x, b.uuid);
    case Regex(x) => BytesCmp(x, b.pattern);
    case Json(x) => BytesCmp(x, b.json);
    case Vld(x) => VldCmp(x, b.vld);
    case List(x) => TieIsSeq(x, b.items);
    case Set(x) => TieIsSeq(x, b.members);
    case Vec(x) => VecTie(x, b.vec);
    case _ =>
  }

  lemma VecTie(x: Vector, y: Vector)
    requires CmpVector(x, y) == Equal
    ensures CmpPatterns(x, y) == CmpKeys(Elems(x), Elems(y))
  {
    hide VecKeys, CmpKeys;
    KeysAre(x);
    KeysAre(y);
  }

  lemma {:induction false} TieIsSeq(a: seq<DataValue>, b: seq<DataValue>)
    requires AllSized(a) && AllSized(b) && CmpSeq(a, b) == Equal
    ensures EncodedCmpSeq(a, b) == TieOrderSeq(a, b)
    decreases a, 0
  {
    hide Cmp, EncodedCmp, TieOrder, Sized;
    if a != [] && b != [] {
      EncodedOrder(a[0], b[0]);
      if a[0] == b[0] {
        TieIsSeq(a[1..], b[1..]);
      } else {
        TieIs(a[0], b[0]);
      }
    }
  }

  /** The two orders put values alike exactly if they do not clash. */
  lemma {:induction false} ClashIff(a: DataValue, b: DataValue)
    requires Sized(a) && Sized(b)
    ensures Clash(a, b) <==> Cmp(a, b) != EncodedCmp(a, b)
    decreases a, 1
  {
    hide Cmp, EncodedCmp, Clash, Sized;
    if Tag(a) != Tag(b) {
      KindsClashIff(a, b);
    } else if a.List? {
      ListClashIs(a, b);
      SeqClashIff(a.items, b.items);
    } else if a.Set? {
      SetClashIs(a, b);
      SeqClashIff(a.members, b.members);
    } else {
      LeafClashIff(a, b);
    }
  }

  lemma ListClashIs(a: DataValue, b: DataValue)
    requires a.List? && Tag(a) == Tag(b) && Sized(a) && Sized(b)
    ensures b.List? && AllSized(a.items) && AllSized(b.items) && Clash(a, b) == SeqClash(a.items, b.items)
    ensures Cmp(a, b) == CmpSeq(a.items, b.items) && EncodedCmp(a, b) == EncodedCmpSeq(a.items, b.items)
  {
  }

  lemma SetClashIs(a: DataValue, b: DataValue)
    requires a.Set? && Tag(a) == Tag(b) && Sized(a) && Sized(b)
    ensures b.Set? && AllSized(a.members) && AllSized(b.members) && Clash(a, b) == SeqClash(a.members, b.members)
    ensures Cmp(a, b) == CmpSeq(a.members, b.members) && EncodedCmp(a, b) == EncodedCmpSeq(a.members, b.members)
  {
  }

  lemma KindsClashIff(a: DataValue, b: DataValue)
    requires Tag(a) != Tag(b)
    ensures Clash(a, b) <==> Cmp(a, b) != EncodedCmp(a, b)
  {
    TagsFirst(a, b);
    hide EncodedCmp;
  }

  lemma LeafClashIff(a: DataValue, b: DataValue)
    requires Tag(a) == Tag(b) && !a.List? && !a.Set?
    ensures Clash(a, b) <==> Cmp(a, b) != EncodedCmp(a, b)
  {
    hide CmpNum, CmpBytes, CmpValidity, CmpVector, CmpPatterns, VecClash;
    if a.Vec? {
      VecClashIff(a.vec, b.vec);
    }
  }

  lemma {:induction false} SeqClashIff(a: seq<DataValue>, b: seq<DataValue>)
    requires AllSized(a) && AllSized(b)
    ensures SeqClash(a, b) <==> CmpSeq(a, b) != EncodedCmpSeq(a, b)
    decreases a, 0
  {
    hide Cmp, EncodedCmp, Clash, TieOrder, Sized;
    if a != [] && b != [] {
      EncodedOrder(a[0], b[0]);
      CmpSame(a[0]);
      if a[0] == b[0] {
        SeqClashIff(a[1..], b[1..]);
      } else if Cmp(a[0], b[0]) == Equal {
        TieIs(a[0], b[0]);
      } else {
        ClashIff(a[0], b[0]);
      }
    }
  }

  /** Byte order is value order exactly for values that do not clash where they first differ. */
  lemma OrderKeptIff(a: DataValue, b: DataValue)
    requires Sized(a) && Sized(b)
    ensures OrderKept(a, b) <==> !Clash(a, b)
  {
    hide OrderKept, Cmp, EncodedCmp, Clash, Sized;
    KeptIfAlike(a, b);
    ClashIff(a, b);
  }

  /** Values without vectors and JSON inside, and with identifiers of sixteen bytes. */
  ghost predicate Orderable(v: DataValue)
    decreases v, 1
  {
    match v
    case Vec(_) => false
    case Json(_) => false
    case Uuid(u) => |u| == 16
    case List(items) => AllOrderable(items)
    case Set(members) => AllOrderable(members)
    case _ => true
  }

  ghost predicate AllOrderable(vs: seq<DataValue>)
    decreases vs, 0
  {
    vs == [] || (Orderable(vs[0]) && AllOrderable(vs[1..]))
  }

  /** They are put alike. */
  lemma {:induction false} OrdersAgree(a: DataValue, b: DataValue)
    requires Orderable(a) && Orderable(b)
    ensures Sized(a) && Sized(b) && Cmp(a, b) == EncodedCmp(a, b)
    decreases a, 1
  {
    AllSizedIf([a]);
    AllSizedIf([b]);
    match a
    case List(x) => if b.List? { SeqOrdersAgree(x, b.items); }
    case Set(x) => if b.Set? { SeqOrdersAgree(x, b.members); }
    case _ =>
  }

  lemma {:induction false} SeqOrdersAgree(a: seq<DataValue>, b: seq<DataValue>)
    requires AllOrderable(a) && AllOrderable(b)
    ensures CmpSeq(a, b) == EncodedCmpSeq(a, b)
    decreases a, 0
  {
    if a != [] && b != [] {
      OrdersAgree(a[0], b[0]);
      SeqOrdersAgree(a[1..], b[1..]);
    }
  }

  lemma {:induction false} AllSizedIf(vs: seq<DataValue>)
    requires AllOrderable(vs)
    ensures AllSized(vs)
    decreases vs
  {
    if vs != [] {
      AllSizedIf(vs[1..]);
      match vs[0]
      case List(items) => AllSizedIf(items);
      case Set(members) => AllSizedIf(members);
      case _ =>
    }
  }

  lemma {:induction false} PrefixNotBelow(x: Bytes, y: Bytes)
    requires x <= y
    ensures !Below(x, y) && !Below(y, x)
    decreases |x|
  {
    if x != [] {
      PrefixNotBelow(x[1..], y[1..]);
    }
  }

  // ----- keys of tuples -----

  /** The relation, then the columns. */
  function EncodeAsKey(rel: u64, t: Tuple): Bytes {
    Word(rel) + EncSeq(t)
  }

  lemma {:induction false} ColumnsCmp(a: Tuple, b: Tuple)
    requires AllSized(a) && AllSized(b)
    ensures EncodedCmpSeq(a, b) == Less ==> LexLess(EncSeq(a), EncSeq(b))
    ensures EncodedCmpSeq(a, b) == Greater ==> LexLess(EncSeq(b), EncSeq(a))
    ensures EncodedCmpSeq(a, b) == Equal <==> a == b
    decreases a
  {
    hide Enc, EncodedCmp, Sized, LexLess;
    var xs, ys := EncSeq(a), EncSeq(b);
    LexLessIs(xs, ys);
    LexLessIs(ys, xs);
    if a != [] && b != [] {
      var x, y := Enc(a[0]), Enc(b[0]);
      EncodedOrder(a[0], b[0]);
      if Below(x, y) {
        BelowAppend(x, y, EncSeq(a[1..]), EncSeq(b[1..]));
      }
      if Below(y, x) {
        BelowAppend(y, x, EncSeq(b[1..]), EncSeq(a[1..]));
      }
      if EncodedCmp(a[0], b[0]) == Equal {
        ColumnsCmp(a[1..], b[1..]);
        LexPrefix(x, EncSeq(a[1..]), EncSeq(b[1..]));
        LexPrefix(x, EncSeq(b[1..]), EncSeq(a[1..]));
      }
      assert a == [a[0]] + a[1..] && b == [b[0]] + b[1..];
    }
  }

  lemma {:induction false} LexPrefix(p: Bytes, x: Bytes, y: Bytes)
    ensures LexLess(p + x, p + y) <==> LexLess(x, y)
    decreases |p|
  {
    if p == [] {
      assert p + x == x && p + y == y;
    } else {
      assert (p + x)[1..] == p[1..] + x && (p + y)[1..] == p[1..] + y;
      LexPrefix(p[1..], x, y);
    }
  }

  lemma SameRelation(r: u64, a: Tuple, b: Tuple)
    requires AllSized(a) && AllSized(b)
    ensures LexLess(EncodeAsKey(r, a), EncodeAsKey(r, b)) <==> EncodedCmpSeq(a, b) == Less
    ensures LexLess(EncodeAsKey(r, b), EncodeAsKey(r, a)) <==> EncodedCmpSeq(a, b) == Greater
    ensures EncodeAsKey(r, a) == EncodeAsKey(r, b) <==> a == b
  {
    hide EncSeq, Word, LexLess, EncodedCmpSeq, AllSized;
    ColumnsCmp(a, b);
    LexPrefix(Word(r), EncSeq(a), EncSeq(b));
    LexPrefix(Word(r), EncSeq(b), EncSeq(a));
    LexTotal(EncodeAsKey(r, a), EncodeAsKey(r, b));
  }

  lemma RelationFirst(r: u64, a: Tuple, s: u64, b: Tuple)
    requires r < s
    ensures LexLess(EncodeAsKey(r, a), EncodeAsKey(s, b)) && !LexLess(EncodeAsKey(s, b), EncodeAsKey(r, a))
    ensures EncodeAsKey(r, a) != EncodeAsKey(s, b)
  {
    hide EncSeq, Word, LexLess;
    WordOrder(r, s);
    BelowAppend(Word(r), Word(s), EncSeq(a), EncSeq(b));
    LexLessIs(EncodeAsKey(r, a), EncodeAsKey(s, b));
    LexTotal(EncodeAsKey(r, a), EncodeAsKey(s, b));
  }

  /** Keys sort by relation, then column by column, and determine relation and tuple. */
  lemma KeyOrder(r: u64, a: Tuple, s: u64, b: Tuple)
    requires AllSized(a) && AllSized(b)
    ensures LexLess(EncodeAsKey(r, a), EncodeAsKey(s, b)) <==> r < s || (r == s && EncodedCmpSeq(a, b) == Less)
    ensures EncodeAsKey(r, a) == EncodeAsKey(s, b) <==> r == s && a == b
  {
    hide EncodeAsKey, LexLess, EncodedCmpSeq, AllSized;
    if r == s {
      SameRelation(r, a, b);
    } else if r < s {
      RelationFirst(r, a, s, b);
    } else {
      RelationFirst(s, b, r, a);
    }
  }

  /** So they sort as the tuples do exactly if these do not clash where they first differ. */
  lemma KeyOrderKeptIff(r: u64, a: Tuple, b: Tuple)
    requires AllSized(a) && AllSized(b)
    ensures (&& (CmpSeq(a, b) == Less <==> LexLess(EncodeAsKey(r, a), EncodeAsKey(r, b)))
             && (CmpSeq(a, b) == Greater <==> LexLess(EncodeAsKey(r, b), EncodeAsKey(r, a)))) <==> !SeqClash(a, b)
  {
    hide EncodeAsKey, LexLess, CmpSeq, EncodedCmpSeq, SeqClash, AllSized;
    SameRelation(r, a, b);
    SeqClashIff(a, b);
  }

  /** They do not, if no column holds a vector or JSON. */
  lemma KeyOrderIsTupleOrder(r: u64, a: Tuple, b: Tuple)
    requires AllOrderable(a) && AllOrderable(b)
    ensures LexLess(EncodeAsKey(r, a), EncodeAsKey(r, b)) <==> CmpSeq(a, b) == Less
  {
    AllSizedIf(a);
    AllSizedIf(b);
    SeqOrdersAgree(a, b);
    SameRelation(r, a, b);
  }

  // ----- where the encoding leaves the order -----

  /** A vector sorts after numbers, text, bytes, identifiers, lists and sets, and its key before theirs. */
  lemma VectorsOutOfOrder(v: Vector, x: DataValue)
    requires 2 <= Rank(x) <= 8
    ensures Cmp(x, Vec(v)) == Less && LexLess(Enc(Vec(v)), Enc(x))
  {
    TagLess(Vec(v), x);
    LexLessIs(Enc(Vec(v)), Enc(x));
  }

  /** JSON sorts before validities, and its key after theirs. */
  lemma JsonOutOfOrder(j: Bytes, v: Validity)
    ensures Cmp(Json(j), Vld(v)) == Less && LexLess(Enc(Vld(v)), Enc(Json(j)))
  {
    TagLess(Vld(v), Json(j));
    LexLessIs(Enc(Vld(v)), Enc(Json(j)));
  }

  /** A vector with a negative element sorts before one with a positive element there, and its key after. */
  lemma NegativesOutOfOrder(e: u64, f: u64)
    requires e < SIGN < f <= SIGN + 0x7FF0_0000_0000_0000
    ensures var x, y := Vec(F64([e])), Vec(F64([f])); Cmp(y, x) == Less && LexLess(Enc(x), Enc(y))
  {
    var x, y := F64([e]), F64([f]);
    hide Enc, LexLess;
    assert VecKeys(x) == [VecKey(e, SIGN, 0x7FF0_0000_0000_0000)] && VecKeys(y) == [VecKey(f, SIGN, 0x7FF0_0000_0000_0000)];
    assert EncodedCmp(Vec(x), Vec(y)) == Less;
    EncodingOrder(Vec(x), Vec(y));
  }

  /** The two zeros are equal as elements of vectors and have different keys. */
  lemma ZerosDiffer()
    ensures var x, y := Vec(F64([0])), Vec(F64([SIGN])); Cmp(x, y) == Equal && LexLess(Enc(x), Enc(y))
  {
    var x, y := F64([0]), F64([SIGN]);
    hide Enc, LexLess;
    assert VecKeys(x) == [0] && VecKeys(y) == [0];
    assert EncodedCmp(Vec(x), Vec(y)) == Less;
    EncodingOrder(Vec(x), Vec(y));
  }

  // ----- decoding -----

  /** Insertion into an ascending sequence; an equal element stays. */
  function SetInsert(members: seq<DataValue>, v: DataValue): seq<DataValue> {
    if members == [] then [v]
    else
      match Cmp(v, members[0])
      case Less => [v] + members
      case Equal => members
      case Greater => [members[0]] + SetInsert(members[1..], v)
  }

  function DecElems(n: nat, width: nat, bs: Bytes): (r: Option<(seq<nat>, Bytes)>)
    requires width > 0
    ensures r.Some? ==> |r.value.0| == n && |r.value.1| <= |bs| && forall i :: 0 <= i < n ==> r.value.0[i] < Pow256(width)
  {
    if n == 0 then Some(([], bs))
    else if |bs| < width then None
    else
      FromBound(bs[..width]);
      match DecElems(n - 1, width, bs[width..])
      case None => None
      case Some((es, rest)) => Some(([FromBigEndian(bs[..width])] + es, rest))
  }

  function DecVec(bs: Bytes): (r: Option<(Vector, Bytes)>)
    ensures r.Some? ==> |r.value.1| < |bs|
  {
    if |bs| < 9 then None
    else
      WordFits();
      var n := ReadWord(bs[1..9]);
      if bs[0] == VEC_F32 then
        match DecElems(n, 4, bs[9..])
        case None => None
        case Some((es, rest)) => Some((F32(es), rest))
      else if bs[0] == VEC_F64 then
        match DecElems(n, 8, bs[9..])
        case None => None
        case Some((es, rest)) => Some((F64(es), rest))
      else None
  }

  function DecValidity(bs: Bytes): (r: Option<(Validity, Bytes)>)
    ensures r.Some? ==> |r.value.1| < |bs|
  {
    if |bs| < 9 then None
    else Some((Validity(OrderDecodeI64(WORD - 1 - ReadWord(bs[..8])), bs[8] == 0), bs[9..]))
  }

  /** The values whose decoding has no loop of its own. */
  function DecPlain(tag: byte, rest: Bytes): (r: Option<(DataValue, Bytes)>)
    ensures r.Some? ==> |r.value.1| <= |rest|
  {
    if tag == NULL_TAG then Some((Null, rest))
    else if tag == FALSE_TAG then Some((Bool(false), rest))
    else if tag == TRUE_TAG then Some((Bool(true), rest))
    else if tag == NUM_TAG then
      match DecNum(rest)
      case None => None
      case Some((n, rest')) => Some((Num(n), rest'))
    else if tag == UUID_TAG then (if |rest| < 16 then None else Some((Uuid(rest[..16]), rest[16..])))
    else if tag == VLD_TAG then
      match DecValidity(rest)
      case None => None
      case Some((v, rest')) => Some((Vld(v), rest'))
    else if tag == BOT_TAG then Some((Bot, rest))
    else if tag == VEC_TAG then
      match DecVec(rest)
      case None => None
      case Some((v, rest')) => Some((Vec(v), rest'))
    else None
  }

  /** `None` where decoding would fail. */
  function Dec(bs: Bytes): (r: Option<(DataValue, Bytes)>)
    ensures r.Some? ==> |r.value.1| < |bs|
    decreases |bs|, 1
  {
    if bs == [] then None
    else
      var tag, rest := bs[0], bs[1..];
      if tag == LIST_TAG then
        match DecList([], rest)
        case None => None
        case Some((items, rest')) => Some((List(items), rest'))
      else if tag == SET_TAG then
        match DecSet([], rest)
        case None => None
        case Some((members, rest')) => Some((Set(members), rest'))
      else if tag == STR_TAG || tag == BYTES_TAG || tag == REGEX_TAG || tag == JSON_TAG then
        match DecBytes(rest)
        case None => None
        case Some((s, rest')) =>
          Some((if tag == STR_TAG then Str(s) else if tag == BYTES_TAG then DataValue.Bytes(s) else if tag == REGEX_TAG then Regex(s) else Json(s), rest'))
      else DecPlain(tag, rest)
  }

  /** Values up to the terminator, added to those collected. */
  function DecList(collected: seq<DataValue>, bs: Bytes): (r: Option<(seq<DataValue>, Bytes)>)
    ensures r.Some? ==> |r.value.1| < |bs|
    decreases |bs|, 2
  {
    if bs == [] then None
    else if bs[0] == INIT_TAG then Some((collected, bs[1..]))
    else
      match Dec(bs)
      case None => None
      case Some((v, rest)) => DecList(collected + [v], rest)
  }

  function DecSet(collected: seq<DataValue>, bs: Bytes): (r: Option<(seq<DataValue>, Bytes)>)
    ensures r.Some? ==> |r.value.1| < |bs|
    decreases |bs|, 2
  {
    if bs == [] then None
    else if bs[0] == INIT_TAG then Some((collected, bs[1..]))
    else
      match Dec(bs)
      case None => None
      case Some((v, rest)) => DecSet(SetInsert(collected, v), rest)
  }

  // ----- round trip -----

  ghost predicate Ascending(members: seq<DataValue>) {
    forall i, j :: 0 <= i < j < |members| ==> Cmp(members[i], members[j]) == Less
  }

  /** What the types of the source guarantee: identifiers of sixteen bytes, lengths that fit a word, sets in order. */
  ghost predicate WellFormed(v: DataValue)
    decreases v, 1
  {
    match v
    case Uuid(u) => |u| == 16
    case Vec(F32(es)) => |es| < WORD
    case Vec(F64(es)) => |es| < WORD
    case List(items) => AllWellFormed(items)
    case Set(members) => Ascending(members) && AllWellFormed(members)
    case _ => true
  }

  ghost predicate AllWellFormed(vs: seq<DataValue>)
    decreases vs, 0
  {
    vs == [] || (WellFormed(vs[0]) && AllWellFormed(vs[1..]))
  }

  lemma {:induction false} WellFormedSized(vs: seq<DataValue>)
    requires AllWellFormed(vs)
    ensures AllSized(vs)
    decreases vs
  {
    if vs != [] {
      WellFormedSized(vs[1..]);
      match vs[0]
      case List(items) => WellFormedSized(items);
      case Set(members) => WellFormedSized(members);
      case _ =>
    }
  }

  lemma {:induction false} ElemsBack(es: seq<nat>, width: nat, rest: Bytes)
    requires width > 0 && forall i :: 0 <= i < |es| ==> es[i] < Pow256(width)
    ensures DecElems(|es|, width, EncElems(es, width) + rest) == Some((es, rest))
    decreases |es|
  {
    hide BigEndian, FromBigEndian;
    var bs := EncElems(es, width) + rest;
    if es == [] {
      assert bs == rest;
    } else {
      FromTo(es[0], width);
      ElemsBack(es[1..], width, rest);
      assert bs[..width] == BigEndian(es[0], width);
      assert bs[width..] == EncElems(es[1..], width) + rest;
      assert es == [es[0]] + es[1..];
    }
  }

  /** The parts of an encoded vector. */
  lemma VecParts(kind: byte, n: u64, elems: Bytes, rest: Bytes)
    ensures var bs := [kind] + Word(n) + elems + rest;
            |bs| >= 9 && bs[0] == kind && ReadWord(bs[1..9]) == n && bs[9..] == elems + rest
  {
    hide Word, FromBigEndian;
    WordBack(n);
    var bs := [kind] + Word(n) + elems + rest;
    assert bs[1..9] == Word(n);
  }

  lemma VecBack(v: Vector, rest: Bytes)
    requires WellFormed(Vec(v))
    ensures DecVec(EncVec(v) + rest) == Some((v, rest))
  {
    hide DecElems, EncElems, Word, ReadWord, Pow256;
    WordFits();
    match v
    case F32(es) =>
      VecParts(VEC_F32, |es|, EncElems(es, 4), rest);
      ElemsBack(es, 4, rest);
    case F64(es) =>
      VecParts(VEC_F64, |es|, EncElems(es, 8), rest);
      ElemsBack(es, 8, rest);
  }

  lemma ValidityBack(v: Validity, rest: Bytes)
    ensures DecValidity(EncValidity(v) + rest) == Some((v, rest))
  {
    hide Word, FromBigEndian;
    var u := WORD - 1 - OrderEncodeI64(v.ts);
    var bs := EncValidity(v) + rest;
    WordBack(u);
    assert bs[..8] == Word(u) && bs[9..] == rest;
  }

  lemma {:induction false} InsertLast(members: seq<DataValue>, v: DataValue)
    requires Ascending(members + [v])
    ensures SetInsert(members, v) == members + [v]
    decreases |members|
  {
    hide Cmp;
    if members != [] {
      var all := members + [v];
      assert Cmp(all[0], all[|members|]) == Less;
      CmpFlips(members[0], v);
      assert (members[1..] + [v]) == all[1..];
      InsertLast(members[1..], v);
    }
  }

  lemma PayloadAt(v: DataValue, rest: Bytes)
    ensures var bs := Enc(v) + rest; bs != [] && bs[0] == Tag(v) && bs[1..] == Payload(v) + rest
  {
  }

  /** Decoding undoes encoding, whatever follows. */
  lemma {:induction false} ValueBack(v: DataValue, rest: Bytes)
    requires WellFormed(v)
    ensures Dec(Enc(v) + rest) == Some((v, rest))
    decreases v, 1
  {
    hide Enc, EncNum, EncBytes, EncValidity, EncVec, DecNum, DecBytes, DecValidity, DecVec, DecList, DecSet, EncSeq, Ascending;
    PayloadAt(v, rest);
    var bs := Enc(v) + rest;
    match v
    case Null => assert bs[1..] == rest;
    case Bool(_) => assert bs[1..] == rest;
    case Bot => assert bs[1..] == rest;
    case Num(n) => NumBack(n, rest);
    case Str(s) => BytesBack(s, rest);
    case Bytes(s) => BytesBack(s, rest);
    case Regex(s) => BytesBack(s, rest);
    case Json(s) => BytesBack(s, rest);
    case Uuid(u) => assert bs[1..][..16] == u && bs[1..][16..] == rest;
    case Vec(x) => VecBack(x, rest);
    case Vld(x) => ValidityBack(x, rest);
    case List(items) =>
      assert [] + items == items;
      ListBack([], items, rest);
      assert bs[1..] == EncSeq(items) + [INIT_TAG] + rest;
    case Set(members) =>
      assert [] + members == members;
      SetBack([], members, rest);
      assert bs[1..] == EncSeq(members) + [INIT_TAG] + rest;
  }

  lemma {:induction false} ListBack(collected: seq<DataValue>, vs: seq<DataValue>, rest: Bytes)
    requires AllWellFormed(vs)
    ensures DecList(collected, EncSeq(vs) + [INIT_TAG] + rest) == Some((collected + vs, rest))
    decreases vs, 0
  {
    hide Enc, Dec, WellFormed;
    var bs := EncSeq(vs) + [INIT_TAG] + rest;
    if vs == [] {
      assert bs[1..] == rest && collected + vs == collected;
    } else {
      var next := EncSeq(vs[1..]) + [INIT_TAG] + rest;
      assert bs == Enc(vs[0]) + next;
      ValueBack(vs[0], next);
      ListBack(collected + [vs[0]], vs[1..], rest);
      assert collected + [vs[0]] + vs[1..] == collected + vs;
    }
  }

  lemma {:induction false} SetBack(collected: seq<DataValue>, vs: seq<DataValue>, rest: Bytes)
    requires AllWellFormed(vs) && Ascending(collected + vs)
    ensures DecSet(collected, EncSeq(vs) + [INIT_TAG] + rest) == Some((collected + vs, rest))
    decreases vs, 0
  {
    hide Enc, Dec, WellFormed, Cmp;
    var bs := EncSeq(vs) + [INIT_TAG] + rest;
    if vs == [] {
      assert bs[1..] == rest && collected + vs == collected;
    } else {
      var next := EncSeq(vs[1..]) + [INIT_TAG] + rest;
      assert bs == Enc(vs[0]) + next;
      ValueBack(vs[0], next);
      assert collected + [vs[0]] + vs[1..] == collected + vs;
      assert (collected + vs)[..|collected| + 1] == collected + [vs[0]];
      InsertLast(collected, vs[0]);
      SetBack(collected + [vs[0]], vs[1..], rest);
    }
  }

  /** The columns of a key, after the relation. */
  function DecColumns(collected: Tuple, bs: Bytes): Option<Tuple>
    decreases |bs|
  {
    if bs == [] then Some(collected)
    else
      match Dec(bs)
      case None => None
      case Some((v, rest)) => DecColumns(collected + [v], rest)
  }

  function DecodeTupleFromKey(key: Bytes): Option<Tuple> {
    if |key| < 8 then None else DecColumns([], key[8..])
  }

  lemma {:induction false} ColumnsBack(collected: Tuple, t: Tuple)
    requires AllWellFormed(t)
    ensures DecColumns(collected, EncSeq(t)) == Some(collected + t)
    decreases t
  {
    hide Enc, Dec, WellFormed;
    if t == [] {
      assert collected + t == collected;
    } else {
      ValueBack(t[0], EncSeq(t[1..]));
      ColumnsBack(collected + [t[0]], t[1..]);
      assert collected + [t[0]] + t[1..] == collected + t;
    }
  }

  /** A key gives back its relation and its tuple. */
  lemma KeyBack(rel: u64, t: Tuple)
    requires AllWellFormed(t)
    ensures DecodeTupleFromKey(EncodeAsKey(rel, t)) == Some(t)
    ensures ReadWord(EncodeAsKey(rel, t)[..8]) == rel
  {
    hide EncSeq, Word, DecColumns, FromBigEndian;
    var key := EncodeAsKey(rel, t);
    assert key[..8] == Word(rel) && key[8..] == EncSeq(t);
    WordBack(rel);
    ColumnsBack([], t);
    assert [] + t == t;
  }

  // ----- the encoder and decoder as they run -----

  /** A buffer that encoders append to. */
  class KeyBuffer {
    var bytes: Bytes

    constructor ()
      ensures bytes == []
    {
      bytes := [];
    }

    method EncodeBytes(key: Bytes)
      modifies this
      ensures bytes == old(bytes) + EncBytes(key)
    {
      hide EncBytes, Chunk;
      var index := 0;
      assert key[0..] == key;
      ghost var done := false;
      while index <= |key|
        invariant if done then bytes == old(bytes) + EncBytes(key) else index <= |key| && bytes + EncBytes(key[index..]) == old(bytes) + EncBytes(key)
        invariant done ==> index > |key|
        decreases |key| + ENC_GROUP_SIZE - index
      {
        var remain := |key| - index;
        var pad := 0;
        EncBytesStep(key[index..]);
        if remain > ENC_GROUP_SIZE {
          bytes := bytes + key[index..index + ENC_GROUP_SIZE];
          assert key[index..][..ENC_GROUP_SIZE] == key[index..index + ENC_GROUP_SIZE];
        } else {
          pad := ENC_GROUP_SIZE - remain;
          bytes := bytes + key[index..];
          bytes := bytes + seq(pad, _ => 0);
        }
        bytes := bytes + [ENC_MARKER - pad];
        if remain >= ENC_GROUP_SIZE {
          assert key[index..][ENC_GROUP_SIZE..] == key[index + ENC_GROUP_SIZE..];
        } else {
          done := true;
        }
        index := index + ENC_GROUP_SIZE;
      }
    }

    method EncodeNum(n: Num)
      modifies this
      ensures bytes == old(bytes) + EncNum(n)
    {
      hide Word, F64OfInt;
      bytes := bytes + Word(OrderEncodeF64(FloatOf(n)));
      match n
      case Int(i) =>
        if i > -EXACT_INT_BOUND && i < EXACT_INT_BOUND {
          bytes := bytes + [IS_EXACT_INT];
        } else {
          bytes := bytes + [IS_APPROX_INT];
          bytes := bytes + Word(OrderEncodeI64(i));
        }
      case Float(_) =>
        bytes := bytes + [IS_FLOAT];
    }

    method EncodeElems(es: seq<nat>, width: nat)
      modifies this
      ensures bytes == old(bytes) + EncElems(es, width)
    {
      for i := 0 to |es|
        invariant bytes + EncElems(es[i..], width) == old(bytes) + EncElems(es, width)
      {
        assert es[i..][1..] == es[i + 1..];
        bytes := bytes + BigEndian(es[i], width);
      }
    }

    method EncodeVec(v: Vector)
      modifies this
      ensures bytes == old(bytes) + EncVec(v)
    {
      hide Word, EncElems, Wrapped;
      match v
      case F32(es) =>
        bytes := bytes + [VEC_F32];
        bytes := bytes + Word(Wrapped(|es|));
        EncodeElems(es, 4);
      case F64(es) =>
        bytes := bytes + [VEC_F64];
        bytes := bytes + Word(Wrapped(|es|));
        EncodeElems(es, 8);
    }

    method EncodeValidity(x: Validity)
      modifies this
      ensures bytes == old(bytes) + EncValidity(x)
    {
      hide Word;
      var flipped := WORD - 1 - OrderEncodeI64(x.ts);
      bytes := bytes + Word(flipped);
      bytes := bytes + [if x.isAssert then 0 else 1];
    }

    method EncodeDatavalue(v: DataValue)
      modifies this
      ensures bytes == old(bytes) + Enc(v)
      decreases v, 1
    {
      hide EncNum, EncBytes, EncVec, EncValidity, EncSeq, Tag;
      bytes := bytes + [Tag(v)];
      match v
      case Null =>
      case Bool(_) =>
      case Bot =>
      case Num(n) => EncodeNum(n);
      case Str(s) => EncodeBytes(s);
      case Bytes(s) => EncodeBytes(s);
      case Regex(s) => EncodeBytes(s);
      case Json(s) => EncodeBytes(s);
      case Uuid(u) => bytes := bytes + u;
      case Vec(x) => EncodeVec(x);
      case Vld(x) => EncodeValidity(x);
      case List(items) =>
        EncodeAll(items);
        bytes := bytes + [INIT_TAG];
      case Set(members) =>
        EncodeAll(members);
        bytes := bytes + [INIT_TAG];
    }

    method EncodeAll(vs: seq<DataValue>)
      modifies this
      ensures bytes == old(bytes) + EncSeq(vs)
      decreases vs, 0
    {
      hide Enc;
      for i := 0 to |vs|
        invariant bytes + EncSeq(vs[i..]) == old(bytes) + EncSeq(vs)
      {
        assert vs[i..][1..] == vs[i + 1..];
        EncodeDatavalue(vs[i]);
      }
    }
  }

  lemma EncBytesIs(s: Bytes)
    ensures EncBytes(s) == Chunk(s, ENC_GROUP_SIZE) + [Marker(s)] + if |s| >= ENC_GROUP_SIZE then EncBytes(s[ENC_GROUP_SIZE..]) else []
  {
    hide Chunk;
  }

  lemma EncBytesStep(s: Bytes)
    ensures |s| > ENC_GROUP_SIZE ==> EncBytes(s) == s[..ENC_GROUP_SIZE] + [ENC_MARKER] + EncBytes(s[ENC_GROUP_SIZE..])
    ensures |s| == ENC_GROUP_SIZE ==> EncBytes(s) == s + [ENC_MARKER] + EncBytes(s[ENC_GROUP_SIZE..])
    ensures |s| < ENC_GROUP_SIZE ==> EncBytes(s) == s + seq(ENC_GROUP_SIZE - |s|, _ => 0) + [ENC_MARKER - (ENC_GROUP_SIZE - |s|)]
  {
    hide Chunk, EncBytes;
    ChunkIs(s, ENC_GROUP_SIZE);
    EncBytesIs(s);
  }

  ghost function Prepend(key: Bytes, r: Option<(Bytes, Bytes)>): Option<(Bytes, Bytes)> {
    match r
    case None => None
    case Some((k, rest)) => Some((key + k, rest))
  }

  lemma PrependTwice(a: Bytes, b: Bytes, r: Option<(Bytes, Bytes)>)
    ensures Prepend([], r) == r && Prepend(a + b, r) == Prepend(a, Prepend(b, r))
  {
    if r.Some? {
      assert [] + r.value.0 == r.value.0;
      assert a + b + r.value.0 == a + (b + r.value.0);
    }
  }

  lemma DecBytesAt(data: Bytes, offset: nat)
    requires offset + ENC_GROUP_SIZE + 1 <= |data|
    ensures var chunk, next := data[offset..offset + ENC_GROUP_SIZE], offset + ENC_GROUP_SIZE + 1;
            var pad := ENC_MARKER - data[offset + ENC_GROUP_SIZE];
            DecBytes(data[offset..]) ==
              if pad == 0 then Prepend(chunk, DecBytes(data[next..]))
              else if pad > ENC_GROUP_SIZE then None
              else Some((chunk[..ENC_GROUP_SIZE - pad], data[next..]))
  {
    var rest, next := data[offset..], offset + ENC_GROUP_SIZE + 1;
    assert rest[ENC_GROUP_SIZE + 1..] == data[next..];
    assert rest[..ENC_GROUP_SIZE] == data[offset..offset + ENC_GROUP_SIZE];
    assert rest[ENC_GROUP_SIZE] == data[offset + ENC_GROUP_SIZE];
    assert forall k :: 0 <= k <= ENC_GROUP_SIZE ==> rest[..k] == data[offset..offset + ENC_GROUP_SIZE][..k];
  }

  /** Strips groups until one with padding. */
  method DecodeBytes(data: Bytes) returns (r: Option<(Bytes, Bytes)>)
    ensures r == DecBytes(data)
  {
    var key: Bytes := [];
    var offset := 0;
    assert data[0..] == data;
    PrependTwice([], [], DecBytes(data));
    while true
      invariant offset <= |data|
      invariant DecBytes(data) == Prepend(key, DecBytes(data[offset..]))
      decreases |data| - offset
    {
      var next := offset + ENC_GROUP_SIZE + 1;
      if next > |data| {
        return None;
      }
      DecBytesAt(data, offset);
      var chunk := data[offset..offset + ENC_GROUP_SIZE];
      var pad := ENC_MARKER - data[offset + ENC_GROUP_SIZE];
      offset := next;
      if pad == 0 {
        PrependTwice(key, chunk, DecBytes(data[next..]));
        key := key + chunk;
        continue;
      }
      if pad > ENC_GROUP_SIZE {
        return None;
      }
      return Some((key + chunk[..ENC_GROUP_SIZE - pad], data[offset..]));
    }
  }

  /** Reads one value off the front. */
  method DecodeFromKey(bs: Bytes) returns (r: Option<(DataValue, Bytes)>)
    ensures r == Dec(bs)
    decreases |bs|
  {
    hide DecNum, DecVec, DecValidity, SetInsert;
    if bs == [] {
      return None;
    }
    var tag, rest := bs[0], bs[1..];
    if tag == LIST_TAG {
      var collected: seq<DataValue> := [];
      var remaining := rest;
      while remaining != [] && remaining[0] != INIT_TAG
        invariant |remaining| <= |rest| && DecList([], rest) == DecList(collected, remaining)
        decreases |remaining|
      {
        var v := DecodeFromKey(remaining);
        if v.None? {
          return None;
        }
        collected, remaining := collected + [v.value.0], v.value.1;
      }
      return if remaining == [] then None else Some((List(collected), remaining[1..]));
    }
    if tag == SET_TAG {
      var collected: seq<DataValue> := [];
      var remaining := rest;
      while remaining != [] && remaining[0] != INIT_TAG
        invariant |remaining| <= |rest| && DecSet([], rest) == DecSet(collected, remaining)
        decreases |remaining|
      {
        var v := DecodeFromKey(remaining);
        if v.None? {
          return None;
        }
        collected, remaining := SetInsert(collected, v.value.0), v.value.1;
      }
      return if remaining == [] then None else Some((Set(collected), remaining[1..]));
    }
    if tag == STR_TAG || tag == BYTES_TAG || tag == REGEX_TAG || tag == JSON_TAG {
      var s := DecodeBytes(rest);
      if s.None? {
        return None;
      }
      var text := s.value.0;
      return Some((if tag == STR_TAG then Str(text) else if tag == BYTES_TAG then DataValue.Bytes(text) else if tag == REGEX_TAG then Regex(text) else Json(text), s.value.1));
    }
    r := DecPlain(tag, rest);
  }

  /** Writes the key of a tuple. */
  method WriteKey(rel: u64, t: Tuple) returns (key: Bytes)
    ensures key == EncodeAsKey(rel, t)
  {
    hide Enc, Word;
    var buf := new KeyBuffer();
    buf.bytes := Word(rel);
    for i := 0 to |t|
      invariant buf.bytes + EncSeq(t[i..]) == Word(rel) + EncSeq(t)
    {
      assert t[i..][1..] == t[i + 1..];
      buf.EncodeDatavalue(t[i]);
    }
    key := buf.bytes;
  }

  /** Reads the tuple of a key. */
  method ReadKey(key: Bytes) returns (r: Option<Tuple>)
    ensures r == DecodeTupleFromKey(key)
  {
    hide Dec;
    if |key| < 8 {
      return None;
    }
    var remaining := key[8..];
    var t: Tuple := [];
    while remaining != []
      invariant DecColumns([], key[8..]) == DecColumns(t, remaining)
      decreases |remaining|
    {
      var v := DecodeFromKey(remaining);
      if v.None? {
        return None;
      }
      t, remaining := t + [v.value.0], v.value.1;
    }
    r := Some(t);
  }
}
