/** The order of values (data/value.rs). */
module ValueOrder {
  import opened Values
  import opened Bytes
  import opened Floats

  datatype Ordering = Less | Equal | Greater

  function CmpInt(a: int, b: int): Ordering {
    if a < b then Less else if a == b then Equal else Greater
  }

  /** Byte strings and text compare byte by byte. */
  function CmpBytes(a: Bytes, b: Bytes): Ordering {
    if LexLess(a, b) then Less else if a == b then Equal else Greater
  }

  /** The double that a number stands for in comparisons. */
  function FloatOf(n: Num): u64 {
    match n
    case Int(i) => F64OfInt(i)
    case Float(bits) => bits
  }

  /** Integers among themselves compare exactly; against a float they are converted, and come first when it is equal. */
  function CmpNum(a: Num, b: Num): Ordering {
    var l, r := TotalKey(FloatOf(a)), TotalKey(FloatOf(b));
    match (a, b)
    case (Int(i), Int(j)) => CmpInt(i, j)
    case (Int(_), Float(_)) => if l <= r then Less else Greater
    case (Float(_), Int(_)) => if l < r then Less else Greater
    case (Float(_), Float(_)) => CmpInt(l, r)
  }

  /** Later timestamps first, and assertions before retractions. */
  function CmpValidity(a: Validity, b: Validity): Ordering {
    if a.ts != b.ts then CmpInt(b.ts, a.ts)
    else if a.isAssert == b.isAssert then Equal
    else if a.isAssert then Less else Greater
  }

  /** Vectors compare their elements with all zeros equal, all NaN equal, and NaN last. */
  function VecKey(bits: nat, sign: nat, inf: nat): int {
    var mag := if bits < sign then bits else bits - sign;
    if mag > inf then inf + 1 else if bits < sign then mag else -mag
  }

  function CmpKeys(a: seq<int>, b: seq<int>): Ordering {
    if a == [] || b == [] then Equal
    else if a[0] != b[0] then CmpInt(a[0], b[0])
    else CmpKeys(a[1..], b[1..])
  }

  function VecKeys(v: Vector): seq<int> {
    match v
    case F32(es) => seq(|es|, i requires 0 <= i < |es| => VecKey(es[i], 0x8000_0000, 0x7F80_0000))
    case F64(es) => seq(|es|, i requires 0 <= i < |es| => VecKey(es[i], SIGN, 0x7FF0_0000_0000_0000))
  }

  function CmpVector(a: Vector, b: Vector): Ordering {
    if a.F32? != b.F32? then (if a.F32? then Less else Greater)
    else if |VecKeys(a)| != |VecKeys(b)| then CmpInt(|VecKeys(a)|, |VecKeys(b)|)
    else CmpKeys(VecKeys(a), VecKeys(b))
  }

  /** The position of a variant among the variants. */
  function Rank(v: DataValue): nat {
    match v
    case Null => 0
    case Bool(_) => 1
    case Num(_) => 2
    case Str(_) => 3
    case Bytes(_) => 4
    case Uuid(_) => 5
    case Regex(_) => 6
    case List(_) => 7
    case Set(_) => 8
    case Vec(_) => 9
    case Json(_) => 10
    case Vld(_) => 11
    case Bot => 12
  }

  function Cmp(a: DataValue, b: DataValue): Ordering
    decreases a, 1
  {
    match (a, b)
    case (Bool(x), Bool(y)) => if x == y then Equal else if y then Less else Greater
    case (Num(x), Num(y)) => CmpNum(x, y)
    case (Str(x), Str(y)) => CmpBytes(x, y)
    case (Bytes(x), Bytes(y)) => CmpBytes(x, y)
    case (Uuid(x), Uuid(y)) => CmpBytes(x, y)
    case (Regex(x), Regex(y)) => CmpBytes(x, y)
    case (List(x), List(y)) => CmpSeq(x, y)
    case (Set(x), Set(y)) => CmpSeq(x, y)
    case (Vec(x), Vec(y)) => CmpVector(x, y)
    case (Json(x), Json(y)) => CmpBytes(x, y)
    case (Vld(x), Vld(y)) => CmpValidity(x, y)
    case _ => CmpInt(Rank(a), Rank(b))
  }

  /** Sequences compare element by element; a proper prefix comes first. */
  function CmpSeq(a: seq<DataValue>, b: seq<DataValue>): Ordering
    decreases a, 0
  {
    if a == [] then (if b == [] then Equal else Less)
    else if b == [] then Greater
    else
      var c := Cmp(a[0], b[0]);
      if c != Equal then c else CmpSeq(a[1..], b[1..])
  }

  function Opposite(o: Ordering): Ordering {
    match o
    case Less => Greater
    case Equal => Equal
    case Greater => Less
  }

  lemma CmpBytesFlips(a: Bytes, b: Bytes)
    ensures CmpBytes(b, a) == Opposite(CmpBytes(a, b))
  {
    LexTotal(a, b);
  }

  lemma {:induction false} CmpKeysFlips(a: seq<int>, b: seq<int>)
    ensures CmpKeys(b, a) == Opposite(CmpKeys(a, b))
    decreases |a|
  {
    if a != [] && b != [] {
      CmpKeysFlips(a[1..], b[1..]);
    }
  }

  lemma CmpNumFlips(a: Num, b: Num)
    ensures CmpNum(b, a) == Opposite(CmpNum(a, b))
  {
  }

  lemma CmpVectorFlips(a: Vector, b: Vector)
    ensures CmpVector(b, a) == Opposite(CmpVector(a, b))
  {
    hide VecKeys;
    CmpKeysFlips(VecKeys(a), VecKeys(b));
  }

  lemma CmpValidityFlips(a: Validity, b: Validity)
    ensures CmpValidity(b, a) == Opposite(CmpValidity(a, b))
  {
  }

  /** Comparing the other way round gives the opposite. */
  lemma {:induction false} CmpFlips(a: DataValue, b: DataValue)
    ensures Cmp(b, a) == Opposite(Cmp(a, b))
    decreases a, 1
  {
    hide CmpBytes, CmpNum, CmpVector, CmpValidity;
    if Rank(a) == Rank(b) {
      match a
      case Num(x) => CmpNumFlips(x, b.n);
      case Str(x) => CmpBytesFlips(x, b.text);
      case Bytes(x) => CmpBytesFlips(x, b.bytes);
      case Uuid(x) => CmpBytesFlips(x, b.uuid);
      case Regex(x) => CmpBytesFlips(x, b.pattern);
      case Json(x) => CmpBytesFlips(x, b.json);
      case List(x) => CmpSeqFlips(x, b.items);
      case Set(x) => CmpSeqFlips(x, b.members);
      case Vec(x) => CmpVectorFlips(x, b.vec);
      case Vld(x) => CmpValidityFlips(x, b.vld);
      case _ =>
    }
  }

  lemma {:induction false} CmpSeqFlips(a: seq<DataValue>, b: seq<DataValue>)
    ensures CmpSeq(b, a) == Opposite(CmpSeq(a, b))
    decreases a, 0
  {
    if a != [] && b != [] {
      CmpFlips(a[0], b[0]);
      CmpSeqFlips(a[1..], b[1..]);
    }
  }
}
