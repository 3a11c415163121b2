/** The values a query handles (data/value.rs). */
module Values {

  const SIGN: int := 0x8000_0000_0000_0000
  const WORD: int := 0x1_0000_0000_0000_0000

  type byte = x: int | 0 <= x < 256
  type u64 = x: int | 0 <= x < WORD
  type i64 = x: int | -SIGN <= x < SIGN

  /** A double is its 64-bit pattern. */
  datatype Num = Int(i: i64) | Float(bits: u64)

  datatype Vector = F32(elems32: seq<u32>) | F64(elems64: seq<u64>)

  type u32 = x: int | 0 <= x < 0x1_0000_0000

  datatype Validity = Validity(ts: i64, isAssert: bool)

  /** Text is its UTF-8 bytes; a set is the ascending sequence of its elements. */
  datatype DataValue =
    | Null
    | Bool(b: bool)
    | Num(n: Num)
    | Str(text: seq<byte>)
    | Bytes(bytes: seq<byte>)
    | Uuid(uuid: seq<byte>)
    | Regex(pattern: seq<byte>)
    | List(items: seq<DataValue>)
    | Set(members: seq<DataValue>)
    | Vec(vec: Vector)
    | Json(json: seq<byte>)
    | Vld(vld: Validity)
    | Bot

  type Tuple = seq<DataValue>
}
