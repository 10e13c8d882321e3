/** JSON values, as far as the replies of the worker need them. */
module Json {
  /** The field names of the reply schema, and any other. */
  datatype Key =
    | KOk | KType | KFrameId | KBoxes | KPoints | KRawText | KTruncated | KDropped | KImageSize | KResizePlan
    | KMode | KLatency | KTotal | KCode | KMessage | KLabel | KBoxNorm | KBoxPx | KPointNorm | KPointPx
    | KDstW | KDstH | KTokens | KScale | KOther(name: string)

  /** `Fixed` is a number with two decimals, in hundredths. */
  datatype Value =
    | Null
    | Bool(b: bool)
    | Text(s: string)
    | Whole(n: int)
    | Fixed(hundredths: int)
    | Real(r: real)
    | List(items: seq<Value>)
    | Object(fields: map<Key, Value>)
}
