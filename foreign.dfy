/** The libraries the core calls but does not implement. Each is an arbitrary
    total function; the model proves its properties for every choice of them. */
module Foreign {
  import opened Js

  datatype Env = Env(
    /** ssb-uri2 `isIndexedV1FeedSSBURI`, on strings */
    isIndexedV1FeedUri: string -> bool,
    /** ssb-ref `isMsg` */
    isMsgRef: Value -> bool,
    /** the is-canonical-base64 signature pattern `<base64>.sig.<word>` */
    isCanonicalSignature: string -> bool,
    /** ssb-keys `verifyObj` with the key decoded from the author URI:
        (author, hmacKey, msgVal) */
    verifySignature: (Value, Value, Value) -> bool,
    /** ssb-classic `getMsgId` */
    classicMsgId: Value -> string,
    /** ssb-classic `isNativeMsg` */
    classicIsNativeMsg: Value -> bool,
    /** ssb-classic `newNativeMsg` */
    classicNewNativeMsg: Value -> Value,
    /** `JSON.stringify(v, null, 2)` */
    stringify2: Value -> string,
    /** ssb-keys `hash` (standard base64 of a SHA-256 digest) */
    hash: string -> string,
    /** `Buffer.from(s, 'base64')` */
    base64Decode: string -> seq<bv8>,
    /** `buf.toString('base64')` */
    base64Encode: seq<bv8> -> string,
    /** `JSON.parse(buf.toString('utf8'))`; `None` when it throws */
    parsePlaintext: seq<bv8> -> Option<Value>
  )

  /** ssb-subset-ql's QL0 operations on queries. */
  datatype QueryLang = QueryLang(
    /** `QL0.validate` does not throw */
    isValid: Value -> bool,
    /** `QL0.stringify(QL0.parse(q))`: the canonical query ID */
    canonical: Value -> string,
    /** `QL0.parse(q).author` */
    author: Value -> Value
  )

  /** `isIndexedV1FeedSSBURI(v)`, false for anything that is not a string. */
  predicate IsIndexedV1FeedUri(env: Env, v: Value) {
    v.Str? && env.isIndexedV1FeedUri(v.s)
  }
}
