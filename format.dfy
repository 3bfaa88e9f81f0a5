/** The indexed-v1 feed format: a native message is a bare header or a
    `(header, payload)` tuple, and only the `'js'` encoding exists. */
module Format {
  import opened Js
  import Foreign
  import Validation

  /** An `encoding` argument that selects `'js'`, the default when omitted. */
  predicate IsJsEncoding(encoding: Value) {
    encoding == Undefined || encoding == Str("js")
  }

  /** `isAuthor(feedId)` */
  predicate IsAuthor(env: Foreign.Env, feedId: Value) {
    feedId.Str? && Foreign.IsIndexedV1FeedUri(env, feedId)
  }

  /** `isAuthor` accepts exactly the authors the validator's author rule
      accepts. */
  lemma IsAuthorAgreesWithValidator(env: Foreign.Env, msgVal: Value)
    ensures IsAuthor(env, Prop(msgVal, "author")) <==> Validation.ValidateAuthor(env, msgVal).None?
  {
  }

  /** `isNativeMsg(msgTuple)` */
  function IsNativeMsg(env: Foreign.Env, msgTuple: Value): (r: Completion<bool>)
    ensures msgTuple.Arr? && |msgTuple.elems| == 2 && !IsNullish(msgTuple.elems[0]) ==>
              r == Return(Foreign.IsIndexedV1FeedUri(env, Prop(msgTuple.elems[0], "author")) &&
                          (msgTuple.elems[1] == Null || env.classicIsNativeMsg(msgTuple.elems[1])))
    ensures !(msgTuple.Arr? && |msgTuple.elems| == 2) && !IsNullish(msgTuple) ==>
              r == Return(Foreign.IsIndexedV1FeedUri(env, Prop(msgTuple, "author")))
    ensures r.Throw? <==> (if msgTuple.Arr? && |msgTuple.elems| == 2 then IsNullish(msgTuple.elems[0]) else IsNullish(msgTuple))
  {
    if msgTuple.Arr? && |msgTuple.elems| == 2 then
      var indexMsg, payload := msgTuple.elems[0], msgTuple.elems[1];
      if IsNullish(indexMsg) then Throw(TypeError)
      else Return(Foreign.IsIndexedV1FeedUri(env, Prop(indexMsg, "author")) &&
                  (StrictEquals(payload, Null) || env.classicIsNativeMsg(payload)))
    else if IsNullish(msgTuple) then Throw(TypeError)
    else Return(Foreign.IsIndexedV1FeedUri(env, Prop(msgTuple, "author")))
  }

  /** `msgTuple[0].author` or `msgTuple.author`, whichever form it has. */
  function HeaderField(msgTuple: Value, name: string): Completion<Value> {
    var indexMsg := Unwrap(msgTuple);
    if IsNullish(indexMsg) then Throw(TypeError) else Return(Prop(indexMsg, name))
  }

  /** `getFeedId(msgTuple)` */
  function GetFeedId(msgTuple: Value): (r: Completion<Value>)
    ensures !msgTuple.Arr? && !IsNullish(msgTuple) ==> r == Return(Prop(msgTuple, "author"))
    ensures msgTuple.Arr? && |msgTuple.elems| > 0 && !IsNullish(msgTuple.elems[0]) ==>
              r == Return(Prop(msgTuple.elems[0], "author"))
  {
    HeaderField(msgTuple, "author")
  }

  /** `getSequence(msgTuple)` */
  function GetSequence(msgTuple: Value): (r: Completion<Value>)
    ensures !msgTuple.Arr? && !IsNullish(msgTuple) ==> r == Return(Prop(msgTuple, "sequence"))
    ensures msgTuple.Arr? && |msgTuple.elems| > 0 && !IsNullish(msgTuple.elems[0]) ==>
              r == Return(Prop(msgTuple.elems[0], "sequence"))
  {
    HeaderField(msgTuple, "sequence")
  }

  /** Both accessors read the header alike from a bare header and from a tuple. */
  lemma AccessorsIgnoreTupling(header: Value, payload: Value)
    requires !header.Arr?
    ensures GetFeedId(Arr([header, payload])) == GetFeedId(header)
    ensures GetSequence(Arr([header, payload])) == GetSequence(header)
  {
  }

  /** `newNativeMsg(opts)` */
  function NewNativeMsg(env: Foreign.Env, opts: Value): (r: Completion<Value>)
    ensures r.Throw? <==> IsNullish(opts)
    ensures r.Return? ==> r.value.Arr? && |r.value.elems| == 2
    ensures r.Return? ==> r.value.elems[0] == env.classicNewNativeMsg(opts)
    ensures r.Return? ==> r.value.elems[1] == (if Truthy(Prop(opts, "payload")) then Prop(opts, "payload") else Null)
  {
    if IsNullish(opts) then Throw(TypeError)
    else
      var msgVal := env.classicNewNativeMsg(opts);
      var payload := if Truthy(Prop(opts, "payload")) then Prop(opts, "payload") else Null;
      Return(Arr([msgVal, payload]))
  }

  /** `fromNativeMsg(msgTuple, encoding)` */
  function FromNativeMsg(msgTuple: Value, encoding: Value): (r: Completion<Value>)
    ensures !IsJsEncoding(encoding) ==> r == Throw(UnsupportedEncoding(encoding))
    ensures IsJsEncoding(encoding) && !msgTuple.Arr? ==> r == Return(msgTuple)
    ensures IsJsEncoding(encoding) && msgTuple.Arr? && |msgTuple.elems| > 0 ==> r == Return(msgTuple.elems[0])
  {
    if IsJsEncoding(encoding) then Return(Unwrap(msgTuple))
    else Throw(UnsupportedEncoding(encoding))
  }

  /** `toNativeMsg(msgVal, encoding)` */
  function ToNativeMsg(msgVal: Value, encoding: Value): (r: Completion<Value>)
    ensures !IsJsEncoding(encoding) ==> r == Throw(UnsupportedEncoding(encoding))
    ensures IsJsEncoding(encoding) ==> r == Return(msgVal)
  {
    if IsJsEncoding(encoding) then Return(msgVal) else Throw(UnsupportedEncoding(encoding))
  }

  /** Converting a header to the native form and back gives the header, and
      converting a tuple to the JS form discards only the payload. */
  lemma NativeRoundTrip(header: Value, payload: Value, encoding: Value)
    requires !header.Arr? && IsJsEncoding(encoding)
    ensures ToNativeMsg(header, encoding).Return?
    ensures FromNativeMsg(ToNativeMsg(header, encoding).value, encoding) == Return(header)
    ensures FromNativeMsg(Arr([header, payload]), encoding) == FromNativeMsg(header, encoding)
  {
  }

  /** The native message after its header's `content` is set to `content`;
      in a tuple the header is the first element and the rest stays. */
  function WithContent(msgTuple: Value, content: Value): Value {
    if msgTuple.Arr? && |msgTuple.elems| > 0 then
      Arr([SetProp(msgTuple.elems[0], "content", content)] + msgTuple.elems[1..])
    else SetProp(msgTuple, "content", content)
  }

  /** Setting the content changes a header in that one property: every other
      property reads as before, and an existing `content` keeps its place. */
  lemma {:induction false} WithContentTouchesOnlyContent(header: Value, content: Value, name: string)
    requires header.Obj?
    ensures Prop(WithContent(header, content), "content") == content
    ensures name != "content" ==> Prop(WithContent(header, content), name) == Prop(header, name)
    ensures Prop(header, "content") != Undefined ==> ObjectKeys(WithContent(header, content)) == ObjectKeys(header)
  {
    if Prop(header, "content") != Undefined {
      SetFieldKeepsNames(header.fields, "content", content);
    }
  }

  /** `fromDecryptedNativeMsg(plaintextBuf, msgTuple, encoding)`: replaces the
      header's content, in place, with the parsed plaintext. */
  method FromDecryptedNativeMsg(env: Foreign.Env, plaintext: seq<bv8>, msgTuple: Ref, encoding: Value)
    returns (r: Completion<Value>)
    modifies msgTuple
    ensures !IsJsEncoding(encoding) ==> r == Throw(UnsupportedEncoding(encoding)) && msgTuple.value == old(msgTuple.value)
    ensures IsJsEncoding(encoding) && env.parsePlaintext(plaintext).None? ==>
              r == Throw(SyntaxError) && msgTuple.value == old(msgTuple.value)
    ensures IsJsEncoding(encoding) && env.parsePlaintext(plaintext).Some? && IsNullish(Unwrap(old(msgTuple.value))) ==>
              r == Throw(TypeError) && msgTuple.value == old(msgTuple.value)
    ensures IsJsEncoding(encoding) && env.parsePlaintext(plaintext).Some? && !IsNullish(Unwrap(old(msgTuple.value))) ==>
              msgTuple.value == WithContent(old(msgTuple.value), env.parsePlaintext(plaintext).value) &&
              r == Return(Unwrap(msgTuple.value))
  {
    if !IsJsEncoding(encoding) {
      return Throw(UnsupportedEncoding(encoding));
    }
    var indexMsg := Unwrap(msgTuple.value);
    var parsed := env.parsePlaintext(plaintext);
    if parsed.None? {
      return Throw(SyntaxError);
    }
    if IsNullish(indexMsg) {
      return Throw(TypeError);
    }
    var updated := SetProp(indexMsg, "content", parsed.value);
    if msgTuple.value.Arr? {
      msgTuple.value := Arr([updated] + msgTuple.value.elems[1..]);
    } else {
      msgTuple.value := updated;
    }
    r := Return(updated);
  }
}
