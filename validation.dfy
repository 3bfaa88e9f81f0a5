/** The indexed-v1 message validator: a fixed pipeline of rules over an entry
    of a hash-chained log, reporting the first rule that fails. */
module Validation {
  import opened Js
  import opened Foreign
  import MsgId

  /** One constructor per error the rules return. */
  datatype Error =
    | TupleNotPair                // tuple must have 2 elements
    | NotAnObject
    | MissingField(field: string) // must have <field>
    | HmacNotStringOrBuffer
    | HmacNotCanonical            // a string key is not its own base64 re-encoding
    | HmacNotThirtyTwoBytes
    | AuthorNotUri
    | HashNotSha256
    | TimestampNotNumber
    | PreviousMismatch
    | SequenceNotInteger
    | SequenceMismatch
    | FirstPreviousNotNull
    | FirstSequenceNotOne
    | WrongFieldCount
    | WrongFieldOrder
    | ContentFalsy
    | ContentIsArray
    | ContentNotObjectOrString
    | ContentNotBox
    | ContentTypeMissing
    | ContentTypeNotIndex
    | IndexedNotMsgRef
    | PayloadMismatch
    | TooLong
    | SignatureNotString
    | SignatureSuffix
    | SignatureNotCanonical
    | SignatureNotSixtyFourBytes
    | SignatureMismatch

  /** The outcome of validating one entry: no error, an error returned, or an
      exception thrown out of the validator. */
  datatype Verdict = Accept | Reject(error: Error) | Crash(exception: Exception)

  /** The fields `validateShape` demands, in the order it checks them. */
  const RequiredFields: seq<string> := ["author", "previous", "sequence"] + LastFields

  /** The fields the last four places in an entry's key order hold. */
  const LastFields: seq<string> := ["timestamp", "hash", "content", "signature"]

  /** The two key orders `validateOrder` allows. */
  const AuthorFirstOrder: seq<string> := ["previous", "author", "sequence"] + LastFields
  const SequenceFirstOrder: seq<string> := ["previous", "sequence", "author"] + LastFields

  const MaxJsonLength: nat := 8192
  const SignatureLength: nat := 100
  const SignatureSuffixText: string := ".sig.ed25519"
  const IndexType: string := "metafeed/index"

  // ---------------------------------------------------------------- rules

  /** The first of `names` that `msgVal` lacks. */
  function FirstMissing(msgVal: Value, names: seq<string>): (r: Option<Error>)
    ensures r.None? <==> forall i :: 0 <= i < |names| ==> Prop(msgVal, names[i]) != Undefined
    ensures r.Some? ==> exists k :: 0 <= k < |names| && r.value == MissingField(names[k]) &&
                          Prop(msgVal, names[k]) == Undefined &&
                          forall i :: 0 <= i < k ==> Prop(msgVal, names[i]) != Undefined
  {
    if names == [] then None
    else if Prop(msgVal, names[0]) == Undefined then Some(MissingField(names[0]))
    else
      var r := FirstMissing(msgVal, names[1..]);
      assert r.Some? ==> exists k :: 1 <= k < |names| && r.value == MissingField(names[k]) &&
                          Prop(msgVal, names[k]) == Undefined &&
                          forall i :: 0 <= i < k ==> Prop(msgVal, names[i]) != Undefined by {
        if r.Some? {
          var k :| 0 <= k < |names[1..]| && r.value == MissingField(names[1..][k]) &&
                   Prop(msgVal, names[1..][k]) == Undefined &&
                   forall i :: 0 <= i < k ==> Prop(msgVal, names[1..][i]) != Undefined;
          assert forall i :: 0 <= i < k + 1 ==> Prop(msgVal, names[i]) != Undefined by {
            forall i | 0 <= i < k + 1 ensures Prop(msgVal, names[i]) != Undefined {
              if i > 0 { assert names[i] == names[1..][i - 1]; }
            }
          }
          assert names[k + 1] == names[1..][k];
        }
      }
      r
  }

  /** `validateShape(nativeMsg)` */
  function ValidateShape(nativeMsg: Value): (r: Option<Error>)
    ensures nativeMsg.Arr? && |nativeMsg.elems| != 2 ==> r == Some(TupleNotPair)
    ensures !nativeMsg.Arr? ==>
              (r.None? <==> nativeMsg.Obj? && forall i :: 0 <= i < |RequiredFields| ==> Prop(nativeMsg, RequiredFields[i]) != Undefined)
    ensures nativeMsg.Obj? ==> r == FirstMissing(nativeMsg, RequiredFields)
    ensures nativeMsg.Arr? && r.None? ==> |nativeMsg.elems| == 2
    ensures r.Some? ==> RuleOf(r.value) == ShapeRule
  {
    if nativeMsg.Arr? then
      if |nativeMsg.elems| != 2 then Some(TupleNotPair) else ValidateShape(nativeMsg.elems[0])
    else if !Truthy(nativeMsg) || !IsObjectType(nativeMsg) then Some(NotAnObject)
    else FirstMissing(nativeMsg, RequiredFields)
  }

  /** What `validateHmac` demands of a key, stated directly. */
  predicate HmacKeyOk(env: Env, hmacKey: Value) {
    || !Truthy(hmacKey)
    || (hmacKey.Buf? && |hmacKey.bytes| == 32)
    || (hmacKey.Str? && env.base64Encode(env.base64Decode(hmacKey.s)) == hmacKey.s && |env.base64Decode(hmacKey.s)| == 32)
  }

  /** `validateHmac(hmacKey)` */
  function ValidateHmac(env: Env, hmacKey: Value): (r: Option<Error>)
    ensures r.None? <==> HmacKeyOk(env, hmacKey)
    ensures r == Some(HmacNotStringOrBuffer) <==> Truthy(hmacKey) && !hmacKey.Str? && !hmacKey.Buf?
    ensures r.Some? ==> RuleOf(r.value) == HmacRule
  {
    if !Truthy(hmacKey) then None
    else if !hmacKey.Str? && !hmacKey.Buf? then Some(HmacNotStringOrBuffer)
    else
      var bytes := if hmacKey.Buf? then hmacKey.bytes else env.base64Decode(hmacKey.s);
      if hmacKey.Str? && env.base64Encode(bytes) != hmacKey.s then Some(HmacNotCanonical)
      else if |bytes| != 32 then Some(HmacNotThirtyTwoBytes)
      else None
  }

  /** A 32-byte key passes whether given raw or as its base64 text, provided
      the codec decodes that text back to the key. */
  lemma EncodedKeyPasses(env: Env, key: seq<bv8>)
    requires |key| == 32
    requires env.base64Decode(env.base64Encode(key)) == key
    ensures ValidateHmac(env, Buf(key)) == None
    ensures ValidateHmac(env, Str(env.base64Encode(key))) == None
  {
  }

  /** `validateAuthor(msgVal)` */
  function ValidateAuthor(env: Env, msgVal: Value): (r: Option<Error>)
    ensures r.None? <==> IsIndexedV1FeedUri(env, Prop(msgVal, "author"))
    ensures r.Some? ==> RuleOf(r.value) == AuthorRule
  {
    if !IsIndexedV1FeedUri(env, Prop(msgVal, "author")) then Some(AuthorNotUri) else None
  }

  /** `validateHash(msgVal)` */
  function ValidateHash(msgVal: Value): (r: Option<Error>)
    ensures r.None? <==> Prop(msgVal, "hash") == Str("sha256")
    ensures r.Some? ==> RuleOf(r.value) == HashRule
  {
    if !StrictEquals(Prop(msgVal, "hash"), Str("sha256")) then Some(HashNotSha256) else None
  }

  /** `validateTimestamp(msgVal)` */
  function ValidateTimestamp(msgVal: Value): (r: Option<Error>)
    ensures r.None? <==> Prop(msgVal, "timestamp").Num?
    ensures r.Some? ==> RuleOf(r.value) == TimestampRule
  {
    if !Prop(msgVal, "timestamp").Num? then Some(TimestampNotNumber) else None
  }

  /** The ID `validatePrevious` expects: the prior header's own `id` when that
      is truthy, else its computed message ID. */
  function ExpectedPrevious(env: Env, prevMsgVal: Value): Value {
    var id := Prop(prevMsgVal, "id");
    if Truthy(id) then id else Str(MsgId.MsgIdOf(env, prevMsgVal))
  }

  /** `validatePrevious(msgVal, prevNativeMsg)`, given the unwrapped prior header. */
  function ValidatePrevious(env: Env, msgVal: Value, prevMsgVal: Value): (r: Option<Error>)
    ensures !Prop(prevMsgVal, "id").Obj? && !Prop(prevMsgVal, "id").Arr? && !Prop(prevMsgVal, "id").Buf? ==>
              (r.None? <==> Prop(msgVal, "previous") == ExpectedPrevious(env, prevMsgVal))
    ensures !Truthy(Prop(prevMsgVal, "id")) ==>
              (r.None? <==> Prop(msgVal, "previous") == Str(MsgId.MsgIdOf(env, prevMsgVal)))
  {
    if !StrictEquals(Prop(msgVal, "previous"), ExpectedPrevious(env, prevMsgVal)) then Some(PreviousMismatch)
    else None
  }

  /** `validateSequence(msgVal, prevNativeMsg)`, given the unwrapped prior header. */
  function ValidateSequence(msgVal: Value, prevMsgVal: Value): (r: Option<Error>)
    ensures r == Some(SequenceNotInteger) <==> !IsInteger(Prop(msgVal, "sequence"))
    ensures r.None? <==> IsInteger(Prop(msgVal, "sequence")) &&
                         PlusOne(Prop(prevMsgVal, "sequence")).Some? &&
                         Prop(msgVal, "sequence") == Num(PlusOne(Prop(prevMsgVal, "sequence")).value)
  {
    var sequence := Prop(msgVal, "sequence");
    if !IsInteger(sequence) then Some(SequenceNotInteger)
    else
      var next := PlusOne(Prop(prevMsgVal, "sequence"));
      if !(next.Some? && StrictEquals(sequence, Num(next.value))) then Some(SequenceMismatch)
      else None
  }

  /** Against a prior header with an integer sequence `n`, exactly `n + 1` passes. */
  lemma SequenceFollowsPrior(msgVal: Value, prevMsgVal: Value, n: int)
    requires Prop(prevMsgVal, "sequence") == Num(n as real)
    ensures ValidateSequence(msgVal, prevMsgVal).None? <==> Prop(msgVal, "sequence") == Num((n + 1) as real)
  {
  }

  /** `validateFirstPrevious(msgVal)` */
  function ValidateFirstPrevious(msgVal: Value): (r: Option<Error>)
    ensures r.None? <==> Prop(msgVal, "previous") == Null
  {
    if !StrictEquals(Prop(msgVal, "previous"), Null) then Some(FirstPreviousNotNull) else None
  }

  /** `validateFirstSequence(msgVal)` */
  function ValidateFirstSequence(msgVal: Value): (r: Option<Error>)
    ensures r.None? <==> Prop(msgVal, "sequence") == Num(1.0)
  {
    if !StrictEquals(Prop(msgVal, "sequence"), Num(1.0)) then Some(FirstSequenceNotOne) else None
  }

  /** `validateOrder(msgVal)` */
  function ValidateOrder(msgVal: Value): (r: Option<Error>)
    ensures r == Some(WrongFieldCount) <==> |ObjectKeys(msgVal)| != 7
    ensures r.None? <==> ObjectKeys(msgVal) == AuthorFirstOrder || ObjectKeys(msgVal) == SequenceFirstOrder
    ensures r.Some? ==> RuleOf(r.value) == OrderRule
  {
    var keys := ObjectKeys(msgVal);
    if |keys| != 7 then Some(WrongFieldCount)
    else if keys[0] != "previous" || keys[3] != "timestamp" || keys[4] != "hash" ||
            keys[5] != "content" || keys[6] != "signature" then Some(WrongFieldOrder)
    else if !((keys[1] == "sequence" && keys[2] == "author") || (keys[1] == "author" && keys[2] == "sequence")) then
      Some(WrongFieldOrder)
    else
      assert keys == [keys[0], keys[1], keys[2], keys[3], keys[4], keys[5], keys[6]];
      None
  }

  /** Swapping two adjacent elements keeps a sequence's multiset. */
  lemma SwapKeepsMultiset<T>(front: seq<T>, x: T, y: T, rest: seq<T>)
    ensures multiset(front + [y, x] + rest) == multiset(front + [x, y] + rest)
  {
    calc {
      multiset(front + [y, x] + rest);
      multiset(front) + multiset([y, x]) + multiset(rest);
      multiset(front) + multiset{y, x} + multiset(rest);
      multiset(front) + multiset([x, y]) + multiset(rest);
      multiset(front + [x, y] + rest);
    }
  }

  /** An accepted key order is a permutation of the seven required fields
      that puts `previous` first and keeps the last four in their order. */
  lemma OrderIsPermutationOfRequired(keys: seq<string>)
    requires keys == AuthorFirstOrder || keys == SequenceFirstOrder
    ensures multiset(keys) == multiset(RequiredFields)
    ensures keys[0] == "previous" && keys[3..] == RequiredFields[3..]
  {
    AuthorFirstIsPermutation();
    SequenceFirstIsAuthorFirstSwapped();
    assert RequiredFields[3..] == LastFields;
  }

  lemma AuthorFirstIsPermutation()
    ensures multiset(AuthorFirstOrder) == multiset(RequiredFields)
  {
    SwapKeepsMultiset([], "author", "previous", ["sequence"] + LastFields);
    assert AuthorFirstOrder == [] + ["previous", "author"] + (["sequence"] + LastFields);
    assert RequiredFields == [] + ["author", "previous"] + (["sequence"] + LastFields);
  }

  lemma SequenceFirstIsAuthorFirstSwapped()
    ensures multiset(SequenceFirstOrder) == multiset(AuthorFirstOrder)
  {
    SwapKeepsMultiset(["previous"], "author", "sequence", LastFields);
    assert SequenceFirstOrder == ["previous"] + ["sequence", "author"] + LastFields;
    assert AuthorFirstOrder == ["previous"] + ["author", "sequence"] + LastFields;
  }

  /** The errors `validateContent` returns. */
  const ContentErrors: set<Error> :=
    {ContentFalsy, ContentIsArray, ContentNotObjectOrString, ContentNotBox,
     ContentTypeMissing, ContentTypeNotIndex, IndexedNotMsgRef}

  /** What `validateContent` demands of a content value, stated directly. */
  predicate ContentOk(env: Env, content: Value) {
    || (content.Str? && (EndsWith(content.s, ".box") || EndsWith(content.s, ".box2")))
    || (content.Obj? && Prop(content, "type") == Str(IndexType) && env.isMsgRef(Prop(content, "indexed")))
  }

  /** `validateContent(msgVal)` */
  function ValidateContent(env: Env, msgVal: Value): (r: Option<Error>)
    ensures r.None? <==> ContentOk(env, Prop(msgVal, "content"))
    ensures Prop(msgVal, "content").Arr? ==> r == Some(ContentIsArray)
    ensures !Truthy(Prop(msgVal, "content")) ==> r == Some(ContentFalsy)
    ensures r.Some? ==> r.value in ContentErrors
  {
    var content := Prop(msgVal, "content");
    if !Truthy(content) then Some(ContentFalsy)
    else if content.Arr? then Some(ContentIsArray)
    else if !IsObjectType(content) && !content.Str? then Some(ContentNotObjectOrString)
    else if content.Str? && !EndsWith(content.s, ".box") && !EndsWith(content.s, ".box2") then Some(ContentNotBox)
    else if IsObjectType(content) then
      var ty := Prop(content, "type");
      if !Truthy(ty) || !ty.Str? then Some(ContentTypeMissing)
      else if !StrictEquals(ty, Str(IndexType)) then Some(ContentTypeNotIndex)
      else if !env.isMsgRef(Prop(content, "indexed")) then Some(IndexedNotMsgRef)
      else None
    else None
  }

  /** `validatePayload(msgVal, payload)` */
  function ValidatePayload(env: Env, msgVal: Value, payload: Value): (r: Option<Error>)
    ensures !Truthy(payload) ==> r.None?
    ensures Truthy(payload) ==>
              (r.None? <==> Prop(Prop(msgVal, "content"), "indexed") == Str(env.classicMsgId(payload)))
    ensures r.Some? ==> RuleOf(r.value) == PayloadRule
  {
    if !Truthy(payload) then None
    else if !StrictEquals(Str(env.classicMsgId(payload)), Prop(Prop(msgVal, "content"), "indexed")) then
      Some(PayloadMismatch)
    else None
  }

  /** `validateAsJSON(msgVal)` */
  function ValidateAsJson(env: Env, msgVal: Value): (r: Option<Error>)
    ensures r.None? <==> |env.stringify2(msgVal)| <= MaxJsonLength
    ensures r.Some? ==> RuleOf(r.value) == JsonRule
  {
    if |env.stringify2(msgVal)| > MaxJsonLength then Some(TooLong) else None
  }

  /** The errors `validateSignature` returns. */
  const SignatureErrors: set<Error> :=
    {SignatureNotString, SignatureSuffix, SignatureNotCanonical, SignatureNotSixtyFourBytes, SignatureMismatch}

  /** What `validateSignature` demands, stated directly. */
  predicate SignatureOk(env: Env, msgVal: Value, hmacKey: Value) {
    var signature := Prop(msgVal, "signature");
    && signature.Str?
    && EndsWith(signature.s, SignatureSuffixText)
    && env.isCanonicalSignature(signature.s)
    && |signature.s| == SignatureLength
    && env.verifySignature(Prop(msgVal, "author"), hmacKey, msgVal)
  }

  /** `validateSignature(msgVal, hmacKey)` */
  function ValidateSignature(env: Env, msgVal: Value, hmacKey: Value): (r: Option<Error>)
    ensures r.None? <==> SignatureOk(env, msgVal, hmacKey)
    ensures r == Some(SignatureMismatch) ==>
              Prop(msgVal, "signature").Str? && |Prop(msgVal, "signature").s| == SignatureLength &&
              EndsWith(Prop(msgVal, "signature").s, SignatureSuffixText) &&
              env.isCanonicalSignature(Prop(msgVal, "signature").s)
    ensures r.Some? ==> r.value in SignatureErrors
  {
    var signature := Prop(msgVal, "signature");
    if !signature.Str? then Some(SignatureNotString)
    else if !EndsWith(signature.s, SignatureSuffixText) then Some(SignatureSuffix)
    else if !env.isCanonicalSignature(signature.s) then Some(SignatureNotCanonical)
    else if |signature.s| != SignatureLength then Some(SignatureNotSixtyFourBytes)
    else if !env.verifySignature(Prop(msgVal, "author"), hmacKey, msgVal) then Some(SignatureMismatch)
    else None
  }

  // ------------------------------------------------------------- pipeline

  /** The payload `validateSync` hands to `validatePayload`. */
  function PayloadOf(nativeMsg: Value): Value {
    if nativeMsg.Arr? && |nativeMsg.elems| >= 2 then nativeMsg.elems[1] else Null
  }

  function Of(e: Option<Error>): Verdict {
    if e.Some? then Reject(e.value) else Accept
  }

  /** The rules `validateSync` runs. */
  datatype Rule =
    | ShapeRule | HmacRule | AuthorRule | HashRule | TimestampRule | ChainRule
    | OrderRule | ContentRule | PayloadRule | JsonRule | SignatureRule

  /** The fixed order in which `validateSync` runs its rules. */
  const Pipeline: seq<Rule> :=
    [ShapeRule, HmacRule, AuthorRule, HashRule, TimestampRule, ChainRule,
     OrderRule, ContentRule, PayloadRule, JsonRule, SignatureRule]

  /** The outcome of one rule; every rule but the shape reads the header
      `Array.isArray(nativeMsg) ? nativeMsg[0] : nativeMsg`. */
  function Check(rule: Rule, env: Env, nativeMsg: Value, prev: Value, hmacKey: Value): Verdict {
    var msgVal := Unwrap(nativeMsg);
    match rule
    case ShapeRule => Of(ValidateShape(nativeMsg))
    case HmacRule => Of(ValidateHmac(env, hmacKey))
    case AuthorRule => Of(ValidateAuthor(env, msgVal))
    case HashRule => Of(ValidateHash(msgVal))
    case TimestampRule => Of(ValidateTimestamp(msgVal))
    case ChainRule => ValidateChain(env, msgVal, prev)
    case OrderRule => Of(ValidateOrder(msgVal))
    case ContentRule => Of(ValidateContent(env, msgVal))
    case PayloadRule => Of(ValidatePayload(env, msgVal, PayloadOf(nativeMsg)))
    case JsonRule => Of(ValidateAsJson(env, msgVal))
    case SignatureRule => Of(ValidateSignature(env, msgVal, hmacKey))
  }

  /** The chaining branch of `validateSync`: against the prior entry when one
      is given, else the rules for the first entry of a feed. Reading a
      property of a nullish prior header throws. */
  function ValidateChain(env: Env, msgVal: Value, prev: Value): (r: Verdict)
    ensures r.Reject? ==> RuleOf(r.error) == ChainRule
    ensures r.Crash? ==> r.exception == TypeError && Truthy(prev) && IsNullish(Unwrap(prev))
  {
    if Truthy(prev) then
      var prevMsgVal := Unwrap(prev);
      if IsNullish(prevMsgVal) then Crash(TypeError) else
      var previous := ValidatePrevious(env, msgVal, prevMsgVal);
      if previous.Some? then Reject(previous.value) else
      Of(ValidateSequence(msgVal, prevMsgVal))
    else
      var previous := ValidateFirstPrevious(msgVal);
      if previous.Some? then Reject(previous.value) else
      Of(ValidateFirstSequence(msgVal))
  }

  /** Runs `rules` in order and returns at the first that does not accept. */
  function RunRules(rules: seq<Rule>, env: Env, nativeMsg: Value, prev: Value, hmacKey: Value): (r: Verdict)
    ensures r == Accept <==> forall i :: 0 <= i < |rules| ==> Check(rules[i], env, nativeMsg, prev, hmacKey) == Accept
    ensures r != Accept ==>
              exists k :: 0 <= k < |rules| && r == Check(rules[k], env, nativeMsg, prev, hmacKey) &&
                          forall i :: 0 <= i < k ==> Check(rules[i], env, nativeMsg, prev, hmacKey) == Accept
  {
    if rules == [] then Accept
    else
      var first := Check(rules[0], env, nativeMsg, prev, hmacKey);
      if first != Accept then first
      else
        var r := RunRules(rules[1..], env, nativeMsg, prev, hmacKey);
        assert r != Accept ==>
                 exists k :: 1 <= k < |rules| && r == Check(rules[k], env, nativeMsg, prev, hmacKey) &&
                             forall i :: 0 <= i < k ==> Check(rules[i], env, nativeMsg, prev, hmacKey) == Accept by {
          if r != Accept {
            var k :| 0 <= k < |rules[1..]| && r == Check(rules[1..][k], env, nativeMsg, prev, hmacKey) &&
                     forall i :: 0 <= i < k ==> Check(rules[1..][i], env, nativeMsg, prev, hmacKey) == Accept;
            assert rules[k + 1] == rules[1..][k];
            forall i | 0 <= i < k + 1 ensures Check(rules[i], env, nativeMsg, prev, hmacKey) == Accept {
              if i > 0 { assert rules[i] == rules[1..][i - 1]; }
            }
          }
        }
        assert (forall i :: 0 <= i < |rules[1..]| ==> Check(rules[1..][i], env, nativeMsg, prev, hmacKey) == Accept) ==>
               forall i :: 0 <= i < |rules| ==> Check(rules[i], env, nativeMsg, prev, hmacKey) == Accept by {
          forall i | 0 <= i < |rules| && i > 0 ensures rules[i] == rules[1..][i - 1] { }
        }
        r
  }

  /** `validateSync(nativeMsg, prevNativeMsg, hmacKey)` */
  function ValidateSync(env: Env, nativeMsg: Value, prev: Value, hmacKey: Value): Verdict {
    RunRules(Pipeline, env, nativeMsg, prev, hmacKey)
  }

  /** `validateSync` reports the error of the first failing rule in the fixed
      order, and returns no error only when every rule passes. */
  lemma ValidateSyncReportsFirstFailure(env: Env, nativeMsg: Value, prev: Value, hmacKey: Value)
    ensures ValidateSync(env, nativeMsg, prev, hmacKey) == Accept <==>
              forall i :: 0 <= i < |Pipeline| ==> Check(Pipeline[i], env, nativeMsg, prev, hmacKey) == Accept
    ensures ValidateSync(env, nativeMsg, prev, hmacKey) != Accept ==>
              exists k :: 0 <= k < |Pipeline| && ValidateSync(env, nativeMsg, prev, hmacKey) == Check(Pipeline[k], env, nativeMsg, prev, hmacKey) &&
                          forall i :: 0 <= i < k ==> Check(Pipeline[i], env, nativeMsg, prev, hmacKey) == Accept
  {
  }

  /** The rule that returns a given error. */
  function RuleOf(e: Error): Rule {
    match e
    case TupleNotPair => ShapeRule
    case NotAnObject => ShapeRule
    case MissingField(_) => ShapeRule
    case HmacNotStringOrBuffer => HmacRule
    case HmacNotCanonical => HmacRule
    case HmacNotThirtyTwoBytes => HmacRule
    case AuthorNotUri => AuthorRule
    case HashNotSha256 => HashRule
    case TimestampNotNumber => TimestampRule
    case PreviousMismatch => ChainRule
    case SequenceNotInteger => ChainRule
    case SequenceMismatch => ChainRule
    case FirstPreviousNotNull => ChainRule
    case FirstSequenceNotOne => ChainRule
    case WrongFieldCount => OrderRule
    case WrongFieldOrder => OrderRule
    case ContentFalsy => ContentRule
    case ContentIsArray => ContentRule
    case ContentNotObjectOrString => ContentRule
    case ContentNotBox => ContentRule
    case ContentTypeMissing => ContentRule
    case ContentTypeNotIndex => ContentRule
    case IndexedNotMsgRef => ContentRule
    case PayloadMismatch => PayloadRule
    case TooLong => JsonRule
    case SignatureNotString => SignatureRule
    case SignatureSuffix => SignatureRule
    case SignatureNotCanonical => SignatureRule
    case SignatureNotSixtyFourBytes => SignatureRule
    case SignatureMismatch => SignatureRule
  }

  /** The place of a rule in the pipeline. */
  function Position(rule: Rule): (k: nat)
    ensures k < |Pipeline| && Pipeline[k] == rule
  {
    match rule
    case ShapeRule => 0
    case HmacRule => 1
    case AuthorRule => 2
    case HashRule => 3
    case TimestampRule => 4
    case ChainRule => 5
    case OrderRule => 6
    case ContentRule => 7
    case PayloadRule => 8
    case JsonRule => 9
    case SignatureRule => 10
  }

  /** Each rule appears in the pipeline once. */
  lemma PipelineHasNoRepeats(i: nat)
    requires i < |Pipeline|
    ensures Position(Pipeline[i]) == i
  {
  }

  /** Every rule returns only its own errors. */
  lemma RuleReturnsOwnErrors(rule: Rule, env: Env, nativeMsg: Value, prev: Value, hmacKey: Value)
    ensures Check(rule, env, nativeMsg, prev, hmacKey).Reject? ==>
              RuleOf(Check(rule, env, nativeMsg, prev, hmacKey).error) == rule
  {
    var msgVal := Unwrap(nativeMsg);
    match rule
    case ContentRule =>
      var r := ValidateContent(env, msgVal);
      if r.Some? {
        ContentErrorsBelongToContentRule(r.value);
      }
    case SignatureRule =>
      var r := ValidateSignature(env, msgVal, hmacKey);
      if r.Some? {
        SignatureErrorsBelongToSignatureRule(r.value);
      }
    case _ =>
  }

  lemma ContentErrorsBelongToContentRule(e: Error)
    requires e in ContentErrors
    ensures RuleOf(e) == ContentRule
  {
  }

  lemma SignatureErrorsBelongToSignatureRule(e: Error)
    requires e in SignatureErrors
    ensures RuleOf(e) == SignatureRule
  {
  }


  /** An error names the rule that failed, and every rule before it passed. */
  lemma ErrorNamesFailedRule(env: Env, nativeMsg: Value, prev: Value, hmacKey: Value)
    requires ValidateSync(env, nativeMsg, prev, hmacKey).Reject?
    ensures var k := Position(RuleOf(ValidateSync(env, nativeMsg, prev, hmacKey).error));
            && Check(Pipeline[k], env, nativeMsg, prev, hmacKey) == ValidateSync(env, nativeMsg, prev, hmacKey)
            && forall i :: 0 <= i < k ==> Check(Pipeline[i], env, nativeMsg, prev, hmacKey) == Accept
  {
    var r := ValidateSync(env, nativeMsg, prev, hmacKey);
    ValidateSyncReportsFirstFailure(env, nativeMsg, prev, hmacKey);
    var k :| 0 <= k < |Pipeline| && r == Check(Pipeline[k], env, nativeMsg, prev, hmacKey) &&
             forall i :: 0 <= i < k ==> Check(Pipeline[i], env, nativeMsg, prev, hmacKey) == Accept;
    RuleReturnsOwnErrors(Pipeline[k], env, nativeMsg, prev, hmacKey);
    PipelineHasNoRepeats(k);
  }

  /** An accepted entry passed the shape rule and the chaining rules. */
  lemma AcceptedPassesShapeAndChain(env: Env, nativeMsg: Value, prev: Value, hmacKey: Value)
    requires ValidateSync(env, nativeMsg, prev, hmacKey) == Accept
    ensures ValidateShape(nativeMsg).None?
    ensures ValidateChain(env, Unwrap(nativeMsg), prev) == Accept
  {
    ValidateSyncReportsFirstFailure(env, nativeMsg, prev, hmacKey);
    assert Pipeline[0] == ShapeRule && Pipeline[5] == ChainRule;
    assert Check(Pipeline[0], env, nativeMsg, prev, hmacKey) == Accept;
    assert Check(Pipeline[5], env, nativeMsg, prev, hmacKey) == Accept;
  }

  // ------------------------------------------------------ declarative view

  /** The chaining rules, stated directly. */
  predicate ChainOk(env: Env, msgVal: Value, prev: Value) {
    if Truthy(prev) then
      var prevMsgVal := Unwrap(prev);
      && !IsNullish(prevMsgVal)
      && StrictEquals(Prop(msgVal, "previous"), ExpectedPrevious(env, prevMsgVal))
      && IsInteger(Prop(msgVal, "sequence"))
      && PlusOne(Prop(prevMsgVal, "sequence")).Some?
      && Prop(msgVal, "sequence") == Num(PlusOne(Prop(prevMsgVal, "sequence")).value)
    else
      Prop(msgVal, "previous") == Null && Prop(msgVal, "sequence") == Num(1.0)
  }

  /** The shape rules, stated directly: a tuple is a pair whose first
      element has the shape, and a header is an object with every required field. */
  predicate ShapeOk(nativeMsg: Value) {
    if nativeMsg.Arr? then |nativeMsg.elems| == 2 && ShapeOk(nativeMsg.elems[0])
    else nativeMsg.Obj? && forall i :: 0 <= i < |RequiredFields| ==> Prop(nativeMsg, RequiredFields[i]) != Undefined
  }

  /** What one rule demands, stated directly. */
  predicate RuleHolds(rule: Rule, env: Env, nativeMsg: Value, prev: Value, hmacKey: Value) {
    var msgVal := Unwrap(nativeMsg);
    match rule
    case ShapeRule => ShapeOk(nativeMsg)
    case HmacRule => HmacKeyOk(env, hmacKey)
    case AuthorRule => IsIndexedV1FeedUri(env, Prop(msgVal, "author"))
    case HashRule => Prop(msgVal, "hash") == Str("sha256")
    case TimestampRule => Prop(msgVal, "timestamp").Num?
    case ChainRule => ChainOk(env, msgVal, prev)
    case OrderRule => ObjectKeys(msgVal) == AuthorFirstOrder || ObjectKeys(msgVal) == SequenceFirstOrder
    case ContentRule => ContentOk(env, Prop(msgVal, "content"))
    case PayloadRule =>
      Truthy(PayloadOf(nativeMsg)) ==>
        Prop(Prop(msgVal, "content"), "indexed") == Str(env.classicMsgId(PayloadOf(nativeMsg)))
    case JsonRule => |env.stringify2(msgVal)| <= MaxJsonLength
    case SignatureRule => SignatureOk(env, msgVal, hmacKey)
  }

  /** Everything an accepted entry satisfies. */
  predicate Acceptable(env: Env, nativeMsg: Value, prev: Value, hmacKey: Value) {
    forall rule: Rule :: RuleHolds(rule, env, nativeMsg, prev, hmacKey)
  }

  /** The shape check passes exactly on values of the shape. */
  lemma {:induction false} ShapeAcceptsIff(nativeMsg: Value)
    ensures ValidateShape(nativeMsg).None? <==> ShapeOk(nativeMsg)
  {
    if nativeMsg.Arr? && |nativeMsg.elems| == 2 {
      ShapeAcceptsIff(nativeMsg.elems[0]);
    }
  }

  /** The chaining branch passes exactly when the chaining rules hold. */
  lemma ChainAcceptsIff(env: Env, msgVal: Value, prev: Value)
    ensures ValidateChain(env, msgVal, prev) == Accept <==> ChainOk(env, msgVal, prev)
  {
  }

  /** `validateSync` accepts exactly when every rule accepts. */
  lemma AcceptsIffEveryRulePasses(env: Env, nativeMsg: Value, prev: Value, hmacKey: Value)
    ensures ValidateSync(env, nativeMsg, prev, hmacKey) == Accept <==>
              forall rule: Rule :: Check(rule, env, nativeMsg, prev, hmacKey) == Accept
  {
    ValidateSyncReportsFirstFailure(env, nativeMsg, prev, hmacKey);
    if ValidateSync(env, nativeMsg, prev, hmacKey) == Accept {
      forall rule: Rule ensures Check(rule, env, nativeMsg, prev, hmacKey) == Accept {
        assert Pipeline[Position(rule)] == rule;
      }
    }
  }

  /** Each rule passes exactly when what it demands holds. */
  lemma CheckAcceptsIff(rule: Rule, env: Env, nativeMsg: Value, prev: Value, hmacKey: Value)
    ensures Check(rule, env, nativeMsg, prev, hmacKey) == Accept <==> RuleHolds(rule, env, nativeMsg, prev, hmacKey)
  {
    match rule
    case ShapeRule => ShapeAcceptsIff(nativeMsg);
    case ChainRule => ChainAcceptsIff(env, Unwrap(nativeMsg), prev);
    case _ =>
  }

  /** `validateSync` accepts exactly the entries that satisfy every rule. */
  lemma ValidateSyncAcceptsIff(env: Env, nativeMsg: Value, prev: Value, hmacKey: Value)
    ensures ValidateSync(env, nativeMsg, prev, hmacKey) == Accept <==> Acceptable(env, nativeMsg, prev, hmacKey)
  {
    AcceptsIffEveryRulePasses(env, nativeMsg, prev, hmacKey);
    forall rule: Rule
      ensures Check(rule, env, nativeMsg, prev, hmacKey) == Accept <==> RuleHolds(rule, env, nativeMsg, prev, hmacKey)
    {
      CheckAcceptsIff(rule, env, nativeMsg, prev, hmacKey);
    }
  }

  /** After the same prior entry, an accepted entry's `previous` and
      `sequence` are determined: changing one of them alone is rejected. */
  lemma ChainDeterminesLink(env: Env, a: Value, b: Value, prev: Value, hmacKey: Value)
    requires ValidateSync(env, a, prev, hmacKey) == Accept
    requires ValidateSync(env, b, prev, hmacKey) == Accept
    ensures Prop(Unwrap(a), "sequence") == Prop(Unwrap(b), "sequence")
    ensures Prop(Unwrap(a), "previous") == Prop(Unwrap(b), "previous")
  {
    AcceptedPassesShapeAndChain(env, a, prev, hmacKey);
    AcceptedPassesShapeAndChain(env, b, prev, hmacKey);
    ChainAcceptsIff(env, Unwrap(a), prev);
    ChainAcceptsIff(env, Unwrap(b), prev);
  }

  // ---------------------------------------------------------------- batch

  /** The entry that `validateBatch` validates `msgs[i]` against. */
  function Prior(msgs: seq<Value>, prev: Value, i: nat): Value
    requires i < |msgs|
  {
    if i == 0 then prev else msgs[i - 1]
  }

  /** What one entry of the batch is validated with: `validateSync` and the
      batch's HMAC key. */
  function SyncStep(env: Env, hmacKey: Value): (Value, Value) -> Verdict {
    (nativeMsg: Value, prior: Value) => ValidateSync(env, nativeMsg, prior, hmacKey)
  }

  /** The verdict on `msgs[i]` against its predecessor. */
  function StepAt(step: (Value, Value) -> Verdict, msgs: seq<Value>, prev: Value, i: nat): Verdict
    requires i < |msgs|
  {
    step(msgs[i], Prior(msgs, prev, i))
  }

  /** `validateBatch` as a recursion on the list, for any per-entry `step`:
      the first entry against `prev`, every later one against the entry
      before it, stopping at the first verdict that is not `Accept`. */
  function RunBatch(step: (Value, Value) -> Verdict, msgs: seq<Value>, prev: Value): Verdict
    decreases |msgs|
  {
    if msgs == [] then Accept
    else
      var first := step(msgs[0], prev);
      if first != Accept then first else RunBatch(step, msgs[1..], msgs[0])
  }

  /** Validating the tail against the head is validating the next entry of the list. */
  lemma StepOfTail(step: (Value, Value) -> Verdict, msgs: seq<Value>, prev: Value, i: nat)
    requires i + 1 < |msgs|
    ensures StepAt(step, msgs[1..], msgs[0], i) == StepAt(step, msgs, prev, i + 1)
  {
    assert msgs[1..][i] == msgs[i + 1];
    if i > 0 {
      assert msgs[1..][i - 1] == msgs[i];
    }
  }

  /** The batch accepts iff every entry accepts against its predecessor, and
      otherwise returns the verdict of the first entry that does not. */
  lemma {:induction false} RunBatchIsFirstFailure(step: (Value, Value) -> Verdict, msgs: seq<Value>, prev: Value)
    ensures RunBatch(step, msgs, prev) == Accept <==>
              forall i :: 0 <= i < |msgs| ==> StepAt(step, msgs, prev, i) == Accept
    ensures RunBatch(step, msgs, prev) != Accept ==>
              exists k :: 0 <= k < |msgs| && RunBatch(step, msgs, prev) == StepAt(step, msgs, prev, k) &&
                          forall i :: 0 <= i < k ==> StepAt(step, msgs, prev, i) == Accept
    decreases |msgs|
  {
    if msgs != [] {
      var tail := msgs[1..];
      RunBatchIsFirstFailure(step, tail, msgs[0]);
      forall i | 0 <= i < |tail|
        ensures StepAt(step, tail, msgs[0], i) == StepAt(step, msgs, prev, i + 1)
      {
        StepOfTail(step, msgs, prev, i);
      }
      var r := RunBatch(step, msgs, prev);
      if StepAt(step, msgs, prev, 0) == Accept {
        if r != Accept {
          var k :| 0 <= k < |tail| && r == StepAt(step, tail, msgs[0], k) &&
                   forall i :: 0 <= i < k ==> StepAt(step, tail, msgs[0], i) == Accept;
          forall i | 0 <= i < k + 1 ensures StepAt(step, msgs, prev, i) == Accept {
            if i > 0 {
              assert StepAt(step, tail, msgs[0], i - 1) == Accept;
            }
          }
          assert r == StepAt(step, msgs, prev, k + 1);
        } else {
          forall i | 0 <= i < |msgs| ensures StepAt(step, msgs, prev, i) == Accept {
            if i > 0 {
              assert StepAt(step, tail, msgs[0], i - 1) == Accept;
            }
          }
        }
      }
    }
  }

  /** `validateBatch(msgs, prev, hmacKey)` */
  method ValidateBatch(env: Env, msgs: seq<Value>, prev: Value, hmacKey: Value) returns (verdict: Verdict)
    ensures verdict == RunBatch(SyncStep(env, hmacKey), msgs, prev)
    ensures verdict == Accept <==> forall i :: 0 <= i < |msgs| ==> StepAt(SyncStep(env, hmacKey), msgs, prev, i) == Accept
    ensures verdict != Accept ==>
              exists k :: 0 <= k < |msgs| && verdict == StepAt(SyncStep(env, hmacKey), msgs, prev, k) &&
                          forall i :: 0 <= i < k ==> StepAt(SyncStep(env, hmacKey), msgs, prev, i) == Accept
  {
    RunBatchIsFirstFailure(SyncStep(env, hmacKey), msgs, prev);
    var previous := prev;
    for n := 0 to |msgs|
      invariant RunBatch(SyncStep(env, hmacKey), msgs[n..], previous) == RunBatch(SyncStep(env, hmacKey), msgs, prev)
    {
      var err := ValidateSync(env, msgs[n], previous, hmacKey);
      assert err == SyncStep(env, hmacKey)(msgs[n], previous);
      if err != Accept {
        return err;
      }
      assert msgs[n..][1..] == msgs[n + 1..];
      previous := msgs[n];
    }
    return Accept;
  }

  /** The sequence number of the entry before a batch: that of the prior
      header, or 0 when there is none. */
  predicate StartsAfter(prev: Value, start: int) {
    if Truthy(prev) then Prop(Unwrap(prev), "sequence") == Num(start as real) else start == 0
  }

  /** The sequence rule alone: one more than the prior entry's, or 1 for the
      first entry of a feed. */
  predicate SequenceFollows(msgVal: Value, prev: Value) {
    if Truthy(prev) then
      var next := PlusOne(Prop(Unwrap(prev), "sequence"));
      next.Some? && Prop(msgVal, "sequence") == Num(next.value)
    else Prop(msgVal, "sequence") == Num(1.0)
  }

  /** The chaining rules include the sequence rule. */
  lemma ChainImpliesSequenceFollows(env: Env, msgVal: Value, prev: Value)
    requires ValidateChain(env, msgVal, prev) == Accept
    ensures SequenceFollows(msgVal, prev)
  {
    ChainAcceptsIff(env, msgVal, prev);
  }

  /** An entry of the right shape is truthy, so the next entry is chained to it. */
  lemma ShapedIsTruthy(nativeMsg: Value)
    requires ValidateShape(nativeMsg).None?
    ensures Truthy(nativeMsg)
  {
  }

  /** `msgs[j]` is numbered after the entry before it. */
  predicate FollowsAt(msgs: seq<Value>, prev: Value, j: nat)
    requires j < |msgs|
  {
    SequenceFollows(Unwrap(msgs[j]), Prior(msgs, prev, j))
  }

  /** Along a run of truthy entries each numbered after the one before it,
      the sequence numbers count up from the one before the run. */
  lemma {:induction false} ChainedRunCountsUp(msgs: seq<Value>, prev: Value, start: int, i: nat)
    requires StartsAfter(prev, start)
    requires forall j :: 0 <= j < |msgs| ==> Truthy(msgs[j])
    requires forall j :: 0 <= j < |msgs| ==> FollowsAt(msgs, prev, j)
    requires i < |msgs|
    ensures Prop(Unwrap(msgs[i]), "sequence") == Num((start + i + 1) as real)
  {
    assert FollowsAt(msgs, prev, i);
    if i > 0 {
      ChainedRunCountsUp(msgs, prev, start, i - 1);
      assert Truthy(msgs[i - 1]);
    }
  }

  /** In an accepted batch each entry's sequence is one more than that of the
      entry before it, so the batch numbers its entries consecutively. */
  lemma BatchSequencesConsecutive(env: Env, msgs: seq<Value>, prev: Value, hmacKey: Value, start: int, i: nat)
    requires StartsAfter(prev, start)
    requires forall j :: 0 <= j < |msgs| ==> StepAt(SyncStep(env, hmacKey), msgs, prev, j) == Accept
    requires i < |msgs|
    ensures Prop(Unwrap(msgs[i]), "sequence") == Num((start + i + 1) as real)
  {
    forall j | 0 <= j < |msgs|
      ensures Truthy(msgs[j])
      ensures FollowsAt(msgs, prev, j)
    {
      assert StepAt(SyncStep(env, hmacKey), msgs, prev, j) == Accept;
      AcceptedPassesShapeAndChain(env, msgs[j], Prior(msgs, prev, j), hmacKey);
      ShapedIsTruthy(msgs[j]);
      ChainImpliesSequenceFollows(env, Unwrap(msgs[j]), Prior(msgs, prev, j));
    }
    ChainedRunCountsUp(msgs, prev, start, i);
  }
}
