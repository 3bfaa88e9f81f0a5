/** The indexed-v1 message ID: a hash of the header's 2-space JSON, made
    URL-safe and prefixed with the URI scheme, memoised by input reference. */
module MsgId {
  import opened Js
  import Foreign

  const Prefix: string := "ssb:message/indexed-v1/"

  /** `s.replace(/<from>/g, to)` for a single character. */
  function ReplaceAll(s: string, from: char, to: char): (r: string)
    ensures |r| == |s|
    ensures forall i :: 0 <= i < |s| ==> r[i] == (if s[i] == from then to else s[i])
  {
    if s == [] then [] else [if s[0] == from then to else s[0]] + ReplaceAll(s[1..], from, to)
  }

  /** The character that URL-safe base64 uses in place of `c`. */
  function SafeChar(c: char): char {
    if c == '+' then '-' else if c == '/' then '_' else c
  }

  /** `hash.replace(/\+/g, '-').replace(/\//g, '_')` */
  function UrlSafe(hash: string): (r: string)
    ensures |r| == |hash|
    ensures forall i :: 0 <= i < |hash| ==> r[i] == SafeChar(hash[i])
    ensures '+' !in r && '/' !in r
  {
    ReplaceAll(ReplaceAll(hash, '+', '-'), '/', '_')
  }

  /** The ID `getMsgId` computes for a value: only the header is hashed. */
  function MsgIdOf(env: Foreign.Env, msg: Value): (id: string)
    ensures |Prefix| <= |id| && id[..|Prefix|] == Prefix
    ensures '+' !in id[|Prefix|..] && '/' !in id[|Prefix|..]
    ensures |id| == |Prefix| + |env.hash(env.stringify2(Unwrap(msg)))|
  {
    var suffix := UrlSafe(env.hash(env.stringify2(Unwrap(msg))));
    assert (Prefix + suffix)[|Prefix|..] == suffix;
    Prefix + suffix
  }

  /** The hash after the prefix can be read back from the ID, and it differs
      from the hash exactly where the hash has a `+` or a `/`. */
  lemma {:induction false} IdSuffixIsUrlSafeHash(env: Foreign.Env, msg: Value, i: nat)
    requires i < |env.hash(env.stringify2(Unwrap(msg)))|
    ensures var h := env.hash(env.stringify2(Unwrap(msg)));
            MsgIdOf(env, msg)[|Prefix| + i] == SafeChar(h[i])
  {
    var h := env.hash(env.stringify2(Unwrap(msg)));
    assert MsgIdOf(env, msg) == Prefix + UrlSafe(h);
    assert (Prefix + UrlSafe(h))[|Prefix| + i] == UrlSafe(h)[i];
  }

  /** A `(header, payload)` tuple and its bare header have the same ID. */
  lemma TupleAndHeaderShareId(env: Foreign.Env, header: Value, payload: Value)
    requires !header.Arr?
    ensures MsgIdOf(env, Arr([header, payload])) == MsgIdOf(env, header)
  {
  }

  /** The module-level `_msgIdCache`: a map keyed by the identity of the
      reference passed in, not by its contents. */
  class MsgIdCache {
    const env: Foreign.Env
    var entries: map<Ref, string>

    /** Every cached ID is the ID of what its reference holds now. */
    ghost predicate Coherent()
      reads this, entries.Keys
    {
      forall r | r in entries :: entries[r] == MsgIdOf(env, r.value)
    }

    constructor (env: Foreign.Env)
      ensures this.env == env && entries == map[]
      ensures Coherent()
    {
      this.env := env;
      entries := map[];
    }

    /** `getMsgId(msgTuple)` */
    method GetMsgId(msg: Ref) returns (id: string)
      modifies this
      ensures msg in old(entries) ==> id == old(entries)[msg] && entries == old(entries)
      ensures msg !in old(entries) ==> id == MsgIdOf(env, msg.value) && entries == old(entries)[msg := id]
      ensures old(Coherent()) ==> Coherent() && id == MsgIdOf(env, msg.value)
      ensures msg in entries && entries[msg] == id
    {
      if msg in entries {
        id := entries[msg];
        return;
      }
      var header := Unwrap(msg.value);
      var hash := env.hash(env.stringify2(header));
      id := Prefix + UrlSafe(hash);
      entries := entries[msg := id];
    }

    /** Two calls on the same reference agree, and the second one hits. */
    method GetMsgIdTwice(msg: Ref) returns (first: string, second: string)
      modifies this
      ensures first == second
      ensures entries == old(entries)[msg := first]
    {
      first := GetMsgId(msg);
      second := GetMsgId(msg);
    }
  }
}
