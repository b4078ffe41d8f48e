/**
 * How a context comes to a rollout bucket (bucketing.go:14-70, conditions.go:31-54,
 * evaluation.go:165-215), told without the functions that compute it.
 */
module ContextBuckets {
  import opened Bucketing
  import opened Models
  import opened Text
  import BucketText
  import CanonicalNumber

  // ---- the hash ---------------------------------------------------------------------------

  lemma LittleEndianHundred(d: Digest)
    ensures LittleEndian(d) ==
      100 * (2 * d.b1 as int + 655 * d.b2 as int + 167772 * d.b3 as int)
      + (d.b0 as int + 56 * d.b1 as int + 36 * d.b2 as int + 16 * d.b3 as int)
  {
  }

  lemma SameRemainder(n: nat, q: nat, r: nat)
    requires n == 100 * q + r
    ensures n % 100 == r % 100
  {
  }

  /** The bucket is the four bytes' weights modulo 100: 256 leaves 56, its square 36, its cube 16. */
  lemma BucketOfDigest(md5: Md5, salt: string, value: string, d: Digest)
    requires md5(salt + ":" + value) == d
    ensures Bucket(md5, salt, value) == (d.b0 as int + 56 * d.b1 as int + 36 * d.b2 as int + 16 * d.b3 as int) % 100
  {
    LittleEndianHundred(d);
    SameRemainder(LittleEndian(d), 2 * d.b1 as int + 655 * d.b2 as int + 167772 * d.b3 as int,
      d.b0 as int + 56 * d.b1 as int + 36 * d.b2 as int + 16 * d.b3 as int);
  }

  /** Only the hash of salt, colon and value counts. */
  lemma BucketReadsOneHash(one: Md5, other: Md5, salt: string, value: string)
    requires one(salt + ":" + value) == other(salt + ":" + value)
    ensures Bucket(one, salt, value) == Bucket(other, salt, value)
  {
  }

  // ---- the text ------------------------------------------------------------------------------

  predicate IsUserKey(attr: string) {
    attr == "userId" || attr == "user_id"
  }

  /** What an attribute value is hashed as; an aggregate and a nil are hashed as nothing. */
  ghost predicate SpelledAs(v: AttributeValue, text: string) {
    || (v == Boolean(true) && text == "true")
    || (v == Boolean(false) && text == "false")
    || (v.Number? && text == CanonicalNumber.Canonical(v.float))
    || (v.NumberLiteral? && LiteralSpelledAs(v.text, v.parsed, text))
    || (v.Formatted? && text == v.text)
  }

  /** An integer keeps its digits, but for zero's sign; a decimal is spelled as its float, if it has one. */
  ghost predicate LiteralSpelledAs(literal: string, parsed: Option<CanonicalNumber.Float>, text: string) {
    if IsIntegerLiteral(literal) then
      text == if BucketText.IntOf(literal) == 0 then "0" else literal
    else if parsed.Some? then text == CanonicalNumber.Canonical(parsed.value)
    else text == literal
  }

  /** The user id decides under its own two names when there is one; otherwise the attribute of that name does. */
  ghost predicate HashedAs(ctx: Context, attr: string, text: string) {
    text != "" &&
    if IsUserKey(attr) && ctx.userId != "" then text == ctx.userId
    else attr in ctx.attributes && SpelledAs(ctx.attributes[attr], text)
  }

  lemma ValueTextSpells(v: AttributeValue, text: string)
    ensures ValueText(v) == Some(text) <==> SpelledAs(v, text)
  {
    if v.NumberLiteral? && IsIntegerLiteral(v.text) {
      BucketText.LiteralIsZero(v.text);
    }
  }

  lemma BucketValueHashes(ctx: Context, attr: string, text: string)
    ensures (BucketValue(ctx, attr) == Some(text) && text != "") <==> HashedAs(ctx, attr, text)
  {
    if attr in ctx.attributes {
      ValueTextSpells(ctx.attributes[attr], text);
    }
  }

  /** A context is hashed as one text at most. */
  lemma HashedOnce(ctx: Context, attr: string, a: string, b: string)
    requires HashedAs(ctx, attr, a) && HashedAs(ctx, attr, b)
    ensures a == b
  {
    BucketValueHashes(ctx, attr, a);
    BucketValueHashes(ctx, attr, b);
  }

  // ---- the serve -------------------------------------------------------------------------------

  function BucketKey(serve: ServeConfig): string {
    if serve.bucketBy == "" then "user_id" else serve.bucketBy
  }

  /** A rollout with entries; anything else serves its own variation. */
  predicate IsRollout(serve: ServeConfig) {
    serve.kind != "Fixed" && serve.variations != []
  }

  /** key is the entry whose interval of the running total holds the bucket of text. */
  ghost predicate BucketServes(md5: Md5, serve: ServeConfig, text: string, key: string)
    requires serve.variations != []
  {
    key == serve.variations[Pick(serve.variations, Bucket(md5, serve.salt, text))].key
  }

  /** A fixed serve, and a rollout without entries, serve their own variation to every context. */
  lemma FixedServes(md5: Md5, serve: ServeConfig, ctx: Context)
    requires !IsRollout(serve)
    ensures Serve(md5, serve, ctx) == Some(serve.variation)
  {
  }

  /** A rollout serves the entry of the one text the context is hashed as, and none exactly when there is none. */
  lemma RolloutServes(md5: Md5, serve: ServeConfig, ctx: Context)
    requires IsRollout(serve)
    ensures Serve(md5, serve, ctx) == None <==> !exists text :: HashedAs(ctx, BucketKey(serve), text)
    ensures forall text | HashedAs(ctx, BucketKey(serve), text) ::
      Serve(md5, serve, ctx).Some? && BucketServes(md5, serve, text, Serve(md5, serve, ctx).value)
  {
    forall text ensures (BucketValue(ctx, BucketKey(serve)) == Some(text) && text != "") <==> HashedAs(ctx, BucketKey(serve), text) {
      BucketValueHashes(ctx, BucketKey(serve), text);
    }
    var v := BucketValue(ctx, BucketKey(serve));
    if v.Some? && v.value != "" {
      assert HashedAs(ctx, BucketKey(serve), v.value);
    }
  }

  /** With a user id, a rollout over users always serves an entry, and attributes do not affect which. */
  lemma UsersAreServed(md5: Md5, serve: ServeConfig, userId: string, a: map<string, AttributeValue>, b: map<string, AttributeValue>)
    requires IsRollout(serve) && serve.bucketBy in {"", "user_id", "userId"} && userId != ""
    ensures Serve(md5, serve, Context(userId, a)) == Serve(md5, serve, Context(userId, b))
    ensures Serve(md5, serve, Context(userId, a)).Some?
      && BucketServes(md5, serve, userId, Serve(md5, serve, Context(userId, a)).value)
  {
    RolloutServes(md5, serve, Context(userId, a));
    RolloutServes(md5, serve, Context(userId, b));
    assert HashedAs(Context(userId, a), BucketKey(serve), userId);
    assert HashedAs(Context(userId, b), BucketKey(serve), userId);
  }

  /** Any other rollout reads the one attribute it names, and nothing else of the context. */
  lemma OneAttributeDecides(md5: Md5, serve: ServeConfig, a: Context, b: Context)
    requires var attr := BucketKey(serve);
      && (IsUserKey(attr) ==> a.userId == "" && b.userId == "")
      && (attr in a.attributes <==> attr in b.attributes)
      && (attr in a.attributes ==> a.attributes[attr] == b.attributes[attr])
    ensures Serve(md5, serve, a) == Serve(md5, serve, b)
  {
  }

  /** Without a value there, with nil, a list, a map or an empty text, it cannot bucket the context. */
  lemma NothingToHash(md5: Md5, serve: ServeConfig, ctx: Context)
    requires var attr := BucketKey(serve);
      IsRollout(serve) && (IsUserKey(attr) ==> ctx.userId == "")
      && (attr in ctx.attributes ==> ctx.attributes[attr] in {Nil, Aggregate, Formatted("")})
    ensures Serve(md5, serve, ctx) == None
  {
  }
}
