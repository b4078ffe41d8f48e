/** Rollout buckets (bucketing.go:14-94) and the serve that picks one (evaluation.go:165-215). */
module Bucketing {
  import opened Arithmetic
  import opened Models
  import opened Text
  import CanonicalNumber

  newtype byte = b: int | 0 <= b < 256

  /** The first four bytes of an MD5 sum; the hash itself is a parameter. */
  datatype Digest = Digest(b0: byte, b1: byte, b2: byte, b3: byte)

  type Md5 = string -> Digest

  const BUCKETS := 100

  function LittleEndian(d: Digest): nat {
    d.b0 as int + 0x100 * (d.b1 as int) + 0x1_0000 * (d.b2 as int) + 0x100_0000 * (d.b3 as int)
  }

  function Bucket(md5: Md5, salt: string, value: string): (b: nat)
    ensures b < BUCKETS
  {
    LittleEndian(md5(salt + ":" + value)) % BUCKETS
  }

  // ---- the text that is hashed -------------------------------------------------

  function RawAttribute(ctx: Context, attr: string): Option<AttributeValue> {
    if attr == "userId" || attr == "user_id" then
      if ctx.userId == "" then None else Some(Formatted(ctx.userId))
    else Attribute(ctx, attr)
  }

  /** A present-but-nil attribute is absent. */
  function Attribute(ctx: Context, attr: string): Option<AttributeValue> {
    if attr in ctx.attributes && ctx.attributes[attr] != Nil then Some(ctx.attributes[attr]) else None
  }

  predicate IsIntegerLiteral(s: string) {
    IsAllDigits(if s != "" && s[0] == '-' then s[1..] else s)
  }

  /** strings.Trim(s, "-0") is empty. */
  predicate OnlyMinusAndZero(s: string) {
    forall i | 0 <= i < |s| :: s[i] == '-' || s[i] == '0'
  }

  function IntegerLiteralText(s: string): string {
    if OnlyMinusAndZero(s) then "0" else s
  }

  /** The text a rollout hashes, None when the value cannot be bucketed. */
  function ValueText(v: AttributeValue): Option<string> {
    match v
    case Nil => None
    case Boolean(b) => Some(if b then "true" else "false")
    case Number(float) => Some(CanonicalNumber.Canonical(float))
    case NumberLiteral(text, parsed) =>
      if IsIntegerLiteral(text) then Some(IntegerLiteralText(text))
      else if parsed.Some? then Some(CanonicalNumber.Canonical(parsed.value))
      else Some(text)
    case Aggregate => None
    case Formatted(text) => Some(text)
  }

  function BucketValue(ctx: Context, attr: string): Option<string> {
    var raw := RawAttribute(ctx, attr);
    var v := if raw.None? && (attr == "userId" || attr == "user_id") then Attribute(ctx, attr) else raw;
    if v.None? then None else ValueText(v.value)
  }

  // ---- serving -------------------------------------------------------------------

  function BucketByOf(serve: ServeConfig): string {
    if serve.bucketBy == "" then "user_id" else serve.bucketBy
  }

  /** Total weight of the first n entries. */
  function Cumulative(vs: seq<WeightedVariation>, n: nat): int
    requires n <= |vs|
  {
    if n == 0 then 0 else Cumulative(vs, n - 1) + vs[n - 1].weight
  }

  function PickFrom(vs: seq<WeightedVariation>, b: nat, i: nat): (k: nat)
    requires i < |vs|
    ensures i <= k < |vs|
    decreases |vs| - i
  {
    if b < Cumulative(vs, i + 1) || i + 1 == |vs| then i else PickFrom(vs, b, i + 1)
  }

  /** The entry bucket b falls into; the last entry when it falls through. */
  function Pick(vs: seq<WeightedVariation>, b: nat): (k: nat)
    requires |vs| > 0
    ensures k < |vs|
  {
    PickFrom(vs, b, 0)
  }

  /** None when a rollout cannot bucket the context. */
  function Serve(md5: Md5, serve: ServeConfig, ctx: Context): Option<string> {
    if serve.kind == "Fixed" || |serve.variations| == 0 then Some(serve.variation)
    else
      match BucketValue(ctx, BucketByOf(serve))
      case None => None
      case Some(value) =>
        if value == "" then None
        else Some(serve.variations[Pick(serve.variations, Bucket(md5, serve.salt, value))].key)
  }

  /** resolveServe: the running total stops at the entry Serve picks. */
  method ResolveServe(md5: Md5, serve: ServeConfig, ctx: Context) returns (r: Option<string>)
    ensures r == Serve(md5, serve, ctx)
  {
    if serve.kind == "Fixed" {
      return Some(serve.variation);
    }
    if |serve.variations| == 0 {
      return Some(serve.variation);
    }
    var value := BucketValue(ctx, BucketByOf(serve));
    if value == None || value == Some("") {
      return None;
    }
    var vs := serve.variations;
    var b := Bucket(md5, serve.salt, value.value);
    var cumulative := 0;
    for i := 0 to |vs|
      invariant cumulative == Cumulative(vs, i)
      invariant i < |vs| ==> Pick(vs, b) == PickFrom(vs, b, i)
      invariant i == |vs| ==> Pick(vs, b) == |vs| - 1
    {
      cumulative := cumulative + vs[i].weight;
      if b < cumulative {
        return Some(vs[i].key);
      }
    }
    r := Some(vs[|vs| - 1].key);
  }

  // ---- rollouts partition the buckets ---------------------------------------------

  ghost predicate NonNegative(vs: seq<WeightedVariation>) {
    forall i | 0 <= i < |vs| :: vs[i].weight >= 0
  }

  lemma {:induction false} CumulativeMonotone(vs: seq<WeightedVariation>, m: nat, n: nat)
    requires NonNegative(vs) && m <= n <= |vs|
    ensures Cumulative(vs, m) <= Cumulative(vs, n)
  {
    if m < n {
      CumulativeMonotone(vs, m, n - 1);
    }
  }

  lemma {:induction false} PickFromInterval(vs: seq<WeightedVariation>, b: nat, i: nat, k: nat)
    requires NonNegative(vs) && i <= k < |vs| && Cumulative(vs, i) <= b
    ensures PickFrom(vs, b, i) == k <==>
      Cumulative(vs, k) <= b && (b < Cumulative(vs, k + 1) || k + 1 == |vs|)
    decreases |vs| - i
  {
    CumulativeMonotone(vs, i, k);
    if b < Cumulative(vs, i + 1) {
      if i < k {
        CumulativeMonotone(vs, i + 1, k);
      }
    } else if i + 1 < |vs| && i < k {
      PickFromInterval(vs, b, i + 1, k);
    }
  }

  /** Entry k serves exactly the buckets between two running totals; the last also takes the rest. */
  lemma PickInterval(vs: seq<WeightedVariation>, b: nat, k: nat)
    requires NonNegative(vs) && k < |vs|
    ensures Pick(vs, b) == k <==>
      Cumulative(vs, k) <= b && (b < Cumulative(vs, k + 1) || k + 1 == |vs|)
  {
    PickFromInterval(vs, b, 0, k);
  }

  /** The buckets entry k serves. */
  ghost function BucketsOf(vs: seq<WeightedVariation>, k: nat): set<nat>
    requires k < |vs|
  {
    set b: nat | b < BUCKETS && Pick(vs, b) == k
  }

  ghost function Interval(lo: nat, hi: nat): (s: set<nat>)
    requires lo <= hi
    ensures forall b: nat :: b in s <==> lo <= b < hi
    ensures |s| == hi - lo
    decreases hi - lo
  {
    if lo == hi then {} else {lo} + Interval(lo + 1, hi)
  }

  /**
   * However the non-negative weights add up, entry k gets the part of its weight that fits
   * into the 100 buckets, and the last entry gets what the others leave.
   */
  lemma BucketShare(vs: seq<WeightedVariation>, k: nat)
    requires NonNegative(vs) && k < |vs|
    ensures |BucketsOf(vs, k)| ==
      (if k + 1 == |vs| then BUCKETS else Min(BUCKETS, Cumulative(vs, k + 1))) - Min(BUCKETS, Cumulative(vs, k))
  {
    CumulativeMonotone(vs, 0, k);
    CumulativeMonotone(vs, k, k + 1);
    var lo := Min(BUCKETS, Cumulative(vs, k));
    var hi := if k + 1 == |vs| then BUCKETS else Min(BUCKETS, Cumulative(vs, k + 1));
    forall b: nat ensures b in BucketsOf(vs, k) <==> lo <= b < hi {
      PickInterval(vs, b, k);
    }
    assert BucketsOf(vs, k) == Interval(lo, hi);
  }

  /** Weights summing to 100: every entry gets exactly its weight, and no bucket falls through. */
  lemma RolloutPartition(vs: seq<WeightedVariation>, k: nat)
    requires NonNegative(vs) && Cumulative(vs, |vs|) == BUCKETS && k < |vs|
    ensures |BucketsOf(vs, k)| == vs[k].weight
    ensures forall b: nat | b < BUCKETS :: b < Cumulative(vs, Pick(vs, b) + 1)
  {
    CumulativeMonotone(vs, k, |vs|);
    CumulativeMonotone(vs, k + 1, |vs|);
    BucketShare(vs, k);
    forall b: nat | b < BUCKETS ensures b < Cumulative(vs, Pick(vs, b) + 1) {
      PickInterval(vs, b, Pick(vs, b));
    }
  }

  /** Ramping up the first entry never takes a bucket away from it. */
  lemma RampUpKeeps(before: seq<WeightedVariation>, after: seq<WeightedVariation>)
    requires NonNegative(before) && NonNegative(after) && |before| > 1 && |after| > 0
    requires before[0].weight <= after[0].weight
    ensures BucketsOf(before, 0) <= BucketsOf(after, 0)
  {
    assert Cumulative(before, 1) == before[0].weight && Cumulative(after, 1) == after[0].weight by {
      assert Cumulative(before, 0) == 0 && Cumulative(after, 0) == 0;
    }
    forall b: nat | b in BucketsOf(before, 0) ensures b in BucketsOf(after, 0) {
      PickInterval(before, b, 0);
      PickInterval(after, b, 0);
    }
  }
}
