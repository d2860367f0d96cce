/** The bucket keys of AttemptLimiter in http/middleware/rate_limit.go. `digest` is the hex text of
    SHA-256, taken to be injective. */
module AttemptBuckets {
  import opened RateLimit

  type Digest = string -> string

  ghost predicate HexDigest(digest: Digest) {
    && (forall x :: ':' !in digest(x))
    && (forall x, y :: digest(x) == digest(y) ==> x == y)
  }

  function BucketKey(digest: Digest, namespace: string, dimension: string, identifier: string): string {
    namespace + ":" + dimension + ":" + digest(identifier)
  }

  class AttemptLimiter {
    const store: MemoryRateLimitStore
    const namespace: string
    const window: int
    const digest: Digest

    constructor (store: MemoryRateLimitStore, namespace: string, window: int, digest: Digest)
      ensures this.store == store && this.namespace == namespace && this.window == window && this.digest == digest
    {
      this.store, this.namespace, this.window, this.digest := store, namespace, window, digest;
    }

    method Hit(dimension: string, identifier: string, limit: int, now: int) returns (answer: Answer)
      modifies store
      ensures
        var e := Attempt(BucketKey(digest, namespace, dimension, identifier), limit, window, now);
        answer == AnswerTo(old(store.Value()), e) && store.Value() == AfterHit(old(store.Value()), e)
    {
      var key := namespace + ":" + dimension + ":" + digest(identifier);
      answer := store.Hit(key, limit, window, now);
    }
  }

  /** A text without a colon after the last colon, and what stands before it. */
  lemma LastPart(before: string, after: string, before': string, after': string)
    requires ':' !in after && ':' !in after'
    requires before + ":" + after == before' + ":" + after'
    ensures before == before' && after == after'
  {
    var x := before + ":" + after;
    assert x[|before|] == ':' && x[|before'|] == ':';
    assert x[..|before|] == before && x[..|before'|] == before';
    assert x[|before| + 1..] == after && x[|before'| + 1..] == after';
  }

  /** Main result: with dimension names free of colons, as the package's five are, two attempts share
      a bucket only if they agree in namespace, dimension and identifier. */
  lemma BucketsNeverShared(digest: Digest, n: string, d: string, id: string, n': string, d': string, id': string)
    requires HexDigest(digest) && ':' !in d && ':' !in d'
    ensures BucketKey(digest, n, d, id) == BucketKey(digest, n', d', id') <==> n == n' && d == d' && id == id'
  {
    if BucketKey(digest, n, d, id) == BucketKey(digest, n', d', id') {
      assert n + ":" + d + ":" + digest(id) == (n + ":" + d) + ":" + digest(id);
      LastPart(n + ":" + d, digest(id), n' + ":" + d', digest(id'));
      LastPart(n, d, n', d');
    }
  }
}
