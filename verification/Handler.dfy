/** `attest_handler`: the cache protocol around whatever attests an item. */
module Handler {
  import opened Prelude
  import opened Cache

  /** One attestation from scratch, for a user and an asset, on one visit to Steam. */
  type Attester<!R, !E> = (u64, u64, nat) -> Result<R, E>

  /** The visits from which responses were kept, one for each insertion of the log and none for a get. */
  type Visits = seq<Option<nat>>

  /** The `i`-th operation kept this response for this request, from the visit recorded with it. */
  ghost predicate KeptAt<R, E>(attest: Attester<R, E>, log: seq<Op<R>>, visits: Visits, i: nat, steamId: u64, assetId: u64,
                               response: R)
  {
    && i < |log| == |visits| && log[i].Insert? && log[i].key == KeyOf(steamId, assetId) && log[i].response == response
    && visits[i].Some? && attest(steamId, assetId, visits[i].value) == Ok(response)
  }

  /** Every insertion was attested, on its recorded visit, for the user and asset of its key. */
  ghost predicate Genuine<R, E>(attest: Attester<R, E>, log: seq<Op<R>>, visits: Visits) {
    && |visits| == |log|
    && forall i :: 0 <= i < |log| && log[i].Insert? ==>
         exists steamId: u64, assetId: u64 :: KeptAt(attest, log, visits, i, steamId, assetId, log[i].response)
  }

  lemma GenuineAppend<R, E>(attest: Attester<R, E>, log: seq<Op<R>>, visits: Visits, op: Op<R>, visit: Option<nat>,
                            steamId: u64, assetId: u64)
    requires Genuine(attest, log, visits)
    requires op.Insert? ==>
               && op.key == KeyOf(steamId, assetId) && visit.Some?
               && attest(steamId, assetId, visit.value) == Ok(op.response)
    ensures Genuine(attest, log + [op], visits + [visit])
    ensures op.Insert? ==> KeptAt(attest, log + [op], visits + [visit], |log|, steamId, assetId, op.response)
  {
    var longer, more := log + [op], visits + [visit];
    forall i | 0 <= i < |longer| && longer[i].Insert?
      ensures exists s: u64, a: u64 :: KeptAt(attest, longer, more, i, s, a, longer[i].response)
    {
      if i < |log| {
        var s: u64, a: u64 :| KeptAt(attest, log, visits, i, s, a, log[i].response);
        assert KeptAt(attest, longer, more, i, s, a, longer[i].response);
      } else {
        assert KeptAt(attest, longer, more, i, steamId, assetId, longer[i].response);
      }
    }
  }

  lemma KeptLater<R, E>(attest: Attester<R, E>, log: seq<Op<R>>, visits: Visits, i: nat, steamId: u64, assetId: u64,
                        response: R, op: Op<R>, visit: Option<nat>)
    requires KeptAt(attest, log, visits, i, steamId, assetId, response)
    ensures KeptAt(attest, log + [op], visits + [visit], i, steamId, assetId, response)
  {}

  ghost function Hits<R>(c: Config, log: seq<Op<R>>): nat
    requires Positive(c)
  {
    if log == [] then 0
    else
      var n := |log| - 1;
      Hits(c, log[..n]) + if log[n].Get? && Answer(c, log[..n], log[n].key, log[n].now).Some? then 1 else 0
  }

  ghost function Gets<R>(log: seq<Op<R>>): nat {
    if log == [] then 0 else Gets(log[..|log| - 1]) + if log[|log| - 1].Get? then 1 else 0
  }

  lemma Counted<R>(c: Config, log: seq<Op<R>>, op: Op<R>)
    requires Positive(c)
    ensures Gets(log + [op]) == Gets(log) + if op.Get? then 1 else 0
    ensures Hits(c, log + [op]) == Hits(c, log) + if op.Get? && Answer(c, log, op.key, op.now).Some? then 1 else 0
  {
    assert (log + [op])[..|log|] == log;
  }

  /** A cached answer is the latest that was kept for the very request it is given to, and still fresh. */
  lemma CachedIsGenuine<R, E>(attest: Attester<R, E>, c: Config, log: seq<Op<R>>, visits: Visits, steamId: u64, assetId: u64,
                              now: nat)
    returns (i: nat)
    requires Positive(c) && Genuine(attest, log, visits) && Answer(c, log, KeyOf(steamId, assetId), now).Some?
    ensures KeptAt(attest, log, visits, i, steamId, assetId, Answer(c, log, KeyOf(steamId, assetId), now).value)
    ensures LatestInsert(log, KeyOf(steamId, assetId), i) && now <= log[i].at + c.ttl
  {
    var key := KeyOf(steamId, assetId);
    var response := Answer(c, log, key, now).value;
    AnswerIsLatestAndFresh(c, log, key, now);
    i :| LatestInsert(log, key, i) && log[i].response == response && now <= log[i].at + c.ttl;
    var s: u64, a: u64 :| KeptAt(attest, log, visits, i, s, a, response);
    KeyInjective(steamId, assetId, s, a);
  }

  /** The shared state. Its methods are the stretches of a handler between which other handlers run. */
  class InventoryAttestationState<R(!new), E(!new)> {
    const attest: Attester<R, E>
    const cache: InventoryAttestationCache<R>
    var hits: nat
    var misses: nat
    ghost var visits: Visits

    ghost predicate Valid()
      reads this, cache
    {
      && cache.Valid() && Genuine(attest, cache.log, visits)
      && hits == Hits(cache.config, cache.log) && hits + misses == Gets(cache.log)
    }

    constructor (attest: Attester<R, E>, capacity: nat, ttl: nat)
      requires capacity > 0
      ensures Valid() && this.attest == attest && fresh(cache) && cache.config == Config(capacity, ttl)
      ensures cache.log == [] && visits == []
    {
      this.attest := attest;
      cache := new InventoryAttestationCache<R>(capacity, ttl);
      hits, misses := 0, 0;
      visits := [];
    }

    /** Up to the miss: the cache lookup and its counter. */
    method Lookup(steamId: u64, assetId: u64, now: nat) returns (cached: Option<R>, ghost i: nat)
      requires Valid()
      modifies this, cache
      ensures Valid() && cache.log == old(cache.log) + [Op.Get(KeyOf(steamId, assetId), now)] && visits == old(visits) + [None]
      ensures cached == Answer(cache.config, old(cache.log), KeyOf(steamId, assetId), now)
      ensures cached.Some? ==>
                && KeptAt(attest, old(cache.log), old(visits), i, steamId, assetId, cached.value)
                && LatestInsert(old(cache.log), KeyOf(steamId, assetId), i) && now <= old(cache.log)[i].at + cache.config.ttl
      ensures hits == old(hits) + (if cached.Some? then 1 else 0) && misses == old(misses) + if cached.Some? then 0 else 1
    {
      ghost var before, op := cache.log, Op.Get(KeyOf(steamId, assetId), now);
      Counted(cache.config, before, op);
      GenuineAppend(attest, before, visits, op, None, steamId, assetId);
      i := 0;
      cached := cache.Get(KeyOf(steamId, assetId), now);
      if cached.Some? {
        i := CachedIsGenuine(attest, cache.config, before, visits, steamId, assetId, now);
        hits := hits + 1;
      } else {
        misses := misses + 1;
      }
      visits := visits + [None];
    }

    /** After the miss: attest, and keep what was signed. Failures are not kept. */
    method Complete(steamId: u64, assetId: u64, visit: nat, at: nat) returns (r: Result<R, E>)
      requires Valid()
      modifies this`visits, cache
      ensures Valid() && r == attest(steamId, assetId, visit)
      ensures cache.log == old(cache.log) + if r.Ok? then [Op.Insert(KeyOf(steamId, assetId), r.value, at)] else []
      ensures visits == old(visits) + if r.Ok? then [Some(visit)] else []
      ensures r.Ok? ==> KeptAt(attest, cache.log, visits, |old(cache.log)|, steamId, assetId, r.value)
    {
      r := attest(steamId, assetId, visit);
      if r.Ok? { Keep(steamId, assetId, r.value, visit, at); }
    }

    method Keep(steamId: u64, assetId: u64, response: R, visit: nat, at: nat)
      requires Valid() && attest(steamId, assetId, visit) == Ok(response)
      modifies this`visits, cache
      ensures Valid()
      ensures cache.log == old(cache.log) + [Op.Insert(KeyOf(steamId, assetId), response, at)]
      ensures visits == old(visits) + [Some(visit)]
      ensures KeptAt(attest, cache.log, visits, |old(cache.log)|, steamId, assetId, response)
    {
      ghost var before, insert := cache.log, Op.Insert(KeyOf(steamId, assetId), response, at);
      Counted(cache.config, before, insert);
      GenuineAppend(attest, before, visits, insert, Some(visit), steamId, assetId);
      cache.Insert(KeyOf(steamId, assetId), response, at);
      visits := visits + [Some(visit)];
    }

    /** What is answered was kept by operation `i`: an earlier one if the cache held it, else this handler's own. */
    method AttestHandler(steamId: u64, assetId: u64, now: nat, visit: nat, at: nat) returns (r: Result<R, E>, ghost i: nat)
      requires Valid()
      modifies this, cache
      ensures Valid() && hits + misses == old(hits + misses) + 1
      ensures r.Ok? ==> KeptAt(attest, cache.log, visits, i, steamId, assetId, r.value)
      ensures r.Ok? && i >= |old(cache.log)| ==> visits[i] == Some(visit)
      ensures r.Err? ==> r == attest(steamId, assetId, visit)
    {
      ghost var before, kept := cache.log, visits;
      var cached;
      cached, i := Lookup(steamId, assetId, now);
      if cached.Some? {
        KeptLater(attest, before, kept, i, steamId, assetId, cached.value, Op.Get(KeyOf(steamId, assetId), now), None);
        return Ok(cached.value), i;
      }
      i := |cache.log|;
      r := Complete(steamId, assetId, visit, at);
    }
  }
}
