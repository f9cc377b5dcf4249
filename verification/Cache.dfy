/** cache.rs: the attestation cache, an LRU map with a time to live. The map is a recency list, most recent first. */
module Cache {
  import opened Prelude
  import Decimal

  type Key = bytes

  datatype Entry<R> = Entry(key: Key, response: R, insertedAt: nat)

  // The LRU map -----------------------------------------------------------------------------

  function IndexOf<R>(es: seq<Entry<R>>, key: Key): (r: Option<nat>)
    ensures r.Some? ==> r.value < |es| && es[r.value].key == key && forall j :: 0 <= j < r.value ==> es[j].key != key
    ensures r.None? ==> forall j :: 0 <= j < |es| ==> es[j].key != key
  {
    IndexFrom(es, key, 0)
  }

  function IndexFrom<R>(es: seq<Entry<R>>, key: Key, i: nat): (r: Option<nat>)
    requires i <= |es|
    ensures r.Some? ==> i <= r.value < |es| && es[r.value].key == key && forall j :: i <= j < r.value ==> es[j].key != key
    ensures r.None? ==> forall j :: i <= j < |es| ==> es[j].key != key
    decreases |es| - i
  {
    if i == |es| then None else if es[i].key == key then Some(i) else IndexFrom(es, key, i + 1)
  }

  function Dropped<R>(es: seq<Entry<R>>, i: nat): (after: seq<Entry<R>>)
    requires i < |es|
    ensures |after| == |es| - 1 && forall j :: 0 <= j < |after| ==> after[j] == es[if j < i then j else j + 1]
  {
    es[..i] + es[i + 1..]
  }

  function Without<R>(es: seq<Entry<R>>, key: Key): seq<Entry<R>> {
    var i := IndexOf(es, key);
    if i.Some? then Dropped(es, i.value) else es
  }

  /** A hit becomes the most recent entry. */
  function Promote<R>(es: seq<Entry<R>>, i: nat): seq<Entry<R>>
    requires i < |es|
  {
    [es[i]] + es[..i] + es[i + 1..]
  }

  /** A new key in a full map evicts the least recent one. */
  function Put<R>(es: seq<Entry<R>>, capacity: nat, entry: Entry<R>): seq<Entry<R>>
    requires capacity > 0
  {
    if IndexOf(es, entry.key).Some? then [entry] + Without(es, entry.key)
    else if |es| >= capacity then [entry] + es[..capacity - 1]
    else [entry] + es
  }

  // Runs ------------------------------------------------------------------------------------

  datatype Op<R> = Get(key: Key, now: nat) | Insert(key: Key, response: R, at: nat)

  /** `elapsed() > ttl`; elapsed is 0 for an instant not yet reached. */
  predicate Expired(insertedAt: nat, now: nat, ttl: nat) { now > insertedAt + ttl }

  datatype Config = Config(capacity: nat, ttl: nat)

  ghost predicate Positive(c: Config) { c.capacity > 0 }

  function Apply<R>(c: Config, es: seq<Entry<R>>, op: Op<R>): seq<Entry<R>>
    requires Positive(c)
  {
    match op
    case Insert(key, response, at) => Put(es, c.capacity, Entry(key, response, at))
    case Get(key, now) =>
      var i := IndexOf(es, key);
      if i.None? then es
      else if Expired(es[i.value].insertedAt, now, c.ttl) then Without(es, key)
      else Promote(es, i.value)
  }

  function Replay<R>(c: Config, log: seq<Op<R>>): seq<Entry<R>>
    requires Positive(c)
  {
    if log == [] then [] else Apply(c, Replay(c, log[..|log| - 1]), log[|log| - 1])
  }

  function Hit<R>(c: Config, es: seq<Entry<R>>, key: Key, now: nat): Option<R> {
    var i := IndexOf(es, key);
    if i.Some? && !Expired(es[i.value].insertedAt, now, c.ttl) then Some(es[i.value].response) else None
  }

  /** What a get answers after the operations of a log. */
  function Answer<R>(c: Config, log: seq<Op<R>>, key: Key, now: nat): Option<R>
    requires Positive(c)
  {
    Hit(c, Replay(c, log), key, now)
  }

  // Bounded, one entry a key ----------------------------------------------------------------

  ghost predicate Distinct<R>(es: seq<Entry<R>>) { forall i, j :: 0 <= i < j < |es| ==> es[i].key != es[j].key }

  lemma WithoutShape<R>(es: seq<Entry<R>>, key: Key)
    requires Distinct(es)
    ensures Distinct(Without(es, key)) && |Without(es, key)| <= |es|
    ensures forall e :: e in Without(es, key) ==> e in es && e.key != key
  {
    var i := IndexOf(es, key);
    var after := Without(es, key);
    forall j | 0 <= j < |after| ensures after[j] in es && after[j].key != key {
      assert after[j] == es[if i.None? || j < i.value then j else j + 1];
    }
  }

  lemma FrontShape<R>(es: seq<Entry<R>>, entry: Entry<R>)
    requires Distinct(es) && forall e :: e in es ==> e.key != entry.key
    ensures Distinct([entry] + es)
  {
    assert forall i :: 0 <= i < |es| ==> es[i] in es;
  }

  lemma IndexOfDistinct<R>(es: seq<Entry<R>>, p: nat)
    requires Distinct(es) && p < |es|
    ensures IndexOf(es, es[p].key) == Some(p)
  {
    var i := IndexOf(es, es[p].key);
    assert i.Some? && (i.value < p || i.value == p);
  }

  lemma PromoteIsFront<R>(es: seq<Entry<R>>, i: nat)
    requires Distinct(es) && i < |es|
    ensures Promote(es, i) == [es[i]] + Without(es, es[i].key) && IndexOf(es, es[i].key) == Some(i)
  {
    IndexOfDistinct(es, i);
    assert Promote(es, i) == [es[i]] + (es[..i] + es[i + 1..]);
  }

  lemma ApplyKeepsShape<R>(c: Config, es: seq<Entry<R>>, op: Op<R>)
    requires Positive(c) && Distinct(es) && |es| <= c.capacity
    ensures Distinct(Apply(c, es, op)) && |Apply(c, es, op)| <= c.capacity
  {
    var i := IndexOf(es, op.key);
    WithoutShape(es, op.key);
    match op
    case Insert(key, response, at) =>
      var entry := Entry(key, response, at);
      FrontShape(if i.Some? then Without(es, key) else if |es| >= c.capacity then es[..c.capacity - 1] else es, entry);
    case Get(key, now) =>
      if i.Some? {
        PromoteIsFront(es, i.value);
        FrontShape(Without(es, key), es[i.value]);
      }
  }

  lemma {:induction false} Bounded<R>(c: Config, log: seq<Op<R>>)
    requires Positive(c)
    ensures Distinct(Replay(c, log)) && |Replay(c, log)| <= c.capacity
  {
    if log != [] {
      Bounded(c, log[..|log| - 1]);
      ApplyKeepsShape(c, Replay(c, log[..|log| - 1]), log[|log| - 1]);
    }
  }

  // A hit is the latest response, and fresh -------------------------------------------------

  ghost predicate LatestInsert<R>(log: seq<Op<R>>, key: Key, i: nat) {
    i < |log| && log[i].Insert? && log[i].key == key && forall j :: i < j < |log| ==> !(log[j].Insert? && log[j].key == key)
  }

  /** Every entry is the latest insertion of its key. */
  ghost predicate Current<R>(log: seq<Op<R>>, es: seq<Entry<R>>) {
    forall p :: 0 <= p < |es| ==> Backed(log, es[p])
  }

  ghost predicate Backed<R>(log: seq<Op<R>>, e: Entry<R>) {
    exists i: nat :: LatestInsert(log, e.key, i) && log[i] == Insert(e.key, e.response, e.insertedAt)
  }

  lemma BackedLater<R>(log: seq<Op<R>>, op: Op<R>, e: Entry<R>)
    requires Backed(log, e) && (op.Insert? ==> op.key != e.key)
    ensures Backed(log + [op], e)
  {
    var i: nat :| LatestInsert(log, e.key, i) && log[i] == Insert(e.key, e.response, e.insertedAt);
    assert LatestInsert(log + [op], e.key, i);
  }

  lemma PutOrigin<R>(c: Config, es: seq<Entry<R>>, entry: Entry<R>, e: Entry<R>)
    requires Positive(c) && Distinct(es) && e in Put(es, c.capacity, entry)
    ensures e == entry || (e in es && e.key != entry.key)
  {
    WithoutShape(es, entry.key);
  }

  lemma GetOrigin<R>(c: Config, es: seq<Entry<R>>, key: Key, now: nat, e: Entry<R>)
    requires Positive(c) && Distinct(es) && e in Apply(c, es, Op<R>.Get(key, now))
    ensures e in es
  {
    WithoutShape(es, key);
    var i := IndexOf(es, key);
    if i.Some? { PromoteIsFront(es, i.value); }
  }

  /** What an operation leaves was there before, or is what it inserts. */
  lemma ApplyOrigin<R>(c: Config, es: seq<Entry<R>>, op: Op<R>, p: nat)
    requires Positive(c) && Distinct(es) && p < |Apply(c, es, op)|
    ensures var e := Apply(c, es, op)[p];
      (op.Insert? && e == Entry(op.key, op.response, op.at)) || (e in es && (op.Insert? ==> e.key != op.key))
  {
    var e := Apply(c, es, op)[p];
    match op
    case Insert(key, response, at) => PutOrigin(c, es, Entry(key, response, at), e);
    case Get(key, now) => GetOrigin(c, es, key, now, e);
  }

  lemma {:induction false} ReplayCurrent<R>(c: Config, log: seq<Op<R>>)
    requires Positive(c)
    ensures Current(log, Replay(c, log))
  {
    if log != [] {
      var front, op := log[..|log| - 1], log[|log| - 1];
      var es := Replay(c, front);
      ReplayCurrent(c, front);
      Bounded(c, front);
      assert log == front + [op];
      forall p | 0 <= p < |Replay(c, log)| ensures Backed(log, Replay(c, log)[p]) {
        ApplyOrigin(c, es, op, p);
        var e := Replay(c, log)[p];
        if e in es && (op.Insert? ==> op.key != e.key) {
          BackedLater(front, op, e);
        } else {
          assert LatestInsert(log, e.key, |front|);
        }
      }
    }
  }

  /** Safety: whatever is answered is the latest response inserted for that very key, no older than the TTL. */
  lemma AnswerIsLatestAndFresh<R>(c: Config, log: seq<Op<R>>, key: Key, now: nat)
    requires Positive(c) && Answer(c, log, key, now).Some?
    ensures exists i: nat ::
              LatestInsert(log, key, i) && log[i].response == Answer(c, log, key, now).value && now <= log[i].at + c.ttl
  {
    var es := Replay(c, log);
    ReplayCurrent(c, log);
    assert Backed(log, es[IndexOf(es, key).value]);
  }

  // What is fresh and recently used is still there ------------------------------------------

  /** An operation that makes its key the most recent: an insertion, or a get that answers. */
  ghost predicate Touches<R>(c: Config, log: seq<Op<R>>, i: nat)
    requires Positive(c)
  {
    i < |log| && (log[i].Insert? || Answer(c, log[..i], log[i].key, log[i].now).Some?)
  }

  ghost function TouchedBetween<R>(c: Config, log: seq<Op<R>>, from: nat, to: nat): set<Key>
    requires Positive(c) && to <= |log|
  {
    set i {:trigger Touches(c, log, i)} | from <= i < to && Touches(c, log, i) :: log[i].key
  }

  ghost predicate Ahead<R>(es: seq<Entry<R>>, p: nat, keys: set<Key>) {
    p <= |es| && forall q :: 0 <= q < p ==> es[q].key in keys
  }

  lemma {:induction false} AheadCount<R>(es: seq<Entry<R>>, p: nat, keys: set<Key>)
    requires Distinct(es) && Ahead(es, p, keys)
    ensures p <= |keys|
  {
    if p > 0 {
      AheadCount(es, p - 1, keys - {es[p - 1].key});
    }
  }

  /** Where an entry stands after an operation on another key. */
  function NextPlace<R>(c: Config, es: seq<Entry<R>>, op: Op<R>, p: nat): nat {
    var i := IndexOf(es, op.key);
    if op.Insert? then (if i.Some? && i.value < p then p else p + 1)
    else if i.None? then p
    else if Expired(es[i.value].insertedAt, op.now, c.ttl) then (if i.value < p then p - 1 else p)
    else if i.value < p then p
    else p + 1
  }

  ghost predicate Moves<R>(c: Config, es: seq<Entry<R>>, op: Op<R>)
    requires Positive(c)
  {
    op.Insert? || Hit(c, es, op.key, op.now).Some?
  }

  lemma DropKeeps<R>(es: seq<Entry<R>>, i: nat, p: nat, keys: set<Key>)
    requires p < |es| && i < |es| && i != p && Ahead(es, p, keys)
    ensures var q := if i < p then p - 1 else p;
      q < |es| - 1 && Dropped(es, i)[q] == es[p] && Ahead(Dropped(es, i), q, keys)
  {}

  lemma RemovalKeeps<R>(es: seq<Entry<R>>, key: Key, p: nat, keys: set<Key>)
    requires p < |es| && key != es[p].key && Ahead(es, p, keys)
    ensures var i := IndexOf(es, key); var q := if i.Some? && i.value < p then p - 1 else p;
      q < |Without(es, key)| && Without(es, key)[q] == es[p] && Ahead(Without(es, key), q, keys)
  {
    var i := IndexOf(es, key);
    if i.Some? { DropKeeps(es, i.value, p, keys); }
  }

  lemma PrependKeeps<R>(es: seq<Entry<R>>, e: Entry<R>, p: nat, keys: set<Key>)
    requires p < |es| && Ahead(es, p, keys) && e.key in keys
    ensures ([e] + es)[p + 1] == es[p] && Ahead([e] + es, p + 1, keys)
  {}

  lemma InsertionKeeps<R>(c: Config, es: seq<Entry<R>>, e: Entry<R>, p: nat, keys: set<Key>)
    requires Positive(c) && Distinct(es) && |es| <= c.capacity && p < |es| && IndexOf(es, e.key).None?
    requires Ahead(es, p, keys) && e.key in keys && |keys| < c.capacity
    ensures var after := Put(es, c.capacity, e); p + 1 < |after| && after[p + 1] == es[p] && Ahead(after, p + 1, keys)
  {
    FrontShape(es, e);
    PrependKeeps(es, e, p, keys);
    AheadCount([e] + es, p + 1, keys);
    if |es| >= c.capacity { PrependKeeps(es[..c.capacity - 1], e, p, keys); }
  }

  lemma GetKeeps<R>(c: Config, es: seq<Entry<R>>, key: Key, now: nat, p: nat, keys: set<Key>)
    requires Positive(c) && Distinct(es) && p < |es| && key != es[p].key && Ahead(es, p, keys)
    requires Hit(c, es, key, now).Some? ==> key in keys
    ensures var op := Get(key, now); var after, q := Apply<R>(c, es, op), NextPlace(c, es, op, p);
      q < |after| && after[q] == es[p] && Ahead(after, q, keys)
  {
    var i := IndexOf(es, key);
    RemovalKeeps(es, key, p, keys);
    if Hit(c, es, key, now).Some? {
      PromoteIsFront(es, i.value);
      PrependKeeps(Without(es, key), es[i.value], if i.value < p then p - 1 else p, keys);
    }
  }

  lemma InsertKeeps<R>(c: Config, es: seq<Entry<R>>, e: Entry<R>, p: nat, keys: set<Key>)
    requires Positive(c) && Distinct(es) && |es| <= c.capacity && p < |es| && e.key != es[p].key && Ahead(es, p, keys)
    requires e.key in keys && |keys| < c.capacity
    ensures var i := IndexOf(es, e.key); var after, q := Put(es, c.capacity, e), if i.Some? && i.value < p then p else p + 1;
      q < |after| && after[q] == es[p] && Ahead(after, q, keys)
  {
    var i := IndexOf(es, e.key);
    if i.None? {
      InsertionKeeps(c, es, e, p, keys);
    } else {
      RemovalKeeps(es, e.key, p, keys);
      PrependKeeps(Without(es, e.key), e, if i.value < p then p - 1 else p, keys);
    }
  }

  /** Only keys that are touched get ahead, and an entry is evicted only from behind capacity - 1 others. */
  lemma PlaceKept<R>(c: Config, es: seq<Entry<R>>, op: Op<R>, p: nat, keys: set<Key>)
    requires Positive(c) && Distinct(es) && |es| <= c.capacity && p < |es| && op.key != es[p].key && Ahead(es, p, keys)
    requires Moves(c, es, op) ==> op.key in keys
    requires |keys| < c.capacity
    ensures var after, q := Apply(c, es, op), NextPlace(c, es, op, p);
      q < |after| && after[q] == es[p] && Ahead(after, q, keys)
  {
    match op
    case Insert(key, response, at) => InsertKeeps(c, es, Entry(key, response, at), p, keys);
    case Get(key, now) => GetKeeps(c, es, key, now, p, keys);
  }

  lemma PrefixStep<R>(c: Config, log: seq<Op<R>>, n: nat)
    requires Positive(c) && n < |log|
    ensures Replay(c, log[..n + 1]) == Apply(c, Replay(c, log[..n]), log[n])
  {
    assert log[..n + 1][..n] == log[..n];
  }

  lemma LatestInPrefix<R>(log: seq<Op<R>>, key: Key, k: nat, n: nat, i: nat)
    requires LatestInsert(log, key, k) && k < n <= |log| && LatestInsert(log[..n], key, i)
    ensures i == k
  {
    assert log[..n][k] == log[k] && log[..n][i] == log[i];
  }

  lemma OnlyLatest<R>(c: Config, log: seq<Op<R>>, key: Key, k: nat, n: nat, e: Entry<R>)
    requires Positive(c) && LatestInsert(log, key, k) && k < n <= |log| && e in Replay(c, log[..n]) && e.key == key
    ensures e == Entry(key, log[k].response, log[k].at)
  {
    ReplayCurrent(c, log[..n]);
    assert Backed(log[..n], e);
    var i: nat :| LatestInsert(log[..n], key, i) && log[..n][i] == Insert(key, e.response, e.insertedAt);
    LatestInPrefix(log, key, k, n, i);
  }

  /** `from` is the last use of the key and `k` its latest insertion; no get of it since has read a later clock. */
  ghost predicate LastUse<R>(c: Config, log: seq<Op<R>>, key: Key, from: nat, k: nat, now: nat)
    requires Positive(c)
  {
    && Touches(c, log, from) && log[from].key == key
    && (forall i :: from < i < |log| && Touches(c, log, i) ==> log[i].key != key)
    && LatestInsert(log, key, k)
    && (forall i :: from < i < |log| && log[i].Get? && log[i].key == key ==> log[i].now <= now)
  }

  /** Until then, a get of the key itself would have been another use. */
  lemma NoGetBetween<R>(c: Config, log: seq<Op<R>>, key: Key, from: nat, k: nat, now: nat, e: Entry<R>, n: nat, p: nat)
    requires Positive(c) && LastUse(c, log, key, from, k, now) && e == Entry(key, log[k].response, log[k].at)
    requires now <= log[k].at + c.ttl
    requires from < n < |log| && p < |Replay(c, log[..n])| && Replay(c, log[..n])[p] == e
    ensures log[n].key != key
  {
    var es := Replay(c, log[..n]);
    Bounded(c, log[..n]);
    assert IndexOf(es, key) == Some(p);
    assert log[n].key == key ==> Touches(c, log, n);
  }

  ghost predicate Holds<R>(c: Config, log: seq<Op<R>>, n: nat, p: nat, e: Entry<R>, keys: set<Key>)
    requires Positive(c) && n <= |log|
  {
    var es := Replay(c, log[..n]);
    p < |es| && es[p] == e && Ahead(es, p, keys)
  }

  lemma HoldsOn<R>(c: Config, log: seq<Op<R>>, n: nat, p: nat, e: Entry<R>, keys: set<Key>) returns (q: nat)
    requires Positive(c) && n < |log| && Holds(c, log, n, p, e, keys) && |keys| < c.capacity
    requires log[n].key != e.key && (Touches(c, log, n) ==> log[n].key in keys)
    ensures Holds(c, log, n + 1, q, e, keys)
  {
    var es := Replay(c, log[..n]);
    Bounded(c, log[..n]);
    PlaceKept(c, es, log[n], p, keys);
    PrefixStep(c, log, n);
    q := NextPlace(c, es, log[n], p);
  }

  ghost predicate Covers<R>(c: Config, log: seq<Op<R>>, from: nat, keys: set<Key>)
    requires Positive(c)
  {
    forall i {:trigger Touches(c, log, i)} | from < i < |log| && Touches(c, log, i) :: log[i].key in keys
  }

  /** The facts `Survives` carries along, as one. */
  ghost predicate Waiting<R>(c: Config, log: seq<Op<R>>, key: Key, from: nat, k: nat, now: nat, e: Entry<R>, keys: set<Key>)
    requires Positive(c)
  {
    && LastUse(c, log, key, from, k, now) && now <= log[k].at + c.ttl && e == Entry(key, log[k].response, log[k].at)
    && Covers(c, log, from, keys)
  }

  lemma UsedIsFirst<R>(c: Config, log: seq<Op<R>>, key: Key, from: nat, k: nat, now: nat, e: Entry<R>, keys: set<Key>)
    requires Positive(c) && Waiting(c, log, key, from, k, now, e, keys) == true
    ensures Holds(c, log, from + 1, 0, e, keys) == true
  {
    assert Touches(c, log, k);
    assert k <= from;
    PrefixStep(c, log, from);
    var es := Replay(c, log[..from + 1]);
    OnlyLatest(c, log, key, k, from + 1, es[0]);
  }

  lemma SurvivesStep<R>(c: Config, log: seq<Op<R>>, key: Key, from: nat, k: nat, now: nat,
                        e: Entry<R>, keys: set<Key>, n: nat, p: nat) returns (q: nat)
    requires Positive(c) && Waiting(c, log, key, from, k, now, e, keys) == true && |keys| < c.capacity
    requires from < n < |log| && Holds(c, log, n, p, e, keys) == true
    ensures Holds(c, log, n + 1, q, e, keys) == true
  {
    NoGetBetween(c, log, key, from, k, now, e, n, p);
    q := HoldsOn(c, log, n, p, e, keys);
  }

  ghost predicate HeldAt<R>(c: Config, log: seq<Op<R>>, e: Entry<R>, keys: set<Key>, n: nat)
    requires Positive(c) && n <= |log|
  {
    exists p: nat :: Holds(c, log, n, p, e, keys)
  }

  lemma {:induction false} Survives<R>(c: Config, log: seq<Op<R>>, from: nat, e: Entry<R>, keys: set<Key>, n: nat)
    requires Positive(c) && from < n <= |log| && HeldAt(c, log, e, keys, from + 1)
    requires forall m :: from < m < |log| && HeldAt(c, log, e, keys, m) ==> HeldAt(c, log, e, keys, m + 1)
    ensures HeldAt(c, log, e, keys, n)
  {
    if n > from + 1 { Survives(c, log, from, e, keys, n - 1); }
  }

  /** Liveness: a fresh response is still answered while fewer than `capacity` other keys were used since its last use. */
  lemma FreshAndRecentIsAnswered<R>(c: Config, log: seq<Op<R>>, key: Key, from: nat, k: nat, now: nat)
    requires Positive(c) && LastUse(c, log, key, from, k, now) && now <= log[k].at + c.ttl
    requires |TouchedBetween(c, log, from + 1, |log|)| < c.capacity
    ensures Answer(c, log, key, now) == Some(log[k].response)
  {
    var keys := TouchedBetween(c, log, from + 1, |log|);
    var e := Entry(key, log[k].response, log[k].at);
    UsedIsFirst(c, log, key, from, k, now, e, keys);
    forall m | from < m < |log| && HeldAt(c, log, e, keys, m) ensures HeldAt(c, log, e, keys, m + 1) {
      var p: nat :| Holds(c, log, m, p, e, keys);
      var q := SurvivesStep(c, log, key, from, k, now, e, keys, m, p);
    }
    Survives(c, log, from, e, keys, |log|);
    HeldIsAnswered(c, log, e, keys, now);
  }

  /** Used recently, a response is answered exactly as long as it is no older than the TTL. */
  lemma AnsweredIff<R>(c: Config, log: seq<Op<R>>, key: Key, from: nat, k: nat, now: nat)
    requires Positive(c) && LastUse(c, log, key, from, k, now)
    requires |TouchedBetween(c, log, from + 1, |log|)| < c.capacity
    ensures Answer(c, log, key, now) == if now <= log[k].at + c.ttl then Some(log[k].response) else None
  {
    if now <= log[k].at + c.ttl {
      FreshAndRecentIsAnswered(c, log, key, from, k, now);
    } else {
      OldIsNotAnswered(c, log, key, k, now);
    }
  }

  lemma OldIsNotAnswered<R>(c: Config, log: seq<Op<R>>, key: Key, k: nat, now: nat)
    requires Positive(c) && LatestInsert(log, key, k) && now > log[k].at + c.ttl
    ensures Answer(c, log, key, now) == None
  {
    ReplayCurrent(c, log);
    var i := IndexOf(Replay(c, log), key);
    if i.Some? {
      var e := Replay(c, log)[i.value];
      assert Backed(log, e);
      assert log[..|log|] == log;
      OnlyLatest(c, log, key, k, |log|, e);
    }
  }

  /** Of a single insertion: answered until the TTL has passed, and not a moment longer. */
  lemma OneInsertion<R>(c: Config, key: Key, response: R, at: nat, now: nat)
    requires Positive(c)
    ensures Answer(c, [Op.Insert(key, response, at)], key, now) == if now <= at + c.ttl then Some(response) else None
  {
    var log := [Op.Insert(key, response, at)];
    assert Replay<R>(c, log[..0]) == [];
    assert Replay(c, log) == [Entry(key, response, at)];
  }

  lemma HeldIsAnswered<R>(c: Config, log: seq<Op<R>>, e: Entry<R>, keys: set<Key>, now: nat)
    requires Positive(c) && HeldAt(c, log, e, keys, |log|) && now <= e.insertedAt + c.ttl
    ensures Answer(c, log, e.key, now) == Some(e.response)
  {
    var p: nat :| Holds(c, log, |log|, p, e, keys);
    assert log[..|log|] == log;
    Bounded(c, log);
    IndexOfDistinct(Replay(c, log), p);
  }

  lemma ReplayAppend<R>(c: Config, log: seq<Op<R>>, op: Op<R>)
    requires Positive(c)
    ensures Replay(c, log + [op]) == Apply(c, Replay(c, log), op)
  {
    assert (log + [op])[..|log|] == log;
  }

  lemma PromoteThenRemove<R>(es: seq<Entry<R>>, i: nat)
    requires Distinct(es) && i < |es|
    ensures Without(Promote(es, i), es[i].key) == Without(es, es[i].key)
  {
    PromoteIsFront(es, i);
    assert Promote(es, i)[0] == es[i];
    assert Without(Promote(es, i), es[i].key) == Promote(es, i)[1..];
  }

  // The cache object ------------------------------------------------------------------------

  /** `log` is every operation so far, in the order the mutex let them in. */
  class InventoryAttestationCache<R(!new)> {
    const config: Config
    var entries: seq<Entry<R>>
    ghost var log: seq<Op<R>>

    ghost predicate Valid()
      reads this
    {
      Positive(config) && entries == Replay(config, log)
    }

    constructor (capacity: nat, ttl: nat)
      requires capacity > 0
      ensures Valid() && config == Config(capacity, ttl) && log == []
    {
      config := Config(capacity, ttl);
      entries := [];
      log := [];
    }

    method Get(key: Key, now: nat) returns (r: Option<R>)
      requires Valid()
      modifies this
      ensures Valid() && log == old(log) + [Op.Get(key, now)] && r == Answer(config, old(log), key, now)
    {
      Bounded(config, log);
      ReplayAppend(config, log, Op.Get(key, now));
      log := log + [Op.Get(key, now)];
      var i := IndexOf(entries, key);
      if i.None? { return None; }
      var entry := entries[i.value];
      PromoteThenRemove(entries, i.value);
      entries := Promote(entries, i.value);
      if Expired(entry.insertedAt, now, config.ttl) {
        entries := Without(entries, key);
        return None;
      }
      r := Some(entry.response);
    }

    method Insert(key: Key, response: R, at: nat)
      requires Valid()
      modifies this
      ensures Valid() && log == old(log) + [Op.Insert(key, response, at)]
    {
      ReplayAppend(config, log, Op.Insert(key, response, at));
      log := log + [Op.Insert(key, response, at)];
      entries := Put(entries, config.capacity, Entry(key, response, at));
    }
  }

  // Keys ------------------------------------------------------------------------------------

  const COLON: u8 := 0x3A

  /** `format!("{steam_id}:{asset_id}")`. */
  function KeyOf(steamId: u64, assetId: u64): Key { Decimal.Print(steamId) + [COLON] + Decimal.Print(assetId) }

  lemma ColonEndsDigits(steamId: u64, assetId: u64)
    ensures Decimal.RunEnd(KeyOf(steamId, assetId), 0) == |Decimal.Print(steamId)|
  {
    var key, n := KeyOf(steamId, assetId), |Decimal.Print(steamId)|;
    assert key[n] == COLON;
    assert forall k :: 0 <= k < n ==> key[k] == Decimal.Print(steamId)[k];
    Decimal.RunEndUnique(key, 0, n);
  }

  lemma KeyInjective(steamId: u64, assetId: u64, steamId': u64, assetId': u64)
    requires KeyOf(steamId, assetId) == KeyOf(steamId', assetId')
    ensures steamId == steamId' && assetId == assetId'
  {
    var key := KeyOf(steamId, assetId);
    ColonEndsDigits(steamId, assetId);
    ColonEndsDigits(steamId', assetId');
    var n := |Decimal.Print(steamId)|;
    assert key[..n] == Decimal.Print(steamId) && key[..n] == Decimal.Print(steamId');
    assert key[n + 1..] == Decimal.Print(assetId) && key[n + 1..] == Decimal.Print(assetId');
    Decimal.PrintValue(steamId);
    Decimal.PrintValue(steamId');
    Decimal.PrintValue(assetId);
    Decimal.PrintValue(assetId');
  }
}
