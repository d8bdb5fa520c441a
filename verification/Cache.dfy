/** The response cache: exact lookup in a TTL store, then the nearest cached prompt
    (src/kvgate/cache/manager.py, memory.py). */
module Cache {
  import opened Basics
  import opened Similarity

  /** A request: its model, its prompt text, and the digest of its canonical form. */
  datatype Request = Request(model: string, prompt: string, digest: string)

  function CanonicalKey(r: Request): (key: string)
    ensures key != ""
  {
    "kvgate:exact:" + r.digest
  }

  datatype Kind = Exact | Semantic

  datatype Hit = Hit(response: string, kind: Kind, similarity: real)

  // ----- the store -----

  /** An expiry of 0 means never. */
  datatype Item = Item(expiry: real, value: string)

  function Expiry(ttl: int, now: real): real {
    if ttl > 0 then now + ttl as real else 0.0
  }

  function Live(item: Option<Item>, now: real): Option<string> {
    if item.None? || (item.value.expiry != 0.0 && item.value.expiry < now) then None else Some(item.value.value)
  }

  class MemoryKVStore {
    var data: map<string, Item>

    constructor ()
      ensures data == map[]
    {
      data := map[];
    }

    function Find(key: string): Option<Item>
      reads this
    {
      if key in data then Some(data[key]) else None
    }

    /** `get`: an expired item is popped. */
    method Get(key: string, now: real) returns (value: Option<string>)
      modifies this
      ensures value == old(Live(Find(key), now))
      ensures data == if value.None? && key in old(data) then old(data) - {key} else old(data)
    {
      if key !in data {
        return None;
      }
      var item := data[key];
      if item.expiry != 0.0 && item.expiry < now {
        data := data - {key};
        return None;
      }
      return Some(item.value);
    }

    method Set(key: string, value: string, ttl: int, now: real)
      modifies this
      ensures data == old(data)[key := Item(Expiry(ttl, now), value)]
    {
      data := data[key := Item(Expiry(ttl, now), value)];
    }
  }

  // ----- the history -----

  datatype Put = Put(request: Request, response: string, at: real)

  /** The last put under `key`. */
  function LastPut(puts: seq<Put>, key: string): Option<Put> {
    if puts == [] then None
    else
      var p := puts[|puts| - 1];
      if CanonicalKey(p.request) == key then Some(p) else LastPut(puts[..|puts| - 1], key)
  }

  /** What `key` should answer at `now`: the last put under it, for `ttl` seconds. */
  function Recall(puts: seq<Put>, ttl: int, key: string, now: real): Option<string> {
    var p := LastPut(puts, key);
    if p.None? || (ttl > 0 && p.value.at + ttl as real < now) then None else Some(p.value.response)
  }

  /** The puts the bounded index remembers: the last `n`. */
  function Recent(puts: seq<Put>, n: nat): seq<Put> {
    if |puts| <= n then puts else puts[|puts| - n..]
  }

  datatype Entry = Entry(model: string, vec: Vector, key: string)

  function EntryOf(embed: string -> Vector, p: Put): Entry {
    Entry(p.request.model, embed(p.request.prompt), CanonicalKey(p.request))
  }

  function Entries(embed: string -> Vector, puts: seq<Put>): (entries: seq<Entry>)
    ensures |entries| == |puts|
  {
    seq(|puts|, i requires 0 <= i < |puts| => EntryOf(embed, puts[i]))
  }

  function Sim(sqrt: real -> real, query: Vector, e: Entry): real {
    Cosine(sqrt, query, e.vec)
  }

  /** Entry `i` is the earliest of the most similar ones of its model. */
  ghost predicate EarliestBest(sqrt: real -> real, model: string, query: Vector, entries: seq<Entry>, i: nat) {
    && i < |entries| && entries[i].model == model
    && (forall j :: 0 <= j < |entries| && entries[j].model == model ==>
          Sim(sqrt, query, entries[j]) <= Sim(sqrt, query, entries[i]))
    && (forall j :: 0 <= j < i && entries[j].model == model ==>
          Sim(sqrt, query, entries[j]) < Sim(sqrt, query, entries[i]))
  }

  /** The semantic answer: the live response of the earliest most similar recent entry
      of the model, if its similarity reaches the threshold. */
  ghost predicate SemanticAnswer(sqrt: real -> real, embed: string -> Vector, puts: seq<Put>, n: nat, ttl: int,
                                 threshold: real, r: Request, now: real, hit: Option<Hit>)
  {
    var entries, query := Entries(embed, Recent(puts, n)), embed(r.prompt);
    if exists i: nat :: Candidate(sqrt, r.model, query, entries, threshold, i) then
      exists i: nat :: Candidate(sqrt, r.model, query, entries, threshold, i) &&
        hit == match Recall(puts, ttl, entries[i].key, now)
               case None => None
               case Some(v) => Some(Hit(v, Semantic, Sim(sqrt, query, entries[i])))
    else hit == None
  }

  /** The search starts from a similarity of -1 and only ever improves on it. */
  ghost predicate Candidate(sqrt: real -> real, model: string, query: Vector, entries: seq<Entry>, threshold: real,
                            i: nat) {
    && EarliestBest(sqrt, model, query, entries, i)
    && Sim(sqrt, query, entries[i]) >= threshold && Sim(sqrt, query, entries[i]) > -1.0
  }

  // ----- the history, put by put -----

  function PutSim(sqrt: real -> real, embed: string -> Vector, r: Request, p: Put): real {
    Cosine(sqrt, embed(r.prompt), embed(p.request.prompt))
  }

  /** Of the last `n` puts of the model, put `k` is the earliest of the most similar ones,
      and similar enough. */
  ghost predicate BestPut(sqrt: real -> real, embed: string -> Vector, puts: seq<Put>, n: nat, threshold: real,
                          r: Request, k: nat) {
    && |puts| - n <= k < |puts| && puts[k].request.model == r.model
    && PutSim(sqrt, embed, r, puts[k]) >= threshold && PutSim(sqrt, embed, r, puts[k]) > -1.0
    && (forall j: nat :: |puts| - n <= j < |puts| && puts[j].request.model == r.model ==>
          PutSim(sqrt, embed, r, puts[j]) <= PutSim(sqrt, embed, r, puts[k]))
    && (forall j: nat :: |puts| - n <= j < k && puts[j].request.model == r.model ==>
          PutSim(sqrt, embed, r, puts[j]) < PutSim(sqrt, embed, r, puts[k]))
  }

  /** The answer is the live response of the best put, if there is one. */
  ghost predicate PutAnswer(sqrt: real -> real, embed: string -> Vector, puts: seq<Put>, n: nat, ttl: int,
                            threshold: real, r: Request, now: real, hit: Option<Hit>) {
    (exists k: nat :: BestPut(sqrt, embed, puts, n, threshold, r, k) &&
       hit == match Recall(puts, ttl, CanonicalKey(puts[k].request), now)
              case None => None
              case Some(v) => Some(Hit(v, Semantic, PutSim(sqrt, embed, r, puts[k]))))
    || (hit == None && forall k: nat :: !BestPut(sqrt, embed, puts, n, threshold, r, k))
  }

  lemma EntryAt(sqrt: real -> real, embed: string -> Vector, puts: seq<Put>, n: nat, r: Request, i: nat)
    requires i < |Recent(puts, n)|
    ensures var e, p := Entries(embed, Recent(puts, n))[i], puts[|puts| - |Recent(puts, n)| + i];
      && e == EntryOf(embed, p) && e.model == p.request.model
      && Sim(sqrt, embed(r.prompt), e) == PutSim(sqrt, embed, r, p)
  {
    hide Cosine;
    assert Recent(puts, n)[i] == puts[|puts| - |Recent(puts, n)| + i];
  }

  lemma CandidateIsBestPut(sqrt: real -> real, embed: string -> Vector, puts: seq<Put>, n: nat, threshold: real,
                           r: Request, i: nat)
    requires i < |Recent(puts, n)|
    ensures Candidate(sqrt, r.model, embed(r.prompt), Entries(embed, Recent(puts, n)), threshold, i)
       <==> BestPut(sqrt, embed, puts, n, threshold, r, |puts| - |Recent(puts, n)| + i)
  {
    var entries, first := Entries(embed, Recent(puts, n)), |puts| - |Recent(puts, n)|;
    assert first == if |puts| > n then |puts| - n else 0;
    hide Recent, Entries, Sim, PutSim;
    forall j | 0 <= j < |entries|
      ensures entries[j].model == puts[first + j].request.model
      ensures Sim(sqrt, embed(r.prompt), entries[j]) == PutSim(sqrt, embed, r, puts[first + j])
    {
      EntryAt(sqrt, embed, puts, n, r, j);
    }
    if Candidate(sqrt, r.model, embed(r.prompt), entries, threshold, i) {
      forall j: nat | |puts| - n <= j < |puts| && puts[j].request.model == r.model
        ensures PutSim(sqrt, embed, r, puts[j]) <= PutSim(sqrt, embed, r, puts[first + i])
        ensures j < first + i ==> PutSim(sqrt, embed, r, puts[j]) < PutSim(sqrt, embed, r, puts[first + i])
      {
        assert first <= j && entries[j - first].model == r.model;
      }
    }
  }

  /** So the semantic answer can be read off the puts. */
  lemma SemanticAnswerIsPutAnswer(sqrt: real -> real, embed: string -> Vector, puts: seq<Put>, n: nat, ttl: int,
                                  threshold: real, r: Request, now: real)
    ensures forall hit :: SemanticAnswer(sqrt, embed, puts, n, ttl, threshold, r, now, hit) ==>
                          PutAnswer(sqrt, embed, puts, n, ttl, threshold, r, now, hit)
  {
    var entries, first := Entries(embed, Recent(puts, n)), |puts| - |Recent(puts, n)|;
    assert |Recent(puts, n)| <= |puts|;
    hide BestPut, Recall, Recent, Sim, PutSim;
    forall i: nat | i < |entries|
      ensures entries[i] == EntryOf(embed, puts[first + i])
      ensures Sim(sqrt, embed(r.prompt), entries[i]) == PutSim(sqrt, embed, r, puts[first + i])
      ensures Candidate(sqrt, r.model, embed(r.prompt), entries, threshold, i) <==>
              BestPut(sqrt, embed, puts, n, threshold, r, first + i)
    {
      EntryAt(sqrt, embed, puts, n, r, i);
      CandidateIsBestPut(sqrt, embed, puts, n, threshold, r, i);
    }
    if k: nat :| BestPut(sqrt, embed, puts, n, threshold, r, k) {
      BestPutIsRecent(sqrt, embed, puts, n, threshold, r, k);
      assert Candidate(sqrt, r.model, embed(r.prompt), entries, threshold, k - first);
    }
  }

  lemma BestPutIsRecent(sqrt: real -> real, embed: string -> Vector, puts: seq<Put>, n: nat, threshold: real,
                        r: Request, k: nat)
    requires BestPut(sqrt, embed, puts, n, threshold, r, k)
    ensures |puts| - |Recent(puts, n)| <= k < |puts|
  {
  }

  /** Put `i` is the last for this request, and lasts until `now`. */
  predicate LastsUntil(puts: seq<Put>, ttl: int, r: Request, now: real, i: nat) {
    && i < |puts| && puts[i].request.digest == r.digest
    && (forall j :: i < j < |puts| ==> puts[j].request.digest != r.digest)
    && (ttl <= 0 || now <= puts[i].at + ttl as real)
  }

  /** What the store recalls for a request is the response of its last put, for `ttl`
      seconds. */
  lemma {:induction false} RecallIsLastPut(puts: seq<Put>, ttl: int, r: Request, now: real)
    ensures match Recall(puts, ttl, CanonicalKey(r), now)
            case Some(v) => exists i: nat :: LastsUntil(puts, ttl, r, now, i) && puts[i].response == v
            case None => forall i: nat :: !LastsUntil(puts, ttl, r, now, i)
  {
    if puts == [] {
    } else {
      var n := |puts| - 1;
      KeyHasDigest(r);
      KeyHasDigest(puts[n].request);
      if puts[n].request.digest == r.digest {
        assert LastPut(puts, CanonicalKey(r)) == Some(puts[n]);
        assert Recall(puts, ttl, CanonicalKey(r), now).Some? ==> LastsUntil(puts, ttl, r, now, n);
      } else {
        RecallIsLastPut(puts[..n], ttl, r, now);
        assert Recall(puts, ttl, CanonicalKey(r), now) == Recall(puts[..n], ttl, CanonicalKey(r), now);
        assert forall i: nat :: LastsUntil(puts, ttl, r, now, i) <==> LastsUntil(puts[..n], ttl, r, now, i);
      }
    }
  }

  // ----- the manager -----

  class CacheManager {
    const enabled: bool
    const ttl: int
    const threshold: real
    const maxEntries: nat
    const embed: Option<string -> Vector>
    const sqrt: real -> real
    const store: MemoryKVStore
    var index: seq<Entry>

    ghost var puts: seq<Put>
    ghost var clock: real

    /** At any later time the store answers what the history says, and the index holds
        the last `maxEntries` puts. */
    ghost predicate Valid()
      reads this, store
    {
      && clock >= 0.0
      && (forall key, t :: t >= clock ==> Live(store.Find(key), t) == Recall(puts, ttl, key, t))
      && (embed.Some? ==> index == Entries(embed.value, Recent(puts, maxEntries)))
    }

    constructor (enabled: bool, ttl: int, threshold: real, maxEntries: nat, embed: Option<string -> Vector>,
                 sqrt: real -> real)
      ensures Valid() && fresh(store) && puts == [] && clock == 0.0
      ensures this.enabled == enabled && this.ttl == ttl && this.threshold == threshold && this.maxEntries == maxEntries
      ensures this.embed == embed && this.sqrt == sqrt
    {
      this.enabled, this.ttl, this.threshold, this.maxEntries := enabled, ttl, threshold, maxEntries;
      this.embed, this.sqrt := embed, sqrt;
      store := new MemoryKVStore();
      index := [];
      puts := [];
      clock := 0.0;
    }

    /** `put`; a bounded deque drops its oldest entry. */
    method PutResponse(r: Request, response: string, now: real)
      requires Valid() && now >= clock
      modifies this, store
      ensures Valid() && clock == now
      ensures puts == if enabled then old(puts) + [Put(r, response, now)] else old(puts)
    {
      clock := now;
      if !enabled {
        return;
      }
      var key := CanonicalKey(r);
      PutIsRecalled(puts, Put(r, response, now), ttl, now);
      store.Set(key, response, ttl, now);
      puts := puts + [Put(r, response, now)];
      if embed.Some? {
        RecentOneMore(embed.value, old(puts), Put(r, response, now), maxEntries);
        index := index + [Entry(r.model, embed.value(r.prompt), key)];
        if |index| > maxEntries {
          index := index[1..];
        }
      }
    }

    /** `_nearest` */
    method Nearest(model: string, query: Vector) returns (bestKey: Option<string>, bestSim: real, ghost best: nat)
      ensures bestKey.None? ==> bestSim == -1.0
      ensures bestKey.None? ==>
        forall j :: 0 <= j < |index| && index[j].model == model ==> Sim(sqrt, query, index[j]) <= -1.0
      ensures bestKey.Some? ==> bestSim > -1.0 && EarliestBest(sqrt, model, query, index, best)
      ensures bestKey.Some? ==> bestKey.value == index[best].key && bestSim == Sim(sqrt, query, index[best])
    {
      bestKey, bestSim, best := None, -1.0, 0;
      for k := 0 to |index|
        invariant bestKey.None? ==> bestSim == -1.0
        invariant bestKey.Some? ==> bestSim > -1.0 && best < k && index[best].model == model
        invariant bestKey.Some? ==> bestKey.value == index[best].key && bestSim == Sim(sqrt, query, index[best])
        invariant forall j :: 0 <= j < k && index[j].model == model ==> Sim(sqrt, query, index[j]) <= bestSim
        invariant bestKey.Some? ==>
          forall j :: 0 <= j < best && index[j].model == model ==> Sim(sqrt, query, index[j]) < bestSim
      {
        if index[k].model == model {
          var sim := Sim(sqrt, query, index[k]);
          if sim > bestSim {
            bestKey, bestSim, best := Some(index[k].key), sim, k;
          }
        }
      }
    }

    /** `store.get`, which may drop an expired item but changes no later answer. */
    method Lookup(key: string, now: real) returns (value: Option<string>)
      requires Valid() && now >= clock
      modifies this`clock, store
      ensures Valid() && clock == now
      ensures value == Recall(puts, ttl, key, now)
    {
      value := store.Get(key, now);
      clock := now;
    }

    /** `get`; `later` is the clock at the second store lookup. */
    method Get(r: Request, now: real, later: real) returns (hit: Option<Hit>)
      requires Valid() && clock <= now <= later
      modifies this`clock, store
      ensures Valid() && clock <= later
      ensures !enabled ==> hit == None
      ensures enabled && Recall(puts, ttl, CanonicalKey(r), now).Some? ==>
        hit == Some(Hit(Recall(puts, ttl, CanonicalKey(r), now).value, Exact, 1.0))
      ensures enabled && Recall(puts, ttl, CanonicalKey(r), now).None? && embed.None? ==> hit == None
      ensures enabled && Recall(puts, ttl, CanonicalKey(r), now).None? && embed.Some? ==>
        SemanticAnswer(sqrt, embed.value, puts, maxEntries, ttl, threshold, r, later, hit)
      ensures enabled && Recall(puts, ttl, CanonicalKey(r), now).None? && embed.Some? ==>
        PutAnswer(sqrt, embed.value, puts, maxEntries, ttl, threshold, r, later, hit)
    {
      hide PutAnswer;
      if !enabled {
        return None;
      }
      var raw := Lookup(CanonicalKey(r), now);
      if raw.Some? {
        return Some(Hit(raw.value, Exact, 1.0));
      }
      if embed.None? {
        return None;
      }
      var query := embed.value(r.prompt);
      var bestKey, bestSim;
      ghost var best;
      SemanticAnswerIsPutAnswer(sqrt, embed.value, puts, maxEntries, ttl, threshold, r, later);
      bestKey, bestSim, best := Nearest(r.model, query);
      NearestDecides(sqrt, r.model, query, index, threshold, bestKey, bestSim, best);
      if bestKey.Some? && bestKey.value != "" && bestSim >= threshold {
        raw := Lookup(bestKey.value, later);
        if raw.Some? {
          return Some(Hit(raw.value, Semantic, bestSim));
        }
      }
      return None;
    }
  }

  // ----- lemmas -----

  lemma NearestDecides(sqrt: real -> real, model: string, query: Vector, entries: seq<Entry>, threshold: real,
                       bestKey: Option<string>, bestSim: real, best: nat)
    requires bestKey.None? ==>
      forall j :: 0 <= j < |entries| && entries[j].model == model ==> Sim(sqrt, query, entries[j]) <= -1.0
    requires bestKey.Some? ==>
      bestSim > -1.0 && EarliestBest(sqrt, model, query, entries, best) && bestSim == Sim(sqrt, query, entries[best])
    ensures bestKey.Some? && bestSim >= threshold ==> Candidate(sqrt, model, query, entries, threshold, best)
    ensures !(bestKey.Some? && bestSim >= threshold) ==>
      forall i: nat :: !Candidate(sqrt, model, query, entries, threshold, i)
  {
  }

  /** The earliest most similar entry above the threshold is missed exactly when its
      similarity is -1; that takes a threshold of -1 or less and a model whose remembered
      prompts are all exactly opposite to this one. */
  lemma FloorMissesOnlyOpposites(sqrt: real -> real, model: string, query: Vector, entries: seq<Entry>,
                                 threshold: real, i: nat)
    requires EarliestBest(sqrt, model, query, entries, i) && Sim(sqrt, query, entries[i]) >= threshold
    requires IsRoot(sqrt, Dot(query, query)) && forall e :: e in entries ==> IsRoot(sqrt, Dot(e.vec, e.vec))
    ensures !Candidate(sqrt, model, query, entries, threshold, i) <==> Sim(sqrt, query, entries[i]) == -1.0
    ensures !Candidate(sqrt, model, query, entries, threshold, i) ==> threshold <= -1.0
    ensures !Candidate(sqrt, model, query, entries, threshold, i) ==>
      forall j :: 0 <= j < |entries| && entries[j].model == model ==> Sim(sqrt, query, entries[j]) == -1.0
  {
    forall j | 0 <= j < |entries| ensures Sim(sqrt, query, entries[j]) >= -1.0 {
      assert entries[j] in entries;
      CosineBounds(sqrt, query, entries[j].vec);
    }
  }

  /** Such an entry exists: a prompt opposite to the only cached one, with a threshold
      of -1, finds nothing although its similarity reaches the threshold. */
  lemma OppositeIsMissed(sqrt: real -> real, embed: string -> Vector, cached: Request, r: Request,
                         response: string, n: nat, at: real, now: real)
    requires IsRoot(sqrt, 1.0) && n >= 1 && cached.model == r.model && cached.digest != r.digest
    requires embed(cached.prompt) == [-1.0] && embed(r.prompt) == [1.0]
    ensures var entries := Entries(embed, Recent([Put(cached, response, at)], n));
      && EarliestBest(sqrt, r.model, embed(r.prompt), entries, 0)
      && Sim(sqrt, embed(r.prompt), entries[0]) == -1.0
    ensures Recall([Put(cached, response, at)], 0, CanonicalKey(cached), now) == Some(response)
    ensures Recall([Put(cached, response, at)], 0, CanonicalKey(r), now) == None
    ensures SemanticAnswer(sqrt, embed, [Put(cached, response, at)], n, 0, -1.0, r, now, None)
  {
    KeyHasDigest(r);
    KeyHasDigest(cached);
    assert [Put(cached, response, at)][..0] == [];
    assert LastPut([], CanonicalKey(r)) == None;
    assert Dot([], []) == 0.0;
    assert Dot([1.0], [1.0]) == 1.0 && Dot([-1.0], [-1.0]) == 1.0 && Dot([1.0], [-1.0]) == -1.0;
    UnitRoot(sqrt(1.0));
    assert Cosine(sqrt, [1.0], [-1.0]) == -1.0;
  }

  lemma KeyHasDigest(r: Request)
    ensures CanonicalKey(r)[|"kvgate:exact:"|..] == r.digest
  {
  }

  lemma UnitRoot(x: real)
    requires x >= 0.0 && x * x == 1.0
    ensures x == 1.0
  {
    if x < 1.0 {
      SquareGrows(x, 1.0);
    }
    if x > 1.0 {
      SquareGrows(1.0, x);
    }
  }

  lemma PutIsRecalled(puts: seq<Put>, p: Put, ttl: int, now: real)
    requires p.at == now >= 0.0
    ensures forall key, t :: t >= now ==>
      Recall(puts + [p], ttl, key, t) == if key == CanonicalKey(p.request)
                                         then Live(Some(Item(Expiry(ttl, now), p.response)), t)
                                         else Recall(puts, ttl, key, t)
  {
    assert (puts + [p])[..|puts|] == puts;
  }

  lemma RecentOneMore(embed: string -> Vector, puts: seq<Put>, p: Put, n: nat)
    ensures var more := Entries(embed, Recent(puts, n)) + [EntryOf(embed, p)];
      Entries(embed, Recent(puts + [p], n)) == if |more| > n then more[1..] else more
  {
  }
}
