/** The Redis-backed prefix-affinity index (src/kvgate/routing/affinity_redis.py),
    used by one gateway at a time.  SharedRedis.dfy interleaves many gateways. */
module RedisAffinity {
  import opened Basics
  import opened Affinity

  type Fields = map<Hash, real>

  datatype Deadline = Never | At(t: real)

  /** A Redis hash and its whole-key expiry. */
  datatype Key = Key(fields: Fields, deadline: Deadline)

  const NO_KEY := Key(map[], Never)

  /** Redis keeps no empty hash: the key goes, and its expiry with it. */
  function Stored(f: Fields, deadline: Deadline): Key {
    if f == map[] then NO_KEY else Key(f, deadline)
  }

  /** Redis treats a key as gone once the clock has passed its deadline. */
  function Visible(k: Key, now: real): Key {
    if k.deadline.At? && now > k.deadline.t then NO_KEY else k
  }

  /** `dict.fromkeys(chain, now)` */
  function FromKeys(chain: seq<Hash>, now: real): Fields {
    map h | h in chain :: now
  }

  function FreshPart(ttl: real, f: Fields, now: real): Fields {
    map h | h in f && Fresh(ttl, f[h], now) :: f[h]
  }

  /** What HDEL leaves. */
  function Except(f: Fields, hashes: seq<Hash>): Fields {
    map h | h in f && h !in hashes :: f[h]
  }

  /** `int(ttl_s) + 1` seconds from now, when there is a TTL. */
  function NewDeadline(ttl: real, k: Key, now: real): Deadline {
    if ttl > 0.0 then At(now + ttl.Floor as real + 1.0) else k.deadline
  }

  /** What a trim may leave: the live fields, or any `cap` of them that are youngest. */
  ghost predicate Trimmed(ttl: real, cap: nat, f: Fields, now: real, left: Fields) {
    var live := FreshPart(ttl, f, now);
    if |live| <= cap then left == live
    else
      && left.Keys <= live.Keys && (forall h :: h in left ==> left[h] == live[h])
      && |left| == cap
      && forall h, x :: h in live && h !in left && x in left ==> live[h] <= left[x]
  }

  /** `g` is full, and a write at `t` would be no younger than anything in it. */
  ghost predicate NoYounger(cap: nat, g: Fields, t: real) {
    |g| >= cap && forall x :: x in g ==> t <= g[x]
  }

  /** What `register` may turn the replica's key into. */
  ghost predicate MayRegister(ttl: real, cap: nat, k: Key, chain: seq<Hash>, now: real, k': Key) {
    if chain == [] then k' == k
    else
      var v := Visible(k, now);
      && k'.deadline == NewDeadline(ttl, v, now)
      && MayLeave(ttl, cap, v.fields + FromKeys(chain, now), now, k'.fields)
  }

  /** Fields `f` are trimmed only when HLEN reports more than the cap. */
  ghost predicate MayLeave(ttl: real, cap: nat, f: Fields, now: real, left: Fields) {
    if |f| <= cap then left == f else Trimmed(ttl, cap, f, now, left)
  }

  /** `n` is the length of the leading run of `chain` found fresh in `f`. */
  ghost predicate LeadingFields(ttl: real, f: Fields, chain: seq<Hash>, now: real, n: nat) {
    && n <= |chain|
    && (forall i :: 0 <= i < n ==> chain[i] in f && Fresh(ttl, f[chain[i]], now))
    && (n < |chain| ==> chain[n] !in f || !Fresh(ttl, f[chain[n]], now))
  }

  // ----- the server -----

  class RedisServer {
    var keys: map<string, Key>

    function Get(key: string, now: real): Key
      reads this
    {
      if key in keys then Visible(keys[key], now) else NO_KEY
    }

    method HMGet(key: string, hashes: seq<Hash>, now: real) returns (values: seq<Option<real>>)
      ensures |values| == |hashes|
      ensures forall i :: 0 <= i < |hashes| ==>
        values[i] == if hashes[i] in Get(key, now).fields then Some(Get(key, now).fields[hashes[i]]) else None
    {
      var f := Get(key, now).fields;
      values := seq(|hashes|, i requires 0 <= i < |hashes| => if hashes[i] in f then Some(f[hashes[i]]) else None);
    }

    method HSet(key: string, mapping: Fields, now: real)
      modifies this
      ensures keys == old(keys)[key := Key(old(Get(key, now)).fields + mapping, old(Get(key, now)).deadline)]
    {
      var k := Get(key, now);
      keys := keys[key := Key(k.fields + mapping, k.deadline)];
    }

    method Expire(key: string, seconds: int, now: real)
      requires key in keys
      modifies this
      ensures keys == old(keys)[key := Key(old(keys[key]).fields, At(now + seconds as real))]
    {
      keys := keys[key := Key(keys[key].fields, At(now + seconds as real))];
    }

    method HLen(key: string, now: real) returns (n: nat)
      ensures n == |Get(key, now).fields|
    {
      n := |Get(key, now).fields|;
    }

    /** HGETALL, in whatever order the server likes. */
    method HGetAll(key: string, now: real) returns (items: seq<Entry>)
      ensures Lists(items, Get(key, now).fields)
    {
      var rest := Get(key, now).fields;
      items := [];
      while rest != map[]
        invariant Distinct(items)
        invariant forall e :: e in items ==> e.hash !in rest
        invariant forall h :: h in Get(key, now).fields <==> h in rest || h in Hashes(items)
        invariant forall h :: h in rest ==> rest[h] == Get(key, now).fields[h]
        invariant forall e :: e in items ==> e.hash in Get(key, now).fields && e.ts == Get(key, now).fields[e.hash]
        decreases |rest.Keys|
      {
        assert rest.Keys != {};
        var h :| h in rest;
        items := items + [Entry(h, rest[h])];
        assert (rest - {h}).Keys == rest.Keys - {h};
        rest := rest - {h};
      }
    }

    method HDel(key: string, hashes: seq<Hash>, now: real)
      requires key in keys
      modifies this
      ensures keys == old(keys)[key := Stored(Except(old(Get(key, now)).fields, hashes), old(Get(key, now)).deadline)]
    {
      var k := Get(key, now);
      keys := keys[key := Stored(Except(k.fields, hashes), k.deadline)];
    }
  }

  /** `items` lists the fields of `f`, each once. */
  ghost predicate Lists(items: seq<Entry>, f: Fields) {
    && Distinct(items)
    && Hashes(items) == f.Keys
    && forall e :: e in items ==> e.hash in f && e.ts == f[e.hash]
  }

  // ----- the index -----

  class RedisPrefixAffinityIndex {
    const ttl: real
    const maxBlocks: nat
    const prefix: string
    const redis: RedisServer

    predicate Valid() {
      maxBlocks >= 1
    }

    constructor (redis: RedisServer, ttl: real, maxBlocksPerReplica: int, prefix: string)
      ensures this.redis == redis && this.ttl == ttl && this.prefix == prefix
      ensures Valid()
      ensures maxBlocks == if maxBlocksPerReplica > 1 then maxBlocksPerReplica else 1
    {
      this.redis, this.ttl, this.prefix := redis, ttl, prefix;
      maxBlocks := if maxBlocksPerReplica > 1 then maxBlocksPerReplica else 1;
    }

    /** `matched_blocks` */
    method MatchedBlocks(replica: Replica, chain: seq<Hash>, now: real) returns (count: nat)
      ensures LeadingFields(ttl, redis.Get(prefix + replica, now).fields, chain, now, count)
    {
      if chain == [] {
        return 0;
      }
      var values := redis.HMGet(prefix + replica, chain, now);
      count := 0;
      while count < |values|
        invariant count <= |values|
        invariant forall i :: 0 <= i < count ==>
          values[i].Some? && Fresh(ttl, values[i].value, now)
      {
        if values[count].None? || !Fresh(ttl, values[count].value, now) {
          return;
        }
        count := count + 1;
      }
    }

    /** `register` */
    method Register(replica: Replica, chain: seq<Hash>, now: real)
      requires Valid()
      modifies redis
      ensures MayRegister(ttl, maxBlocks, old(redis.Get(prefix + replica, now)), chain, now,
                          redis.Get(prefix + replica, now))
      ensures forall key :: key != prefix + replica ==> redis.Get(key, now) == old(redis.Get(key, now))
    {
      if chain == [] {
        return;
      }
      var key := prefix + replica;
      var hlen := Write(key, chain, now);
      ghost var k := redis.keys[key];
      if hlen > maxBlocks {
        Trim(key, now);
        UpdateTwice(old(redis.keys), key, k, redis.keys[key]);
        ChainSurvives(ttl, maxBlocks, old(redis.Get(prefix + replica, now)).fields, chain, now, redis.keys[key].fields);
      }
      assert redis.keys == old(redis.keys)[key := redis.keys[key]];
    }

    /** The pipeline of `register`: HSET, EXPIRE, HLEN. */
    method Write(key: string, chain: seq<Hash>, now: real) returns (hlen: nat)
      modifies redis
      ensures key in redis.keys && redis.keys == old(redis.keys)[key := redis.keys[key]]
      ensures redis.keys[key].fields == old(redis.Get(key, now)).fields + FromKeys(chain, now)
      ensures redis.keys[key].deadline == NewDeadline(ttl, old(redis.Get(key, now)), now)
      ensures Visible(redis.keys[key], now) == redis.keys[key]
      ensures hlen == |redis.keys[key].fields|
    {
      redis.HSet(key, FromKeys(chain, now), now);
      if ttl > 0.0 {
        ghost var k := redis.keys[key];
        redis.Expire(key, ttl.Floor + 1, now);
        UpdateTwice(old(redis.keys), key, k, redis.keys[key]);
      }
      hlen := redis.HLen(key, now);
    }

    /** `_trim`: drop expired fields first, then the oldest by timestamp. */
    method Trim(key: string, now: real)
      requires key in redis.keys && Visible(redis.keys[key], now) == redis.keys[key]
      modifies redis
      ensures key in redis.keys && redis.keys == old(redis.keys)[key := redis.keys[key]]
      ensures redis.keys[key].fields != map[] ==> redis.keys[key].deadline == old(redis.keys[key].deadline)
      ensures Trimmed(ttl, maxBlocks, old(redis.keys[key].fields), now, redis.keys[key].fields)
    {
      var items := redis.HGetAll(key, now);
      ghost var f := redis.keys[key].fields;
      if items == [] {
        NothingToTrim(ttl, maxBlocks, f, now);
        return;
      }
      var toDrop := ToDrop(ttl, maxBlocks, items, f, now);
      if toDrop != [] {
        redis.HDel(key, toDrop, now);
      } else {
        assert Except(f, toDrop) == f;
      }
    }
  }

  /** A trim keeps some of the chain just written, so the key and its expiry remain. */
  lemma ChainSurvives(ttl: real, cap: nat, f: Fields, chain: seq<Hash>, now: real, left: Fields)
    requires cap >= 1 && chain != [] && Trimmed(ttl, cap, f + FromKeys(chain, now), now, left)
    ensures left != map[]
  {
    assert chain[0] in FreshPart(ttl, f + FromKeys(chain, now), now);
  }

  lemma NothingToTrim(ttl: real, cap: nat, f: Fields, now: real)
    requires f.Keys == {}
    ensures Trimmed(ttl, cap, f, now, f)
  {
    assert FreshPart(ttl, f, now) == f;
  }

  /** The local part of `_trim`, between HGETALL and HDEL. */
  method ToDrop(ttl: real, cap: nat, items: seq<Entry>, ghost f: Fields, now: real) returns (toDrop: seq<Hash>)
    requires Lists(items, f)
    ensures Trimmed(ttl, cap, f, now, Except(f, toDrop))
  {
    hide SortByTime, HashesOf;
    var expired, live := Partition(ttl, items, now);
    ghost var alive := FreshPart(ttl, f, now);
    PartitionLists(ttl, items, f, now, expired, live);
    ListLength(live, alive);
    if |live| > cap {
      var overflow := |live| - cap;
      var sorted := SortByTime(live);
      SortContents(live);
      assert Hashes(sorted) == Hashes(live);
      toDrop := expired + HashesOf(sorted[..overflow]);
      DropOldest(ttl, cap, f, now, expired, sorted, toDrop);
    } else {
      toDrop := expired;
      DropExpired(ttl, f, now, expired);
    }
  }

  function HashesOf(s: seq<Entry>): (hs: seq<Hash>)
    ensures forall h :: h in hs <==> h in Hashes(s)
  {
    if s == [] then []
    else assert s == [s[0]] + s[1..]; [s[0].hash] + HashesOf(s[1..])
  }

  lemma PartitionLists(ttl: real, items: seq<Entry>, f: Fields, now: real, expired: seq<Hash>, live: seq<Entry>)
    requires Lists(items, f) && Distinct(live)
    requires forall e :: e in items ==> (e.hash in expired <==> !Fresh(ttl, e.ts, now))
    requires forall e :: e in live <==> e in items && Fresh(ttl, e.ts, now)
    ensures Lists(live, FreshPart(ttl, f, now))
    ensures forall h :: h in f ==> (h in expired <==> !Fresh(ttl, f[h], now))
  {
    forall h | h in f
      ensures h in expired <==> !Fresh(ttl, f[h], now)
      ensures h in Hashes(live) <==> Fresh(ttl, f[h], now)
    {
      assert h in Hashes(items);
      var e :| e in items && e.hash == h;
      if Fresh(ttl, f[h], now) {
        assert e in live;
      }
    }
    forall h | h in Hashes(live) ensures h in f {
      var e :| e in live && e.hash == h;
      assert e in items;
    }
    assert Hashes(live) == FreshPart(ttl, f, now).Keys;
  }

  lemma DropExpired(ttl: real, f: Fields, now: real, expired: seq<Hash>)
    requires forall h :: h in f ==> (h in expired <==> !Fresh(ttl, f[h], now))
    ensures Except(f, expired) == FreshPart(ttl, f, now)
  {
  }

  /** The two list comprehensions of `_trim`. */
  method Partition(ttl: real, items: seq<Entry>, now: real) returns (expired: seq<Hash>, live: seq<Entry>)
    requires Distinct(items)
    ensures forall e :: e in items ==> (e.hash in expired <==> !Fresh(ttl, e.ts, now))
    ensures forall h :: h in expired ==> h in Hashes(items)
    ensures Distinct(live) && forall e :: e in live <==> e in items && Fresh(ttl, e.ts, now)
  {
    expired, live := [], [];
    for k := 0 to |items|
      invariant forall h :: h in expired <==>
        exists j :: 0 <= j < k && items[j].hash == h && !Fresh(ttl, items[j].ts, now)
      invariant Distinct(live)
      invariant forall e :: e in live <==> exists j :: 0 <= j < k && items[j] == e && Fresh(ttl, items[j].ts, now)
    {
      if Fresh(ttl, items[k].ts, now) {
        forall e | e in live ensures e.hash != items[k].hash {
          var j :| 0 <= j < k && items[j] == e;
        }
        live := live + [items[k]];
      } else {
        expired := expired + [items[k].hash];
      }
    }
  }

  function Insert(e: Entry, s: seq<Entry>): seq<Entry> {
    if s == [] || e.ts <= s[0].ts then [e] + s else [s[0]] + Insert(e, s[1..])
  }

  /** `live.sort(key=lambda x: x[1])` */
  function SortByTime(s: seq<Entry>): seq<Entry> {
    if s == [] then [] else Insert(s[0], SortByTime(s[1..]))
  }

  lemma {:induction false} InsertContents(e: Entry, s: seq<Entry>)
    ensures |Insert(e, s)| == |s| + 1
    ensures forall x :: x in Insert(e, s) <==> x == e || x in s
  {
    if s == [] || e.ts <= s[0].ts {
    } else {
      InsertContents(e, s[1..]);
      assert s == [s[0]] + s[1..];
    }
  }

  lemma {:induction false} InsertOrdered(e: Entry, s: seq<Entry>)
    requires Sorted(s)
    ensures Sorted(Insert(e, s))
  {
    if s == [] || e.ts <= s[0].ts {
    } else {
      InsertOrdered(e, s[1..]);
      InsertContents(e, s[1..]);
      forall x | x in Insert(e, s[1..]) ensures s[0].ts <= x.ts {}
    }
  }

  lemma {:induction false} InsertDistinct(e: Entry, s: seq<Entry>)
    requires Distinct(s) && forall x :: x in s ==> x.hash != e.hash
    ensures Distinct(Insert(e, s))
  {
    if s == [] || e.ts <= s[0].ts {
    } else {
      InsertDistinct(e, s[1..]);
      InsertContents(e, s[1..]);
      forall x | x in Insert(e, s[1..]) ensures s[0].hash != x.hash {}
    }
  }

  lemma {:induction false} SortContents(s: seq<Entry>)
    requires Distinct(s)
    ensures Sorted(SortByTime(s)) && Distinct(SortByTime(s))
    ensures |SortByTime(s)| == |s| && forall e :: e in SortByTime(s) <==> e in s
  {
    if s == [] {
    } else {
      assert s == [s[0]] + s[1..] && Distinct(s[1..]);
      SortContents(s[1..]);
      InsertContents(s[0], SortByTime(s[1..]));
      InsertOrdered(s[0], SortByTime(s[1..]));
      InsertDistinct(s[0], SortByTime(s[1..]));
    }
  }

  // ----- counting -----

  lemma ListLength(live: seq<Entry>, alive: Fields)
    requires Distinct(live) && Hashes(live) == alive.Keys
    ensures |live| == |alive|
  {
    HashesCount(live);
    assert |alive| == |alive.Keys|;
  }

  lemma SplitDistinct(a: seq<Entry>, b: seq<Entry>)
    requires Distinct(a + b)
    ensures Hashes(a + b) == Hashes(a) + Hashes(b) && Hashes(a) !! Hashes(b) && Distinct(b)
  {
    forall x, y | x in a && y in b ensures x.hash != y.hash {
      var i :| 0 <= i < |a| && a[i] == x;
      var j :| 0 <= j < |b| && b[j] == y;
      assert (a + b)[i] == x && (a + b)[|a| + j] == y;
    }
    forall i, j | 0 <= i < j < |b| ensures b[i].hash != b[j].hash {
      assert (a + b)[|a| + i] == b[i] && (a + b)[|a| + j] == b[j];
    }
  }

  lemma DropOldest(ttl: real, cap: nat, f: Fields, now: real, expired: seq<Hash>, sorted: seq<Entry>, toDrop: seq<Hash>)
    requires Lists(sorted, FreshPart(ttl, f, now)) && Sorted(sorted) && |sorted| > cap
    requires forall h :: h in f ==> (h in expired <==> !Fresh(ttl, f[h], now))
    requires toDrop == expired + HashesOf(sorted[..|sorted| - cap])
    ensures Trimmed(ttl, cap, f, now, Except(f, toDrop))
  {
    var live := FreshPart(ttl, f, now);
    var dropped, kept := sorted[..|sorted| - cap], sorted[|sorted| - cap..];
    assert sorted == dropped + kept;
    SplitDistinct(dropped, kept);
    var left := Except(f, toDrop);
    LeftAfterDrop(ttl, f, now, expired, toDrop, dropped, kept);
    ListLength(kept, left);
    ListLength(sorted, live);
    forall h, x | h in live && h !in left && x in left ensures live[h] <= left[x] {
      OlderThan(dropped, kept, live, h, x);
    }
  }

  lemma LeftAfterDrop(ttl: real, f: Fields, now: real, expired: seq<Hash>, toDrop: seq<Hash>, dropped: seq<Entry>,
                      kept: seq<Entry>)
    requires FreshPart(ttl, f, now).Keys == Hashes(dropped) + Hashes(kept) && Hashes(dropped) !! Hashes(kept)
    requires forall h :: h in f ==> (h in expired <==> !Fresh(ttl, f[h], now))
    requires toDrop == expired + HashesOf(dropped)
    ensures Except(f, toDrop).Keys == Hashes(kept)
  {
    forall h ensures h in Except(f, toDrop) <==> h in Hashes(kept) {
      assert h in toDrop <==> h in expired || h in Hashes(dropped);
      assert h in FreshPart(ttl, f, now) <==> h in Hashes(dropped) || h in Hashes(kept);
    }
  }

  lemma OlderThan(dropped: seq<Entry>, kept: seq<Entry>, live: Fields, h: Hash, x: Hash)
    requires Lists(dropped + kept, live) && Sorted(dropped + kept)
    requires h in Hashes(dropped) && x in Hashes(kept)
    ensures h in live && x in live && live[h] <= live[x]
  {
    var i :| 0 <= i < |dropped| && dropped[i].hash == h;
    var j :| 0 <= j < |kept| && kept[j].hash == x;
    var s := dropped + kept;
    assert s[i] in s && s[|dropped| + j] in s;
    assert s[i] == dropped[i] && s[|dropped| + j] == kept[j];
  }
}
