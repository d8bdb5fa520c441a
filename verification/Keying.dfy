/** Routing keys (src/kvgate/routing/keying.py): a request becomes a chain of
    cumulative block hashes.  SHA-256 is a parameter `h`; `IdealHash` is what the
    theorems assume of it. */
module Keying {

  type Unit = string
  type Block = seq<Unit>
  type Digest = string

  const BLOCK_SEP: char := '\U{1E}'
  const CHAIN_SEP: char := '\U{1F}'
  const IMG_PREFIX := "\U{0}IMG:"
  const ROLE_PREFIX := "\U{2}role:"

  datatype Role = System | User | Assistant | Tool

  /** A message after flattening: its text and its image references, in order. */
  datatype Message = Message(role: Role, text: string, images: seq<string>)

  datatype ImageKey = BytesSha256 | Url

  datatype RoutingKey = RoutingKey(blockHashes: seq<Digest>, numUnits: nat, numImages: nat)

  // ----- assumptions on the hash -----

  predicate Clean(s: string) {
    BLOCK_SEP !in s && CHAIN_SEP !in s
  }

  predicate CleanBlock(b: Block) {
    b != [] && forall u | u in b :: Clean(u)
  }

  ghost predicate IdealHash(h: string -> Digest) {
    && (forall x, y :: h(x) == h(y) ==> x == y)
    && (forall x :: Clean(h(x)))
  }

  // ----- units -----

  function RoleName(r: Role): string {
    match r
    case System => "system"
    case User => "user"
    case Assistant => "assistant"
    case Tool => "tool"
  }

  /** The characters `str.split()` splits on. */
  predicate IsSpace(c: char) {
    || '\t' <= c <= '\r'
    || '\U{1C}' <= c <= ' '
    || c in {'\U{85}', '\U{A0}', '\U{1680}', '\U{2028}', '\U{2029}', '\U{202F}', '\U{205F}', '\U{3000}'}
    || '\U{2000}' <= c <= '\U{200A}'
  }

  /** `text.split()`, with the token read so far in `word`. */
  function Tokens(word: string, text: string): (tokens: seq<Unit>)
    requires forall c | c in word :: !IsSpace(c)
    ensures forall t | t in tokens :: t != "" && forall c | c in t :: !IsSpace(c)
    decreases |text|
  {
    if text == "" then
      if word == "" then [] else [word]
    else if IsSpace(text[0]) then
      (if word == "" then [] else [word]) + Tokens("", text[1..])
    else
      Tokens(word + [text[0]], text[1..])
  }

  function IndexOf(s: string, c: char): (i: nat)
    ensures i <= |s| && c !in s[..i] && (i < |s| ==> s[i] == c)
  {
    if s == "" || s[0] == c then 0 else 1 + IndexOf(s[1..], c)
  }

  function ImagePayload(ref: string, mode: ImageKey): string {
    if mode.BytesSha256? && "data:" <= ref && ',' in ref then ref[IndexOf(ref, ',') + 1..] else ref
  }

  function ImageMarker(h: string -> Digest, ref: string, mode: ImageKey): Unit {
    var digest := h(ImagePayload(ref, mode));
    IMG_PREFIX + (if |digest| <= 16 then digest else digest[..16])
  }

  function ImageMarkers(h: string -> Digest, refs: seq<string>, mode: ImageKey): seq<Unit> {
    if refs == [] then [] else [ImageMarker(h, refs[0], mode)] + ImageMarkers(h, refs[1..], mode)
  }

  function MessageUnits(h: string -> Digest, m: Message, mode: ImageKey): seq<Unit> {
    [ROLE_PREFIX + RoleName(m.role)] + Tokens("", m.text) + ImageMarkers(h, m.images, mode)
  }

  function Units(h: string -> Digest, messages: seq<Message>, mode: ImageKey): seq<Unit> {
    if messages == [] then []
    else MessageUnits(h, messages[0], mode) + Units(h, messages[1..], mode)
  }

  function ImageCount(messages: seq<Message>): nat {
    if messages == [] then 0 else |messages[0].images| + ImageCount(messages[1..])
  }

  // ----- blocks and the chain -----

  function Step(blockSize: int): (step: nat)
    ensures step >= 1 && (blockSize >= 1 ==> step == blockSize)
  {
    if blockSize < 1 then 1 else blockSize
  }

  /** Cut into blocks of `step` units; the last block may be shorter. */
  function Blocks(units: seq<Unit>, step: nat): seq<Block>
    requires step >= 1
  {
    if units == [] then []
    else if |units| <= step then [units]
    else [units[..step]] + Blocks(units[step..], step)
  }

  /** ⌊n / step⌋ */
  function Whole(n: nat, step: nat): (m: nat)
    requires step >= 1
    ensures m * step <= n < (m + 1) * step
  {
    n / step
  }

  function Join(b: Block): string {
    if b == [] then "" else if |b| == 1 then b[0] else b[0] + [BLOCK_SEP] + Join(b[1..])
  }

  function Link(h: string -> Digest, prev: Digest, b: Block): Digest {
    h(prev + [CHAIN_SEP] + Join(b))
  }

  function Chain(h: string -> Digest, prev: Digest, blocks: seq<Block>): (chain: seq<Digest>)
    ensures |chain| == |blocks|
    decreases |blocks|
  {
    if blocks == [] then []
    else [Link(h, prev, blocks[0])] + Chain(h, Link(h, prev, blocks[0]), blocks[1..])
  }

  function ChainOfUnits(h: string -> Digest, seed: string, units: seq<Unit>, step: nat): seq<Digest>
    requires step >= 1
  {
    Chain(h, h(seed), Blocks(units, step))
  }

  /** The first loop of `build_routing_key`: the unit list and the image count. */
  method CollectUnits(h: string -> Digest, messages: seq<Message>, mode: ImageKey)
    returns (units: seq<Unit>, numImages: nat)
    ensures units == Units(h, messages, mode) && numImages == ImageCount(messages)
  {
    units, numImages := [], 0;
    for k := 0 to |messages|
      invariant units + Units(h, messages[k..], mode) == Units(h, messages, mode)
      invariant numImages + ImageCount(messages[k..]) == ImageCount(messages)
    {
      var m := messages[k];
      NextMessage(h, messages, k, mode);
      ghost var before := units;
      units := units + [ROLE_PREFIX + RoleName(m.role)];
      units := units + Tokens("", m.text);
      var markers := CollectMarkers(h, m.images, mode);
      AppendThree(before, [ROLE_PREFIX + RoleName(m.role)], Tokens("", m.text), markers,
                  Units(h, messages[k + 1..], mode));
      units, numImages := units + markers, numImages + |m.images|;
    }
    assert messages[|messages|..] == [];
  }

  lemma NextMessage(h: string -> Digest, messages: seq<Message>, k: nat, mode: ImageKey)
    requires k < |messages|
    ensures Units(h, messages[k..], mode) == MessageUnits(h, messages[k], mode) + Units(h, messages[k + 1..], mode)
    ensures ImageCount(messages[k..]) == |messages[k].images| + ImageCount(messages[k + 1..])
  {
    assert messages[k..][1..] == messages[k + 1..];
  }

  lemma AppendThree<T>(a: seq<T>, x: seq<T>, y: seq<T>, z: seq<T>, rest: seq<T>)
    ensures a + x + y + z + rest == a + (x + y + z + rest)
  {
  }

  method CollectMarkers(h: string -> Digest, refs: seq<string>, mode: ImageKey) returns (markers: seq<Unit>)
    ensures markers == ImageMarkers(h, refs, mode)
  {
    markers := [];
    for j := 0 to |refs|
      invariant markers + ImageMarkers(h, refs[j..], mode) == ImageMarkers(h, refs, mode)
    {
      assert refs[j..][1..] == refs[j + 1..];
      markers := markers + [ImageMarker(h, refs[j], mode)];
    }
  }

  /** The second loop: `prev` is the hash of the block before. */
  method LinkBlocks(h: string -> Digest, units: seq<Unit>, step: nat, seed: string) returns (blockHashes: seq<Digest>)
    requires step >= 1
    ensures blockHashes == ChainOfUnits(h, seed, units, step)
  {
    hide Rest, ChainOfUnits;
    blockHashes := [];
    var prev := h(seed);
    var i := 0;
    FirstLink(h, seed, units, step);
    while i < |units|
      invariant 0 <= i
      invariant blockHashes + Rest(h, prev, units, i, step) == ChainOfUnits(h, seed, units, step)
    {
      var block := units[i..Clip(units, i + step)];
      NextLink(h, prev, units, i, step);
      prev := Link(h, prev, block);
      blockHashes := blockHashes + [prev];
      i := i + step;
    }
    NoMoreLinks(h, prev, units, i, step);
  }

  /** The links the second loop still has to make at position `i`. */
  function Rest(h: string -> Digest, prev: Digest, units: seq<Unit>, i: nat, step: nat): seq<Digest>
    requires step >= 1
  {
    Chain(h, prev, Blocks(From(units, i), step))
  }

  function Clip(units: seq<Unit>, i: nat): nat {
    if i <= |units| then i else |units|
  }

  lemma FirstLink(h: string -> Digest, seed: string, units: seq<Unit>, step: nat)
    requires step >= 1
    ensures Rest(h, h(seed), units, 0, step) == ChainOfUnits(h, seed, units, step)
  {
    assert From(units, 0) == units;
  }

  /** `build_routing_key`. */
  method BuildRoutingKey(h: string -> Digest, messages: seq<Message>, blockSize: int, mode: ImageKey, seed: string)
    returns (key: RoutingKey)
    ensures key.blockHashes == ChainOfUnits(h, seed, Units(h, messages, mode), Step(blockSize))
    ensures key.numUnits == |Units(h, messages, mode)|
    ensures key.numImages == ImageCount(messages)
  {
    var units, numImages := CollectUnits(h, messages, mode);
    var blockHashes := LinkBlocks(h, units, Step(blockSize), seed);
    key := RoutingKey(blockHashes, |units|, numImages);
  }

  lemma NoMoreLinks(h: string -> Digest, prev: Digest, units: seq<Unit>, i: nat, step: nat)
    requires step >= 1 && i >= |units|
    ensures Rest(h, prev, units, i, step) == []
  {
    assert From(units, i) == [];
  }

  function From(units: seq<Unit>, i: nat): seq<Unit> {
    if i <= |units| then units[i..] else []
  }

  lemma NextLink(h: string -> Digest, prev: Digest, units: seq<Unit>, i: nat, step: nat)
    requires i < |units| && step >= 1
    ensures var d := Link(h, prev, units[i..Clip(units, i + step)]);
            Rest(h, prev, units, i, step) == [d] + Rest(h, d, units, i + step, step)
  {
    NextBlock(units, i, step);
  }

  lemma NextBlock(units: seq<Unit>, i: nat, step: nat)
    requires i < |units| && step >= 1
    ensures Blocks(From(units, i), step) == [units[i..Clip(units, i + step)]] + Blocks(From(units, i + step), step)
  {
    var rest := units[i..];
    if |rest| > step {
      assert rest[step..] == units[i + step..] && rest[..step] == units[i..i + step];
    } else {
      assert From(units, i + step) == [];
      assert rest == units[i..Clip(units, i + step)];
    }
  }

  // ----- exactness -----

  lemma {:induction false} FirstSeparator(c: char, a: string, x: string)
    requires c !in a
    ensures IndexOf(a + [c] + x, c) == |a|
  {
    if a == "" {
    } else {
      assert (a + [c] + x)[1..] == a[1..] + [c] + x;
      FirstSeparator(c, a[1..], x);
    }
  }

  /** Two strings split at their first separator split alike. */
  lemma SplitAtSeparator(c: char, a: string, x: string, b: string, y: string)
    requires c !in a && c !in b && a + [c] + x == b + [c] + y
    ensures a == b && x == y
  {
    FirstSeparator(c, a, x);
    FirstSeparator(c, b, y);
    assert a == (a + [c] + x)[..|a|] && b == (b + [c] + y)[..|a|];
    assert x == (a + [c] + x)[|a| + 1..] && y == (b + [c] + y)[|a| + 1..];
  }

  lemma JoinHead(b: Block)
    requires CleanBlock(b)
    ensures IndexOf(Join(b), BLOCK_SEP) == |b[0]| <= |Join(b)|
    ensures |b| == 1 <==> |Join(b)| == |b[0]|
  {
    assert b[0] in b;
    if |b| == 1 {
      assert Join(b) == b[0];
    } else {
      FirstSeparator(BLOCK_SEP, b[0], Join(b[1..]));
    }
  }

  lemma {:induction false} JoinInjective(b: Block, b': Block)
    requires CleanBlock(b) && CleanBlock(b') && Join(b) == Join(b')
    ensures b == b'
  {
    JoinHead(b);
    JoinHead(b');
    if |b| == 1 {
    } else {
      assert b[0] in b && b'[0] in b';
      SplitAtSeparator(BLOCK_SEP, b[0], Join(b[1..]), b'[0], Join(b'[1..]));
      assert forall u | u in b[1..] :: u in b;
      assert forall u | u in b'[1..] :: u in b';
      JoinInjective(b[1..], b'[1..]);
      assert b == [b[0]] + b[1..] && b' == [b'[0]] + b'[1..];
    }
  }

  lemma LinkInjective(h: string -> Digest, p: Digest, b: Block, p': Digest, b': Block)
    requires IdealHash(h) && Clean(p) && Clean(p') && CleanBlock(b) && CleanBlock(b')
    requires Link(h, p, b) == Link(h, p', b')
    ensures p == p' && b == b'
  {
    SplitAtSeparator(CHAIN_SEP, p, Join(b), p', Join(b'));
    JoinInjective(b, b');
  }

  /** Index i of the chain, read off from the front: it links block i to index i - 1. */
  function DigestAt(h: string -> Digest, start: Digest, blocks: seq<Block>, i: nat): Digest
    requires i < |blocks|
    decreases i
  {
    Link(h, if i == 0 then start else DigestAt(h, start, blocks, i - 1), blocks[i])
  }

  lemma {:induction false} ChainAt(h: string -> Digest, start: Digest, blocks: seq<Block>, i: nat)
    requires i < |blocks|
    ensures Chain(h, start, blocks)[i] == DigestAt(h, start, blocks, i)
    decreases i
  {
    if i == 0 {
    } else {
      var next := Link(h, start, blocks[0]);
      ChainAt(h, next, blocks[1..], i - 1);
      DigestAtTail(h, start, blocks, i);
    }
  }

  lemma {:induction false} DigestAtTail(h: string -> Digest, start: Digest, blocks: seq<Block>, i: nat)
    requires 0 < i < |blocks|
    ensures DigestAt(h, start, blocks, i) == DigestAt(h, Link(h, start, blocks[0]), blocks[1..], i - 1)
    decreases i
  {
    if i > 1 {
      DigestAtTail(h, start, blocks, i - 1);
    } else {
      assert DigestAt(h, start, blocks, 0) == Link(h, start, blocks[0]);
    }
  }

  ghost predicate CleanBlocks(blocks: seq<Block>) {
    forall b | b in blocks :: CleanBlock(b)
  }

  lemma LinkIsNotSeed(h: string -> Digest, seed: string, p: Digest, b: Block)
    requires IdealHash(h) && CHAIN_SEP !in seed
    ensures Link(h, p, b) != h(seed)
  {
    var s := p + [CHAIN_SEP] + Join(b);
    assert s[|p|] == CHAIN_SEP;
  }

  lemma DigestsAreClean(h: string -> Digest, seed: string, us: seq<Block>, i: nat)
    requires IdealHash(h) && i <= |us|
    ensures Clean(if i == 0 then h(seed) else DigestAt(h, h(seed), us, i - 1))
  {
  }

  lemma {:induction false} EqualDigests(h: string -> Digest, seed: string, us: seq<Block>, vs: seq<Block>, i: nat,
                                        j: nat)
    requires IdealHash(h) && CHAIN_SEP !in seed && CleanBlocks(us) && CleanBlocks(vs)
    requires i < |us| && j < |vs|
    requires DigestAt(h, h(seed), us, i) == DigestAt(h, h(seed), vs, j)
    ensures i == j && forall k :: 0 <= k <= i ==> us[k] == vs[k]
    decreases i
  {
    hide IdealHash, Link, CleanBlock;
    var p := if i == 0 then h(seed) else DigestAt(h, h(seed), us, i - 1);
    var q := if j == 0 then h(seed) else DigestAt(h, h(seed), vs, j - 1);
    DigestsAreClean(h, seed, us, i);
    DigestsAreClean(h, seed, vs, j);
    assert us[i] in us && vs[j] in vs;
    LinkInjective(h, p, us[i], q, vs[j]);
    if i == 0 {
      SeedIsFirst(h, seed, vs, j);
    } else if j == 0 {
      SeedIsFirst(h, seed, us, i);
    } else {
      EqualDigests(h, seed, us, vs, i - 1, j - 1);
    }
  }

  lemma SeedIsFirst(h: string -> Digest, seed: string, us: seq<Block>, i: nat)
    requires IdealHash(h) && CHAIN_SEP !in seed && i < |us|
    ensures i > 0 ==> DigestAt(h, h(seed), us, i - 1) != h(seed)
  {
    if i == 0 {
    } else {
      var p := if i == 1 then h(seed) else DigestAt(h, h(seed), us, i - 2);
      LinkIsNotSeed(h, seed, p, us[i - 1]);
    }
  }

  lemma {:induction false} EqualBlocks(h: string -> Digest, start: Digest, us: seq<Block>, vs: seq<Block>, i: nat)
    requires i < |us| && i < |vs| && forall k :: 0 <= k <= i ==> us[k] == vs[k]
    ensures DigestAt(h, start, us, i) == DigestAt(h, start, vs, i)
    decreases i
  {
    if i == 0 {
    } else {
      EqualBlocks(h, start, us, vs, i - 1);
    }
  }

  /** Two chains hold the same hash only at the same index, and exactly when
      everything up to that index agrees. */
  lemma ChainExact(h: string -> Digest, seed: string, us: seq<Block>, vs: seq<Block>, i: nat, j: nat)
    requires IdealHash(h) && CHAIN_SEP !in seed && CleanBlocks(us) && CleanBlocks(vs)
    requires i < |us| && j < |vs|
    ensures Chain(h, h(seed), us)[i] == Chain(h, h(seed), vs)[j] <==> i == j && us[..i + 1] == vs[..i + 1]
  {
    ChainAt(h, h(seed), us, i);
    ChainAt(h, h(seed), vs, j);
    if DigestAt(h, h(seed), us, i) == DigestAt(h, h(seed), vs, j) {
      EqualDigests(h, seed, us, vs, i, j);
    } else if i == j && us[..i + 1] == vs[..i + 1] {
      forall k | 0 <= k <= i ensures us[k] == vs[k] {
        assert us[k] == us[..i + 1][k] && vs[k] == vs[..i + 1][k];
      }
      EqualBlocks(h, h(seed), us, vs, i);
      assert false;
    }
  }

  lemma ChainHasNoRepeats(h: string -> Digest, seed: string, us: seq<Block>)
    requires IdealHash(h) && CHAIN_SEP !in seed && CleanBlocks(us)
    ensures var c := Chain(h, h(seed), us);
            forall i, j :: 0 <= i < j < |c| ==> c[i] != c[j]
  {
    var c := Chain(h, h(seed), us);
    forall i, j | 0 <= i < j < |c| ensures c[i] != c[j] {
      ChainExact(h, seed, us, us, i, j);
    }
  }

  /** Once two chains differ they differ for good. */
  lemma DivergenceIsPermanent(h: string -> Digest, seed: string, us: seq<Block>, vs: seq<Block>, k: nat)
    requires IdealHash(h) && CHAIN_SEP !in seed && CleanBlocks(us) && CleanBlocks(vs)
    requires k < |us| && k < |vs| && us[k] != vs[k]
    ensures forall i, j :: k <= i < |us| && 0 <= j < |vs| ==> Chain(h, h(seed), us)[i] != Chain(h, h(seed), vs)[j]
  {
    forall i, j | k <= i < |us| && 0 <= j < |vs|
      ensures Chain(h, h(seed), us)[i] != Chain(h, h(seed), vs)[j]
    {
      ChainExact(h, seed, us, vs, i, j);
      if i == j {
        assert us[..i + 1][k] == us[k] && vs[..i + 1][k] == vs[k];
      }
    }
  }

  // ----- from units to blocks -----

  lemma OneStepMore(i: nat, step: nat)
    ensures (i + 1) * step == i * step + step && i * step >= 0
  {
  }

  lemma {:induction false} BlockAt(units: seq<Unit>, step: nat, i: nat)
    requires step >= 1
    requires i * step < |units|
    ensures i < |Blocks(units, step)|
    ensures Blocks(units, step)[i] == units[i * step..Clip(units, (i + 1) * step)]
    decreases i
  {
    OneStepMore(i, step);
    if i == 0 {
    } else {
      OneStepMore(i - 1, step);
      NextBlockAt(units, step, i, (i - 1) * step);
    }
  }

  lemma {:induction false} NextBlockAt(units: seq<Unit>, step: nat, i: nat, lo: nat)
    requires step >= 1 && i > 0 && lo == (i - 1) * step && step + lo < |units|
    ensures i < |Blocks(units, step)|
    ensures Blocks(units, step)[i] == units[step + lo..Clip(units, step + lo + step)]
    decreases i, 0
  {
    var rest := units[step..];
    BlockAt(rest, step, i - 1);
    OneStepMore(i - 1, step);
    assert Blocks(units, step)[i] == Blocks(rest, step)[i - 1];
    SliceOfRest(units, step, lo);
  }

  lemma SliceOfRest(units: seq<Unit>, step: nat, lo: nat)
    requires step + lo < |units|
    ensures units[step..][lo..Clip(units[step..], lo + step)] == units[step + lo..Clip(units, step + lo + step)]
  {
  }

  lemma {:induction false} BlockCount(units: seq<Unit>, step: nat)
    requires step >= 1
    ensures |units| <= |Blocks(units, step)| * step < |units| + step
    decreases |units|
  {
    if |units| <= step {
    } else {
      BlockCount(units[step..], step);
    }
  }

  lemma {:induction false} BlocksAreClean(units: seq<Unit>, step: nat)
    requires step >= 1 && forall u | u in units :: Clean(u)
    ensures CleanBlocks(Blocks(units, step))
    decreases |units|
  {
    if |units| <= step {
    } else {
      BlocksAreClean(units[step..], step);
    }
  }

  lemma SameSlice(us: seq<Unit>, vs: seq<Unit>, n: nat, lo: nat, hi: nat)
    requires lo <= hi <= n && n <= |us| && n <= |vs| && us[..n] == vs[..n]
    ensures us[lo..hi] == vs[lo..hi]
  {
    assert us[lo..hi] == us[..n][lo..hi] && vs[lo..hi] == vs[..n][lo..hi];
  }

  lemma SharedUnitsShareBlocks(us: seq<Unit>, vs: seq<Unit>, step: nat, n: nat, m: nat)
    requires step >= 1 && m * step <= n
    requires n <= |us| && n <= |vs| && us[..n] == vs[..n]
    ensures m <= |Blocks(us, step)| && m <= |Blocks(vs, step)|
    ensures Blocks(us, step)[..m] == Blocks(vs, step)[..m]
  {
    FullBlocks(us, step, m);
    FullBlocks(vs, step, m);
    forall i | 0 <= i < m ensures Blocks(us, step)[i] == Blocks(vs, step)[i] {
      BlockBound(i, m, step);
      OneStepMore(i, step);
      BlockAt(us, step, i);
      BlockAt(vs, step, i);
      SameSlice(us, vs, n, i * step, (i + 1) * step);
    }
  }

  lemma DifferentUnitsDifferInBlock(us: seq<Unit>, vs: seq<Unit>, step: nat, n: nat, m: nat)
    requires step >= 1 && m * step <= n < (m + 1) * step
    requires n < |us| && n < |vs| && us[n] != vs[n]
    ensures m < |Blocks(us, step)| && m < |Blocks(vs, step)| && Blocks(us, step)[m] != Blocks(vs, step)[m]
  {
    OneStepMore(m, step);
    BlockAt(us, step, m);
    BlockAt(vs, step, m);
    var lo := m * step;
    assert Blocks(us, step)[m] == us[lo..Clip(us, (m + 1) * step)] &&
      Blocks(vs, step)[m] == vs[lo..Clip(vs, (m + 1) * step)];
    assert Blocks(us, step)[m][n - lo] == us[n] && Blocks(vs, step)[m][n - lo] == vs[n];
  }

  lemma {:induction false} SharedBlocksShareHashes(h: string -> Digest, start: Digest,
                                                   b: seq<Block>, e: seq<Block>, m: nat)
    requires m <= |b| && m <= |e| && b[..m] == e[..m]
    ensures Chain(h, start, b)[..m] == Chain(h, start, e)[..m]
    decreases m
  {
    if m == 0 {
    } else {
      var next := Link(h, start, b[0]);
      assert b[0] == b[..m][0] == e[..m][0] == e[0];
      assert b[1..][..m - 1] == b[..m][1..] == e[..m][1..] == e[1..][..m - 1];
      SharedBlocksShareHashes(h, next, b[1..], e[1..], m - 1);
      FirstHashes(next, Chain(h, next, b[1..]), m);
      FirstHashes(next, Chain(h, next, e[1..]), m);
    }
  }

  lemma FirstHashes(first: Digest, rest: seq<Digest>, m: nat)
    requires 1 <= m <= |rest| + 1
    ensures ([first] + rest)[..m] == [first] + rest[..m - 1]
  {
  }

  /** Requests whose first `n` units agree share at least ⌊n / step⌋ leading hashes. */
  lemma SharedUnitsShareHashes(h: string -> Digest, start: Digest, us: seq<Unit>, vs: seq<Unit>, step: nat, n: nat)
    requires step >= 1
    requires n <= |us| && n <= |vs| && us[..n] == vs[..n]
    ensures var c, d := Chain(h, start, Blocks(us, step)), Chain(h, start, Blocks(vs, step));
            Whole(n, step) <= |c| && Whole(n, step) <= |d| && c[..Whole(n, step)] == d[..Whole(n, step)]
  {
    hide Whole;
    SharedWholeBlocks(h, start, us, vs, step, n, Whole(n, step));
  }

  lemma SharedWholeBlocks(h: string -> Digest, start: Digest, us: seq<Unit>, vs: seq<Unit>, step: nat, n: nat, m: nat)
    requires step >= 1 && m * step <= n
    requires n <= |us| && n <= |vs| && us[..n] == vs[..n]
    ensures var c, d := Chain(h, start, Blocks(us, step)), Chain(h, start, Blocks(vs, step));
            m <= |c| && m <= |d| && c[..m] == d[..m]
  {
    SharedUnitsShareBlocks(us, vs, step, n, m);
    SharedBlocksShareHashes(h, start, Blocks(us, step), Blocks(vs, step), m);
  }

  /** A difference at unit `n`, for instance another image marker, shows in every
      hash from block ⌊n / step⌋ on. */
  lemma DifferentUnitsDiverge(h: string -> Digest, seed: string, us: seq<Unit>, vs: seq<Unit>, step: nat, n: nat)
    requires step >= 1 && IdealHash(h) && CHAIN_SEP !in seed
    requires (forall u | u in us :: Clean(u)) && (forall v | v in vs :: Clean(v))
    requires n < |us| && n < |vs| && us[n] != vs[n]
    ensures var c, d := ChainOfUnits(h, seed, us, step), ChainOfUnits(h, seed, vs, step);
            forall i, j :: Whole(n, step) <= i < |c| && 0 <= j < |d| ==> c[i] != d[j]
  {
    hide Whole;
    BlocksAreClean(us, step);
    BlocksAreClean(vs, step);
    DifferentUnitsDifferInBlock(us, vs, step, n, Whole(n, step));
    DivergenceIsPermanent(h, seed, Blocks(us, step), Blocks(vs, step), Whole(n, step));
  }

  lemma BlockBound(i: nat, m: nat, step: nat)
    requires i < m
    ensures (i + 1) * step <= m * step
  {
  }

  lemma FullBlocks(units: seq<Unit>, step: nat, m: nat)
    requires step >= 1 && m * step <= |units|
    ensures m <= |Blocks(units, step)|
  {
    BlockCount(units, step);
    var k := |Blocks(units, step)|;
    if m >= k + 1 {
      BlockBound(k, m, step);
    }
  }

  // ----- every request satisfies the assumptions of the theorems -----

  lemma {:induction false} UnitsAreClean(h: string -> Digest, messages: seq<Message>, mode: ImageKey)
    requires IdealHash(h)
    ensures forall u | u in Units(h, messages, mode) :: Clean(u) && u != ""
  {
    if messages == [] {
    } else {
      var m := messages[0];
      MarkersAreClean(h, m.images, mode);
      UnitsAreClean(h, messages[1..], mode);
      forall t | t in Tokens("", m.text) ensures Clean(t) {
        assert IsSpace(BLOCK_SEP) && IsSpace(CHAIN_SEP);
      }
      assert Clean(ROLE_PREFIX + RoleName(m.role));
    }
  }

  lemma {:induction false} MarkersAreClean(h: string -> Digest, refs: seq<string>, mode: ImageKey)
    requires IdealHash(h)
    ensures forall u | u in ImageMarkers(h, refs, mode) :: Clean(u) && u != ""
  {
    if refs == [] {
    } else {
      MarkersAreClean(h, refs[1..], mode);
      var digest := h(ImagePayload(refs[0], mode));
      assert Clean(digest);
    }
  }

  /** So the blocks of every request meet what the theorems on chains assume. */
  lemma RequestBlocksAreClean(h: string -> Digest, messages: seq<Message>, mode: ImageKey, step: nat)
    requires IdealHash(h) && step >= 1
    ensures CleanBlocks(Blocks(Units(h, messages, mode), step))
  {
    UnitsAreClean(h, messages, mode);
    BlocksAreClean(Units(h, messages, mode), step);
  }

  /** In bytes mode a data URI is identified by what follows its first comma, whatever
      its header; anything else, and everything in url mode, by the whole reference. */
  lemma ImageIdentity(header: string, payload: string, ref: string)
    requires ',' !in header
    ensures ImagePayload("data:" + header + "," + payload, BytesSha256) == payload
    ensures !("data:" <= ref && ',' in ref) ==> ImagePayload(ref, BytesSha256) == ref
    ensures ImagePayload(ref, Url) == ref
  {
    var front := "data:" + header;
    var uri := front + [','] + payload;
    FirstSeparator(',', front, payload);
    assert "data:" + header + "," + payload == uri;
    assert uri[|front|] == ',' && "data:" <= uri;
    assert uri[|front| + 1..] == payload;
  }

  // ----- tokens -----

  function NonSpaces(text: string): string {
    if text == "" then "" else (if IsSpace(text[0]) then "" else [text[0]]) + NonSpaces(text[1..])
  }

  function Glue(tokens: seq<Unit>): string {
    if tokens == [] then "" else tokens[0] + Glue(tokens[1..])
  }

  /** Splitting loses nothing but the white space. */
  lemma {:induction false} TokensKeepText(word: string, text: string)
    requires forall c | c in word :: !IsSpace(c)
    ensures Glue(Tokens(word, text)) == word + NonSpaces(text)
    decreases |text|
  {
    if text != "" {
      if IsSpace(text[0]) {
        TokensKeepText("", text[1..]);
        var rest := Tokens("", text[1..]);
        assert word != "" ==> ([word] + rest)[1..] == rest;
        assert [] + rest == rest;
      } else {
        TokensKeepText(word + [text[0]], text[1..]);
      }
    } else if word != "" {
      assert [word][1..] == [];
    }
  }

  function Spaced(tokens: seq<Unit>): string {
    if tokens == [] then "" else tokens[0] + " " + Spaced(tokens[1..])
  }

  /** And it separates exactly what white space separates. */
  lemma {:induction false} SplitInvertsSpacing(tokens: seq<Unit>)
    requires forall t | t in tokens :: t != "" && forall c | c in t :: !IsSpace(c)
    ensures Tokens("", Spaced(tokens)) == tokens
  {
    if tokens == [] {
    } else {
      var t, rest := tokens[0], Spaced(tokens[1..]);
      assert t in tokens;
      ReadWord("", t, " " + rest);
      assert (" " + rest)[1..] == rest && IsSpace((" " + rest)[0]);
      assert t + " " + rest == t + (" " + rest);
      assert forall u :: u in tokens[1..] ==> u in tokens;
      SplitInvertsSpacing(tokens[1..]);
      assert "" + t == t;
    }
  }

  lemma {:induction false} ReadWord(word: string, t: string, rest: string)
    requires (forall c | c in word :: !IsSpace(c)) && forall c | c in t :: !IsSpace(c)
    ensures forall c | c in word + t :: !IsSpace(c)
    ensures Tokens(word, t + rest) == Tokens(word + t, rest)
    decreases |t|
  {
    if t == "" {
      assert t + rest == rest && word + t == word;
    } else {
      assert (t + rest)[1..] == t[1..] + rest && t[0] in t;
      ReadWord(word + [t[0]], t[1..], rest);
      assert word + [t[0]] + t[1..] == word + t;
    }
  }

  // ----- the assumption on the hash can be met -----

  function EscapeChar(c: char): string {
    if c == BLOCK_SEP then "ab" else if c == CHAIN_SEP then "ac" else if c == 'a' then "aa" else [c]
  }

  function Escape(s: string): string {
    if s == "" then "" else EscapeChar(s[0]) + Escape(s[1..])
  }

  lemma EscapeCharIsPrefixFree(c: char, x: string, d: char, y: string)
    requires EscapeChar(c) + x == EscapeChar(d) + y
    ensures c == d && x == y
  {
    var s, t := EscapeChar(c) + x, EscapeChar(d) + y;
    assert s[0] == t[0];
    if s[0] == 'a' {
      assert s[1] == t[1];
    }
    assert x == s[|EscapeChar(c)|..] && y == t[|EscapeChar(d)|..];
  }

  lemma {:induction false} EscapeInjective(x: string, y: string)
    requires Escape(x) == Escape(y)
    ensures x == y
  {
    if x == "" || y == "" {
    } else {
      EscapeCharIsPrefixFree(x[0], Escape(x[1..]), y[0], Escape(y[1..]));
      EscapeInjective(x[1..], y[1..]);
      assert x == [x[0]] + x[1..] && y == [y[0]] + y[1..];
    }
  }

  lemma {:induction false} EscapeClean(x: string)
    ensures Clean(Escape(x))
  {
    if x == "" {
    } else {
      EscapeClean(x[1..]);
    }
  }

  const DEFAULT_SEED := "kvgate"

  lemma DefaultSeedIsClean()
    ensures CHAIN_SEP !in DEFAULT_SEED
  {
  }

  lemma IdealHashExists() returns (h: string -> Digest)
    ensures IdealHash(h)
  {
    h := Escape;
    forall x, y | h(x) == h(y) ensures x == y { EscapeInjective(x, y); }
    forall x ensures Clean(h(x)) { EscapeClean(x); }
  }
}
