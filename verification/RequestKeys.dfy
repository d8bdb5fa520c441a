/** What of a request its routing key shows: every role, every token and every image has
    its own unit, so a difference in any of them parts two chains for good
    (src/kvgate/routing/keying.py). */
module RequestKeys {
  import opened Keying

  function TokenCount(messages: seq<Message>): nat {
    if messages == [] then 0 else |Tokens("", messages[0].text)| + TokenCount(messages[1..])
  }

  /** The number of units before message `k`: its role, its tokens and its images. */
  function UnitsBefore(messages: seq<Message>, k: nat): nat
    requires k <= |messages|
  {
    if k == 0 then 0
    else 1 + |Tokens("", messages[0].text)| + |messages[0].images| + UnitsBefore(messages[1..], k - 1)
  }

  // ----- where everything is -----

  lemma {:induction false} MarkerAt(h: string -> Digest, refs: seq<string>, mode: ImageKey, i: nat)
    requires i < |refs|
    ensures |ImageMarkers(h, refs, mode)| == |refs|
    ensures ImageMarkers(h, refs, mode)[i] == ImageMarker(h, refs[i], mode)
  {
    MarkerCount(h, refs, mode);
    if i == 0 {
    } else {
      MarkerAt(h, refs[1..], mode, i - 1);
    }
  }

  lemma {:induction false} MarkerCount(h: string -> Digest, refs: seq<string>, mode: ImageKey)
    ensures |ImageMarkers(h, refs, mode)| == |refs|
  {
    if refs == [] {
    } else {
      MarkerCount(h, refs[1..], mode);
    }
  }

  /** `num_units` counts messages, tokens and images. */
  lemma {:induction false} UnitCount(h: string -> Digest, messages: seq<Message>, mode: ImageKey)
    ensures |Units(h, messages, mode)| == |messages| + TokenCount(messages) + ImageCount(messages)
    ensures |Units(h, messages, mode)| == UnitsBefore(messages, |messages|)
  {
    if messages == [] {
    } else {
      MarkerCount(h, messages[0].images, mode);
      UnitCount(h, messages[1..], mode);
    }
  }

  /** The units of message `k` are its role, its tokens and its image markers, in order. */
  ghost predicate ShowsMessage(h: string -> Digest, units: seq<Unit>, n: nat, m: Message, mode: ImageKey) {
    var tokens := Tokens("", m.text);
    && n + 1 + |tokens| + |m.images| <= |units|
    && units[n] == ROLE_PREFIX + RoleName(m.role)
    && (forall t :: 0 <= t < |tokens| ==> units[n + 1 + t] == tokens[t])
    && (forall i :: 0 <= i < |m.images| ==> units[n + 1 + |tokens| + i] == ImageMarker(h, m.images[i], mode))
  }

  lemma FirstMessageShows(h: string -> Digest, messages: seq<Message>, mode: ImageKey)
    requires messages != []
    ensures ShowsMessage(h, Units(h, messages, mode), 0, messages[0], mode)
  {
    var m := messages[0];
    MarkerCount(h, m.images, mode);
    forall i | 0 <= i < |m.images| ensures ImageMarkers(h, m.images, mode)[i] == ImageMarker(h, m.images[i], mode) {
      MarkerAt(h, m.images, mode, i);
    }
  }

  lemma {:induction false} EveryMessageShows(h: string -> Digest, messages: seq<Message>, mode: ImageKey, k: nat)
    requires k < |messages|
    ensures ShowsMessage(h, Units(h, messages, mode), UnitsBefore(messages, k), messages[k], mode)
    decreases k
  {
    if k == 0 {
      FirstMessageShows(h, messages, mode);
    } else {
      EveryMessageShows(h, messages[1..], mode, k - 1);
      MessageUnitCount(h, messages[0], mode);
      hide ShowsMessage, MessageUnits, Tokens, ImageMarkers;
      ShowsLater(h, MessageUnits(h, messages[0], mode), Units(h, messages[1..], mode),
                 UnitsBefore(messages[1..], k - 1), messages[k], mode);
    }
  }

  lemma MessageUnitCount(h: string -> Digest, m: Message, mode: ImageKey)
    ensures |MessageUnits(h, m, mode)| == 1 + |Tokens("", m.text)| + |m.images|
  {
    MarkerCount(h, m.images, mode);
  }

  lemma ShowsLater(h: string -> Digest, first: seq<Unit>, units: seq<Unit>, n: nat, m: Message, mode: ImageKey)
    requires ShowsMessage(h, units, n, m, mode)
    ensures ShowsMessage(h, first + units, |first| + n, m, mode)
  {
    hide Tokens;
    var all := first + units;
    assert forall i :: 0 <= i < |units| ==> all[|first| + i] == units[i];
  }

  lemma RoleUnit(h: string -> Digest, messages: seq<Message>, mode: ImageKey, k: nat)
    requires k < |messages|
    ensures var units, n := Units(h, messages, mode), UnitsBefore(messages, k);
      n < |units| && units[n] == ROLE_PREFIX + RoleName(messages[k].role)
  {
    hide Units, Tokens, UnitsBefore;
    EveryMessageShows(h, messages, mode, k);
  }

  lemma TokenUnit(h: string -> Digest, messages: seq<Message>, mode: ImageKey, k: nat, t: nat)
    requires k < |messages| && t < |Tokens("", messages[k].text)|
    ensures var units, n := Units(h, messages, mode), UnitsBefore(messages, k) + 1 + t;
      n < |units| && units[n] == Tokens("", messages[k].text)[t]
  {
    hide Units, Tokens, UnitsBefore;
    EveryMessageShows(h, messages, mode, k);
  }

  lemma ImageUnit(h: string -> Digest, messages: seq<Message>, mode: ImageKey, k: nat, i: nat)
    requires k < |messages| && i < |messages[k].images|
    ensures var units, n := Units(h, messages, mode), UnitsBefore(messages, k) + 1 + |Tokens("", messages[k].text)| + i;
      n < |units| && units[n] == ImageMarker(h, messages[k].images[i], mode)
  {
    hide Units, Tokens, UnitsBefore, ImageMarker;
    EveryMessageShows(h, messages, mode, k);
  }

  lemma {:induction false} SameUnitsBefore(a: seq<Message>, b: seq<Message>, k: nat)
    requires k <= |a| && k <= |b| && a[..k] == b[..k]
    ensures UnitsBefore(a, k) == UnitsBefore(b, k)
    decreases k
  {
    if k == 0 {
    } else {
      assert a[0] == a[..k][0] == b[..k][0] == b[0];
      assert a[1..][..k - 1] == a[..k][1..] == b[..k][1..] == b[1..][..k - 1];
      SameUnitsBefore(a[1..], b[1..], k - 1);
    }
  }

  // ----- requests that differ -----

  function RequestChain(h: string -> Digest, seed: string, messages: seq<Message>, blockSize: int, mode: ImageKey)
    : seq<Digest>
  {
    ChainOfUnits(h, seed, Units(h, messages, mode), Step(blockSize))
  }

  /** From the block of unit `n` on, no hash of `c` occurs anywhere in `d`. */
  ghost predicate PartsAt(c: seq<Digest>, d: seq<Digest>, step: nat, n: nat)
    requires step >= 1
  {
    forall i, j :: Whole(n, step) <= i < |c| && 0 <= j < |d| ==> c[i] != d[j]
  }

  lemma DifferentUnitParts(h: string -> Digest, seed: string, a: seq<Message>, b: seq<Message>, blockSize: int,
                           mode: ImageKey, n: nat)
    requires IdealHash(h) && CHAIN_SEP !in seed
    requires n < |Units(h, a, mode)| && n < |Units(h, b, mode)| && Units(h, a, mode)[n] != Units(h, b, mode)[n]
    ensures PartsAt(RequestChain(h, seed, a, blockSize, mode), RequestChain(h, seed, b, blockSize, mode),
                    Step(blockSize), n)
  {
    UnitsAreClean(h, a, mode);
    UnitsAreClean(h, b, mode);
    hide IdealHash, Units, Clean, Whole, ChainOfUnits;
    DifferentUnitsDiverge(h, seed, Units(h, a, mode), Units(h, b, mode), Step(blockSize), n);
  }

  /** Requests that agree before message `k` and have different tokens at position `t`
      of it share no hash from the block of that token on. */
  lemma DifferentTextParts(h: string -> Digest, seed: string, a: seq<Message>, b: seq<Message>, blockSize: int,
                           mode: ImageKey, k: nat, t: nat)
    requires IdealHash(h) && CHAIN_SEP !in seed
    requires k < |a| && k < |b| && a[..k] == b[..k]
    requires t < |Tokens("", a[k].text)| && t < |Tokens("", b[k].text)|
    requires Tokens("", a[k].text)[t] != Tokens("", b[k].text)[t]
    ensures PartsAt(RequestChain(h, seed, a, blockSize, mode), RequestChain(h, seed, b, blockSize, mode),
                    Step(blockSize), UnitsBefore(a, k) + 1 + t)
  {
    hide IdealHash, Units, Tokens, UnitsBefore, PartsAt, RequestChain;
    SameUnitsBefore(a, b, k);
    TokenUnit(h, a, mode, k, t);
    TokenUnit(h, b, mode, k, t);
    DifferentUnitParts(h, seed, a, b, blockSize, mode, UnitsBefore(a, k) + 1 + t);
  }

  /** The same for different roles of message `k`. */
  lemma DifferentRolesPart(h: string -> Digest, seed: string, a: seq<Message>, b: seq<Message>, blockSize: int,
                           mode: ImageKey, k: nat)
    requires IdealHash(h) && CHAIN_SEP !in seed
    requires k < |a| && k < |b| && a[..k] == b[..k] && a[k].role != b[k].role
    ensures PartsAt(RequestChain(h, seed, a, blockSize, mode), RequestChain(h, seed, b, blockSize, mode),
                    Step(blockSize), UnitsBefore(a, k))
  {
    RoleUnitsDiffer(a[k].role, b[k].role);
    hide IdealHash, Units, Tokens, UnitsBefore, PartsAt, RequestChain;
    SameUnitsBefore(a, b, k);
    RoleUnit(h, a, mode, k);
    RoleUnit(h, b, mode, k);
    DifferentUnitParts(h, seed, a, b, blockSize, mode, UnitsBefore(a, k));
  }

  lemma RoleUnitsDiffer(r: Role, s: Role)
    ensures ROLE_PREFIX + RoleName(r) == ROLE_PREFIX + RoleName(s) ==> r == s
  {
    assert (ROLE_PREFIX + RoleName(r))[|ROLE_PREFIX|..] == RoleName(r);
    assert (ROLE_PREFIX + RoleName(s))[|ROLE_PREFIX|..] == RoleName(s);
    assert RoleName(r)[0] == RoleName(s)[0] ==> r == s;
  }

  /** Image markers are equal exactly if the digests of the images agree in their first
      16 characters. */
  lemma MarkersShowDigests(h: string -> Digest, x: string, y: string, mode: ImageKey)
    requires |h(ImagePayload(x, mode))| >= 16 && |h(ImagePayload(y, mode))| >= 16
    ensures ImageMarker(h, x, mode) == ImageMarker(h, y, mode) <==>
      h(ImagePayload(x, mode))[..16] == h(ImagePayload(y, mode))[..16]
  {
    assert ImageMarker(h, x, mode)[|IMG_PREFIX|..] == h(ImagePayload(x, mode))[..16];
    assert ImageMarker(h, y, mode)[|IMG_PREFIX|..] == h(ImagePayload(y, mode))[..16];
  }

  /** Requests that agree before message `k` and in the number of its tokens, and whose
      image `i` there has another digest, share no hash from the block of its marker on. */
  lemma DifferentImagesPart(h: string -> Digest, seed: string, a: seq<Message>, b: seq<Message>, blockSize: int,
                            mode: ImageKey, k: nat, i: nat)
    requires IdealHash(h) && CHAIN_SEP !in seed
    requires k < |a| && k < |b| && a[..k] == b[..k]
    requires |Tokens("", a[k].text)| == |Tokens("", b[k].text)| && i < |a[k].images| && i < |b[k].images|
    requires var d, e := h(ImagePayload(a[k].images[i], mode)), h(ImagePayload(b[k].images[i], mode));
             |d| >= 16 && |e| >= 16 && d[..16] != e[..16]
    ensures PartsAt(RequestChain(h, seed, a, blockSize, mode), RequestChain(h, seed, b, blockSize, mode),
                    Step(blockSize), UnitsBefore(a, k) + 1 + |Tokens("", a[k].text)| + i)
  {
    MarkersShowDigests(h, a[k].images[i], b[k].images[i], mode);
    hide IdealHash, Units, Tokens, UnitsBefore, ImageMarker, ImagePayload, PartsAt, RequestChain;
    DifferentMarkersPart(h, seed, a, b, blockSize, mode, k, i);
  }

  lemma DifferentMarkersPart(h: string -> Digest, seed: string, a: seq<Message>, b: seq<Message>, blockSize: int,
                             mode: ImageKey, k: nat, i: nat)
    requires IdealHash(h) && CHAIN_SEP !in seed
    requires k < |a| && k < |b| && a[..k] == b[..k]
    requires |Tokens("", a[k].text)| == |Tokens("", b[k].text)| && i < |a[k].images| && i < |b[k].images|
    requires ImageMarker(h, a[k].images[i], mode) != ImageMarker(h, b[k].images[i], mode)
    ensures PartsAt(RequestChain(h, seed, a, blockSize, mode), RequestChain(h, seed, b, blockSize, mode),
                    Step(blockSize), UnitsBefore(a, k) + 1 + |Tokens("", a[k].text)| + i)
  {
    hide IdealHash, Units, Tokens, UnitsBefore, ImageMarker, PartsAt, RequestChain;
    SameUnitsBefore(a, b, k);
    ImageUnit(h, a, mode, k, i);
    ImageUnit(h, b, mode, k, i);
    DifferentUnitParts(h, seed, a, b, blockSize, mode, UnitsBefore(a, k) + 1 + |Tokens("", a[k].text)| + i);
  }
}
