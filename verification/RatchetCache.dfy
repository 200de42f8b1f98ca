/**
 The bounded cache of skipped message keys: its size at rest, and why eviction
 always removes the oldest entries although it drops whole chains.
 */
module RatchetCache {
  import opened Wrappers
  import opened Crypto
  import opened Ratchet

  /** The bounds of section 8 of docs/protocol.md. */
  predicate Bounded(cache: seq<Entry>) {
    |cache| <= MAX_SKIPPED_KEYS && |ChainsOf(cache)| <= MAX_SKIP_CHAINS
  }

  /** Entries of one chain lie next to each other. */
  ghost predicate Grouped(cache: seq<Entry>) {
    forall i, j, k | 0 <= i < j < k < |cache| ::
      cache[i].id.dh == cache[k].id.dh ==> cache[j].id.dh == cache[k].id.dh
  }

  // ----- what the cache operations do

  /** A lookup finds the key stored under the id, and fails only when there is none. */
  lemma {:induction false} LookupFinds(cache: seq<Entry>, id: Id)
    ensures Lookup(cache, id).None? <==> forall i | 0 <= i < |cache| :: cache[i].id != id
    ensures Lookup(cache, id).Some? ==> exists i :: 0 <= i < |cache| && cache[i] == Entry(id, Lookup(cache, id).value)
  {
    if cache != [] {
      var last := |cache| - 1;
      LookupFinds(cache[..last], id);
      if cache[last].id == id {
        assert cache[last] == Entry(id, Lookup(cache, id).value);
      } else if Lookup(cache[..last], id).Some? {
        var i :| 0 <= i < last && cache[..last][i] == Entry(id, Lookup(cache[..last], id).value);
        assert cache[i].id == id;
      }
    }
  }

  /** A new id goes to the end. */
  lemma {:induction false} PutAppends(cache: seq<Entry>, e: Entry)
    requires forall i | 0 <= i < |cache| :: cache[i].id != e.id
    ensures Put(cache, e) == cache + [e]
  {
    if cache != [] {
      PutAppends(cache[1..], e);
      assert cache == [cache[0]] + cache[1..];
    }
  }

  lemma {:induction false} RemoveKeepsOthers(cache: seq<Entry>, id: Id)
    ensures |Remove(cache, id)| <= |cache|
    ensures forall e | e in Remove(cache, id) :: e in cache
  {
    if cache != [] {
      RemoveKeepsOthers(cache[1..], id);
    }
  }

  lemma {:induction false} CutOnce(cache: seq<Entry>, i: nat)
    requires i < |cache|
    requires forall j, k | 0 <= j < k < |cache| :: cache[j].id != cache[k].id
    ensures Remove(cache, cache[i].id) == cache[..i] + cache[i + 1..]
  {
    if i == 0 {
      NothingToCut(cache[1..], cache[0].id);
    } else {
      CutOnce(cache[1..], i - 1);
      assert [cache[0]] + (cache[1..][..i - 1] + cache[1..][i..]) == cache[..i] + cache[i + 1..];
    }
  }

  lemma {:induction false} NothingToCut(cache: seq<Entry>, id: Id)
    requires forall j | 0 <= j < |cache| :: cache[j].id != id
    ensures Remove(cache, id) == cache
  {
    if cache != [] {
      NothingToCut(cache[1..], id);
    }
  }

  lemma {:induction false} PutReplaces(cache: seq<Entry>, at: nat, e: Entry)
    requires at < |cache| && cache[at].id == e.id
    requires forall i | 0 <= i < at :: cache[i].id != e.id
    ensures Put(cache, e) == cache[at := e]
  {
    if at > 0 {
      PutReplaces(cache[1..], at - 1, e);
      assert [cache[0]] + cache[1..][at - 1 := e] == cache[at := e];
    }
  }

  lemma {:induction false} WithoutKeepsOthers(cache: seq<Entry>, doomed: seq<PublicKey>)
    ensures |Without(cache, doomed)| <= |cache|
    ensures forall e | e in Without(cache, doomed) :: e in cache && e.id.dh !in doomed
  {
    if cache != [] {
      WithoutKeepsOthers(cache[1..], doomed);
    }
  }

  lemma {:induction false} ChainsOfLists(cache: seq<Entry>)
    ensures forall i | 0 <= i < |cache| :: cache[i].id.dh in ChainsOf(cache)
    ensures forall d | d in ChainsOf(cache) :: exists i :: 0 <= i < |cache| && cache[i].id.dh == d
    ensures forall i, j | 0 <= i < j < |ChainsOf(cache)| :: ChainsOf(cache)[i] != ChainsOf(cache)[j]
  {
    if cache != [] {
      var last := |cache| - 1;
      var before := ChainsOf(cache[..last]);
      ChainsOfLists(cache[..last]);
      forall d | d in ChainsOf(cache) ensures exists i :: 0 <= i < |cache| && cache[i].id.dh == d {
        if d in before {
          var i :| 0 <= i < last && cache[..last][i].id.dh == d;
          assert cache[i].id.dh == d;
        } else {
          assert cache[last].id.dh == d;
        }
      }
      forall i | 0 <= i < |cache| ensures cache[i].id.dh in ChainsOf(cache) {
        if i < last {
          assert cache[..last][i].id.dh in before;
        }
      }
    }
  }

  // ----- counting chains

  lemma {:induction false} DistinctFits<T>(a: seq<T>, b: seq<T>)
    requires forall i, j | 0 <= i < j < |a| :: a[i] != a[j]
    requires forall x | x in a :: x in b
    ensures |a| <= |b|
  {
    if a != [] {
      var last := |a| - 1;
      assert a[last] in a;
      var k :| 0 <= k < |b| && b[k] == a[last];
      var b' := b[..k] + b[k + 1..];
      forall x | x in a[..last] ensures x in b' {
        var i :| 0 <= i < last && a[i] == x;
        assert x in a;
        var m :| 0 <= m < |b| && b[m] == x;
        assert b'[if m < k then m else m - 1] == x;
      }
      DistinctFits(a[..last], b');
    }
  }

  lemma FewerChains(smaller: seq<Entry>, chains: seq<PublicKey>)
    requires forall e | e in smaller :: e.id.dh in chains
    ensures |ChainsOf(smaller)| <= |chains|
  {
    ChainsOfLists(smaller);
    DistinctFits(ChainsOf(smaller), chains);
  }

  /** Whatever the cache held, eviction brings it within both bounds, keeping only
      entries it had. */
  lemma EvictBounds(cache: seq<Entry>)
    ensures Bounded(Evict(cache).kept)
    ensures forall e | e in Evict(cache).kept :: e in cache
  {
    var rest := cache[Excess(|cache|, MAX_SKIPPED_KEYS)..];
    var chains := ChainsOf(rest);
    var x := Excess(|chains|, MAX_SKIP_CHAINS);
    ChainsOfLists(rest);
    WithoutKeepsOthers(rest, chains[..x]);
    forall e | e in Evict(cache).kept ensures e.id.dh in chains[x..] {
      assert e in rest;
      assert e.id.dh in chains && e.id.dh !in chains[..x];
    }
    FewerChains(Evict(cache).kept, chains[x..]);
  }

  /** Using a cached key leaves the cache within bounds. */
  lemma RemoveBounds(cache: seq<Entry>, id: Id)
    requires Bounded(cache)
    ensures Bounded(Remove(cache, id))
  {
    ChainsOfLists(cache);
    RemoveKeepsOthers(cache, id);
    FewerChains(Remove(cache, id), ChainsOf(cache));
  }

  lemma {:induction false} SkipLoopBounds(s: State, until: nat)
    requires s.receiving.Some? && s.theirs.Some? && Bounded(s.skipped)
    ensures Bounded(SkipLoop(s, until).state.skipped)
    decreases until - s.receiveCount
  {
    if s.receiveCount < until {
      var id := Id(Point(s.theirs.value), s.receiveCount);
      EvictBounds(Put(s.skipped, Entry(id, MessageKey(s.receiving.value))));
      SkipLoopBounds(SkipOne(s).state, until);
    }
  }

  lemma SkipBounds(s: State, until: nat)
    requires WellFormed(s) && Bounded(s.skipped)
    ensures Skip(s, until).Progress? ==> Bounded(Skip(s, until).state.skipped) && WellFormed(Skip(s, until).state)
  {
    if s.receiving.Some? {
      SkipLoopBounds(s, until);
    }
  }

  lemma AdvanceBounds(s: State, header: Header, next: nat)
    requires WellFormed(s) && Bounded(s.skipped)
    ensures var r := Advance(s, header, next); r.Progress? ==> Bounded(r.state.skipped) && WellFormed(r.state)
  {
    SkipBounds(s, header.previousLength);
    var turned := Turn(s, header, next);
    if turned.Progress? {
      assert Bounded(turned.state.skipped) && WellFormed(turned.state);
      SkipBounds(turned.state, header.number);
    }
  }

  /** Whatever arrives, a session at rest holds at most 2000 keys of at most 64
      chains. */
  lemma DecryptKeepsBounds(s: State, m: Message, next: nat)
    requires WellFormed(s) && Bounded(s.skipped)
    ensures var r := Decrypt(s, m, next); r.Accepted? ==> Bounded(r.state.skipped) && WellFormed(r.state)
  {
    RemoveBounds(s.skipped, Id(m.header.dh, m.header.number));
    AdvanceBounds(s, m.header, next);
  }

  // ----- why a message is refused

  /** A gap wider than 2000 on the chain that is open, the peer's old chain if the
      header's key is new. */
  predicate TooFar(s: State, header: Header) {
    var until := if s.theirs.Some? && header.dh == Point(s.theirs.value) then header.number else header.previousLength;
    s.receiving.Some? && until > s.receiveCount + 2000
  }

  /** Each refusal has its own cause, in this order: a key of the wrong length; a gap
      too wide, before or after a new key; a point the exchange will not take; no
      chain to read from; and a text that does not authenticate. */
  lemma RefusalsOfDecrypt(s: State, m: Message, next: nat)
    requires WellFormed(s)
    ensures var r, header := Decrypt(s, m, next), m.header;
      var turning := !(s.theirs.Some? && header.dh == Point(s.theirs.value));
      var ahead := !header.dh.WrongLength? && Lookup(s.skipped, Id(header.dh, header.number)).None?;
      && (r == Refused(MalformedKey) <==> header.dh.WrongLength?)
      && (r == Refused(TooManySkipped) <==>
          ahead && (TooFar(s, header) || (turning && header.dh.Point? && header.number > 2000)))
      && (r == Refused(RefusedKey) <==> ahead && !TooFar(s, header) && header.dh.SmallOrder?)
      && (r == Refused(NoReceivingChain) <==> ahead && !turning && s.receiving.None?)
      && r != Refused(NoSendingChain)
  {
    hide Evict, Put, Lookup, Remove, Open;
  }

  // ----- eviction drops a prefix

  lemma {:induction false} ChainsOfPrefix(cache: seq<Entry>, n: nat)
    requires n <= |cache|
    ensures ChainsOf(cache[..n]) <= ChainsOf(cache)
  {
    if n < |cache| {
      var last := |cache| - 1;
      assert cache[..last][..n] == cache[..n];
      ChainsOfPrefix(cache[..last], n);
    } else {
      assert cache[..n] == cache;
    }
  }

  /** In a grouped cache, everything older than an entry of the first `x` chains
      belongs to the first `x` chains too. */
  lemma OldestChainsComeFirst(cache: seq<Entry>, x: nat, i: nat, j: nat)
    requires Grouped(cache) && x <= |ChainsOf(cache)| && i < j < |cache|
    requires cache[j].id.dh in ChainsOf(cache)[..x]
    ensures cache[i].id.dh in ChainsOf(cache)[..x]
  {
    var chains := ChainsOf(cache);
    var seen := ChainsOf(cache[..i + 1]);
    ChainsOfPrefix(cache, i + 1);
    ChainsOfLists(cache[..i + 1]);
    var older := cache[..i + 1];
    assert older[i].id.dh in seen;
    var a :| 0 <= a < |seen| && seen[a] == cache[i].id.dh;
    var b :| 0 <= b < x && chains[b] == cache[j].id.dh;
    hide ChainsOf;
    if b < |seen| {
      assert seen[b] in seen;
      var p :| 0 <= p < |older| && older[p].id.dh == cache[j].id.dh;
      SameChainBetween(cache, p, i, j);
    } else {
      assert chains[..x][a] == cache[i].id.dh;
    }
  }

  lemma SameChainBetween(cache: seq<Entry>, p: nat, i: nat, j: nat)
    requires Grouped(cache) && p <= i < j < |cache| && cache[p].id.dh == cache[j].id.dh
    ensures cache[i].id.dh == cache[j].id.dh
  {
  }

  lemma {:induction false} WithoutPrefix(cache: seq<Entry>, doomed: seq<PublicKey>) returns (k: nat)
    requires forall i, j | 0 <= i < j < |cache| :: cache[j].id.dh in doomed ==> cache[i].id.dh in doomed
    ensures k <= |cache|
    ensures Without(cache, doomed) == cache[k..] && Only(cache, doomed) == cache[..k]
    ensures forall i | 0 <= i < k :: cache[i].id.dh in doomed
  {
    if cache == [] {
      k := 0;
    } else {
      var k' := WithoutPrefix(cache[1..], doomed);
      if cache[0].id.dh in doomed {
        k := k' + 1;
        assert cache[..k] == [cache[0]] + cache[1..][..k'];
      } else {
        k := 0;
      }
    }
  }

  lemma SuffixGrouped(cache: seq<Entry>, k: nat)
    requires Grouped(cache) && k <= |cache|
    ensures Grouped(cache[k..])
  {
    var rest := cache[k..];
    forall a, b, c | 0 <= a < b < c < |rest| && rest[a].id.dh == rest[c].id.dh
      ensures rest[b].id.dh == rest[c].id.dh
    {
      assert cache[k + a].id.dh == cache[k + c].id.dh;
      assert cache[k + b].id.dh == cache[k + c].id.dh;
    }
  }

  lemma DoomedChainsComeFirst(rest: seq<Entry>) returns (k: nat)
    requires Grouped(rest)
    ensures k <= |rest|
    ensures var chains := ChainsOf(rest);
      var doomed := chains[..Excess(|chains|, MAX_SKIP_CHAINS)];
      && Without(rest, doomed) == rest[k..] && Only(rest, doomed) == rest[..k]
      && forall i | 0 <= i < k :: rest[i].id.dh in doomed
  {
    var chains := ChainsOf(rest);
    var x := Excess(|chains|, MAX_SKIP_CHAINS);
    forall i, j | 0 <= i < j < |rest| && rest[j].id.dh in chains[..x]
      ensures rest[i].id.dh in chains[..x]
    {
      OldestChainsComeFirst(rest, x, i, j);
    }
    k := WithoutPrefix(rest, chains[..x]);
  }

  predicate DropsOldest(cache: seq<Entry>, e: Eviction) {
    var k := |e.dropped|;
    k <= |cache| && e.kept == cache[k..] && e.dropped == cache[..k]
  }

  lemma TwoDrops(cache: seq<Entry>, a: nat, b: nat, e: Eviction)
    requires a <= |cache| && b <= |cache[a..]|
    requires e == Eviction(cache[a..][b..], cache[..a] + cache[a..][..b])
    ensures DropsOldest(cache, e)
  {
    var d := cache[..a] + cache[a..][..b];
    assert |d| == a + b && forall i | 0 <= i < a + b :: d[i] == cache[i];
    assert d == cache[..a + b];
    assert cache[a..][b..] == cache[a + b..];
  }

  /** Dropping whole chains from a grouped cache is dropping its oldest entries. */
  lemma EvictDropsOldest(cache: seq<Entry>)
    requires Grouped(cache)
    ensures DropsOldest(cache, Evict(cache))
  {
    var over := Excess(|cache|, MAX_SKIPPED_KEYS);
    SuffixGrouped(cache, over);
    var k := DoomedChainsComeFirst(cache[over..]);
    TwoDrops(cache, over, k, Evict(cache));
  }

  // ----- and no more than it must

  lemma BoundedParts(a: seq<Entry>, b: seq<Entry>)
    requires Bounded(a + b)
    ensures Bounded(a) && Bounded(b)
  {
    ChainsOfLists(a + b);
    forall e | e in a || e in b ensures e.id.dh in ChainsOf(a + b) {
      assert e in a + b;
    }
    FewerChains(a, ChainsOf(a + b));
    FewerChains(b, ChainsOf(a + b));
  }

  /** A cache with an entry of one more chain than these has more chains. */
  lemma OneMoreChain(cache: seq<Entry>, chains: seq<PublicKey>, d: PublicKey)
    requires forall i, j | 0 <= i < j < |chains| :: chains[i] != chains[j]
    requires d !in chains && forall c | c in chains + [d] :: exists i :: 0 <= i < |cache| && cache[i].id.dh == c
    ensures |ChainsOf(cache)| > |chains|
  {
    ChainsOfLists(cache);
    forall c | c in chains + [d] ensures c in ChainsOf(cache) {
      var i :| 0 <= i < |cache| && cache[i].id.dh == c;
    }
    DistinctFits(chains + [d], ChainsOf(cache));
  }

  /** Of a list too long by its chains, whatever still has an entry of the oldest of
      them is too long as well. */
  lemma DoomedMustGo(rest: seq<Entry>, k: nat, j: nat)
    requires j < k <= |rest| && |ChainsOf(rest)| > MAX_SKIP_CHAINS
    requires forall i | 0 <= i < k :: rest[i].id.dh in ChainsOf(rest)[..|ChainsOf(rest)| - MAX_SKIP_CHAINS]
    ensures !Bounded(rest[j..])
  {
    var chains := ChainsOf(rest);
    var x := |chains| - MAX_SKIP_CHAINS;
    ChainsOfLists(rest);
    var newest := chains[x..];
    forall c | c in newest + [rest[j].id.dh] ensures exists i :: 0 <= i < |rest[j..]| && rest[j..][i].id.dh == c {
      if c == rest[j].id.dh {
        assert rest[j..][0].id.dh == c;
      } else {
        assert c in chains;
        var i :| 0 <= i < |rest| && rest[i].id.dh == c;
        assert i >= k;
        assert rest[j..][i - j].id.dh == c;
      }
    }
    OneMoreChain(rest[j..], newest, rest[j].id.dh);
  }

  /** Eviction drops as little as it can: with any dropped entry kept, the cache
      would pass one of its bounds. */
  lemma EvictDropsFewest(cache: seq<Entry>, k: nat)
    requires Grouped(cache) && k < |Evict(cache).dropped|
    ensures k <= |cache| && !Bounded(cache[k..])
  {
    var over := Excess(|cache|, MAX_SKIPPED_KEYS);
    SuffixGrouped(cache, over);
    var rest := cache[over..];
    var n := DoomedChainsComeFirst(rest);
    hide Without, Only, ChainsOf;
    assert Evict(cache).dropped == cache[..over] + rest[..n];
    if k >= over {
      DoomedMustGo(rest, n, k - over);
      assert rest[k - over..] == cache[k..];
    }
  }

  lemma {:induction false} OnlyDoomed(cache: seq<Entry>, doomed: seq<PublicKey>)
    ensures forall i | 0 <= i < |Only(cache, doomed)| :: Only(cache, doomed)[i].id.dh in doomed
    ensures doomed == [] ==> Only(cache, doomed) == [] && Without(cache, doomed) == cache
    ensures forall e | e in cache && e.id.dh !in doomed :: e in Without(cache, doomed)
  {
    if cache != [] {
      OnlyDoomed(cache[1..], doomed);
    }
  }

  /** What stays: of the 2000 newest keys, those of the 64 newest chains. */
  lemma EvictKeepsNewest(cache: seq<Entry>)
    ensures var rest := if |cache| <= 2000 then cache else cache[|cache| - 2000..];
      var chains := ChainsOf(rest);
      if |chains| <= 64 then Evict(cache) == Eviction(rest, cache[..|cache| - |rest|])
      else forall e :: e in Evict(cache).kept <==> e in rest && e.id.dh in chains[|chains| - 64..]
  {
    hide Without, Only, ChainsOf;
    var rest := if |cache| <= 2000 then cache else cache[|cache| - 2000..];
    var chains := ChainsOf(rest);
    assert Excess(|cache|, MAX_SKIPPED_KEYS) == |cache| - |rest| && rest == cache[|cache| - |rest|..];
    if |chains| <= 64 {
      OnlyDoomed(rest, []);
      assert chains[..0] == [] && cache[..|cache| - |rest|] + [] == cache[..|cache| - |rest|];
    } else {
      NewestChainsStay(rest, |chains| - 64);
    }
  }

  lemma NewestChainsStay(rest: seq<Entry>, x: nat)
    requires x <= |ChainsOf(rest)|
    ensures forall e :: e in Without(rest, ChainsOf(rest)[..x]) <==> e in rest && e.id.dh in ChainsOf(rest)[x..]
  {
    var chains := ChainsOf(rest);
    ChainsOfLists(rest);
    OnlyDoomed(rest, chains[..x]);
    WithoutKeepsOthers(rest, chains[..x]);
    hide Without, Only, ChainsOf;
    forall e | e in rest ensures e.id.dh in chains[x..] <==> e.id.dh !in chains[..x] {
      assert e.id.dh in chains;
    }
  }
}
