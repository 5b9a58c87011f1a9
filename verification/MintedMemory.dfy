/** The broker's bounded memory of minted event hashes: an insertion-ordered
    dictionary that forgets its oldest entries, against the full history. */
module MintedMemory {
  import opened Options

  const MINTED_MEMORY: nat := 8192

  datatype Key = Key(trial: string, sequence: int)

  datatype Entry = Entry(key: Key, hash: string)

  // ----- insertion-ordered dictionaries

  function Keys(s: seq<Entry>): set<Key> {
    if s == [] then {} else {s[0].key} + Keys(s[1..])
  }

  ghost predicate Distinct(s: seq<Entry>) {
    s == [] || (s[0].key !in Keys(s[1..]) && Distinct(s[1..]))
  }

  function Find(s: seq<Entry>, k: Key): (r: Option<string>)
    ensures r.Some? <==> k in Keys(s)
  {
    if s == [] then None
    else if s[0].key == k then Some(s[0].hash) else Find(s[1..], k)
  }

  function Without(s: seq<Entry>, k: Key): seq<Entry> {
    if s == [] then []
    else if s[0].key == k then Without(s[1..], k)
    else [s[0]] + Without(s[1..], k)
  }

  /** Assignment: a present key keeps its place. */
  function Put(s: seq<Entry>, e: Entry): seq<Entry> {
    if s == [] then [e]
    else if s[0].key == e.key then [e] + s[1..] else [s[0]] + Put(s[1..], e)
  }

  function MoveToEnd(s: seq<Entry>, k: Key): seq<Entry>
    requires k in Keys(s)
  {
    Without(s, k) + [Entry(k, Find(s, k).value)]
  }

  /** The newest `n` entries. */
  function Newest(s: seq<Entry>, n: nat): seq<Entry> {
    if |s| <= n then s else s[|s| - n..]
  }

  function Remember(s: seq<Entry>, e: Entry, n: nat): seq<Entry> {
    Newest(Without(s, e.key) + [e], n)
  }

  /** A different hash for a remembered key is the one thing refused. */
  predicate Accepts(s: seq<Entry>, e: Entry) {
    Find(s, e.key) == None || Find(s, e.key) == Some(e.hash)
  }

  class Minted {
    var entries: seq<Entry>

    constructor ()
      ensures entries == []
    {
      entries := [];
    }

    method DivergenceCheck(trial: string, sequence: int, hash: string) returns (ok: bool)
      requires Distinct(entries)
      modifies this
      ensures Distinct(entries)
      ensures ok == Accepts(old(entries), Entry(Key(trial, sequence), hash))
      ensures entries == if ok then Remember(old(entries), Entry(Key(trial, sequence), hash), MINTED_MEMORY)
                         else old(entries)
    {
      var key := Key(trial, sequence);
      var known := Find(entries, key);
      if known.Some? && known.value != hash {
        return false;
      }
      PutThenMove(entries, Entry(key, hash));
      entries := Put(entries, Entry(key, hash));
      entries := MoveToEnd(entries, key);
      ForgetOldest();
      return true;
    }

    method ForgetOldest()
      requires Distinct(entries)
      modifies this
      ensures Distinct(entries) && entries == Newest(old(entries), MINTED_MEMORY)
    {
      while |entries| > MINTED_MEMORY
        invariant |entries| <= |old(entries)| && entries == old(entries)[|old(entries)| - |entries|..]
        invariant |entries| >= MINTED_MEMORY || entries == old(entries)
      {
        entries := entries[1..];
      }
      NewestDistinct(old(entries), MINTED_MEMORY);
    }
  }

  lemma {:induction false} PutThenMove(s: seq<Entry>, e: Entry)
    requires Distinct(s)
    ensures e.key in Keys(Put(s, e))
    ensures MoveToEnd(Put(s, e), e.key) == Without(s, e.key) + [e]
    ensures Distinct(Without(s, e.key) + [e])
  {
    RememberDistinct(s, e);
    if s != [] {
      if s[0].key == e.key {
        assert ([e] + s[1..])[1..] == s[1..];
      } else {
        PutThenMove(s[1..], e);
        assert Put(s, e)[1..] == Put(s[1..], e);
        WithoutConcat([s[0]], Put(s[1..], e), e.key);
        assert MoveToEnd(Put(s, e), e.key) == [s[0]] + MoveToEnd(Put(s[1..], e), e.key);
      }
    }
  }

  lemma RememberDistinct(s: seq<Entry>, e: Entry)
    requires Distinct(s)
    ensures Distinct(Without(s, e.key) + [e])
  {
    WithoutKeys(s, e.key);
    assert [e][1..] == [];
    DistinctConcat(Without(s, e.key), [e]);
  }

  lemma NewestDistinct(s: seq<Entry>, n: nat)
    requires Distinct(s)
    ensures Distinct(Newest(s, n))
  {
    if |s| > n {
      assert s == s[..|s| - n] + s[|s| - n..];
      DistinctConcat(s[..|s| - n], s[|s| - n..]);
    }
  }

  lemma {:induction false} KeysConcat(a: seq<Entry>, b: seq<Entry>)
    ensures Keys(a + b) == Keys(a) + Keys(b)
  {
    if a == [] {
      assert a + b == b;
    } else {
      KeysConcat(a[1..], b);
      assert (a + b)[1..] == a[1..] + b;
    }
  }

  lemma {:induction false} DistinctConcat(a: seq<Entry>, b: seq<Entry>)
    ensures Distinct(a + b) <==> Distinct(a) && Distinct(b) && Keys(a) !! Keys(b)
  {
    if a == [] {
      assert a + b == b;
    } else {
      DistinctConcat(a[1..], b);
      KeysConcat(a[1..], b);
      assert (a + b)[1..] == a[1..] + b;
    }
  }

  lemma WithoutCons(x: Entry, s: seq<Entry>, k: Key)
    ensures Without([x] + s, k) == if x.key == k then Without(s, k) else [x] + Without(s, k)
  {
    assert ([x] + s)[1..] == s;
  }

  lemma {:induction false} WithoutConcat(a: seq<Entry>, b: seq<Entry>, k: Key)
    ensures Without(a + b, k) == Without(a, k) + Without(b, k)
  {
    if a == [] {
      assert a + b == b;
    } else {
      var rest := a[1..];
      WithoutConcat(rest, b, k);
      assert a + b == [a[0]] + (rest + b);
      WithoutCons(a[0], rest + b, k);
      Joined(a[0], Without(rest, k), Without(b, k));
    }
  }

  lemma Joined<T>(x: T, a: seq<T>, b: seq<T>)
    ensures [x] + (a + b) == ([x] + a) + b
  {
  }

  lemma {:induction false} WithoutKeys(s: seq<Entry>, k: Key)
    ensures Keys(Without(s, k)) == Keys(s) - {k}
    ensures k !in Keys(s) ==> Without(s, k) == s
    ensures Distinct(s) ==> Distinct(Without(s, k))
    ensures Distinct(s) ==> |Without(s, k)| == |s| - (if k in Keys(s) then 1 else 0)
  {
    if s != [] {
      WithoutKeys(s[1..], k);
      var rest := Without(s[1..], k);
      assert Without(s, k) == if s[0].key == k then rest else [s[0]] + rest;
      assert ([s[0]] + rest)[1..] == rest;
    }
  }

  lemma {:induction false} DistinctSize(s: seq<Entry>)
    requires Distinct(s)
    ensures |Keys(s)| == |s|
  {
    if s != [] {
      DistinctSize(s[1..]);
    }
  }

  lemma {:induction false} FindConcat(a: seq<Entry>, b: seq<Entry>, k: Key)
    ensures Find(a + b, k) == if k in Keys(a) then Find(a, k) else Find(b, k)
  {
    if a == [] {
      assert a + b == b;
    } else {
      FindConcat(a[1..], b, k);
      assert (a + b)[1..] == a[1..] + b;
    }
  }

  lemma {:induction false} KeyAt(s: seq<Entry>, i: nat)
    requires i < |s|
    ensures s[i].key in Keys(s)
  {
    if i > 0 {
      KeyAt(s[1..], i - 1);
    }
  }

  // ----- refinement of the full history

  /** The memory after the acceptances `h`, oldest first. */
  function Memory(h: seq<Entry>, n: nat): seq<Entry> {
    if h == [] then [] else Remember(Memory(h[..|h| - 1], n), h[|h| - 1], n)
  }

  /** Every acceptance in `h` passed the divergence check when it happened. */
  ghost predicate Legal(h: seq<Entry>, n: nat) {
    forall i | 0 <= i < |h| :: Accepts(Memory(h[..i], n), h[i])
  }

  /** A memory that forgets nothing: every key once, by last acceptance. */
  function Recent(h: seq<Entry>): (r: seq<Entry>)
    ensures Distinct(r)
  {
    if h == [] then []
    else
      var past := h[..|h| - 1];
      RememberDistinct(Recent(past), h[|h| - 1]);
      Without(Recent(past), h[|h| - 1].key) + [h[|h| - 1]]
  }

  /** Forgetting early or late makes no difference. */
  lemma {:induction false} MemoryIsNewest(h: seq<Entry>, n: nat)
    ensures Memory(h, n) == Newest(Recent(h), n)
    decreases |h|
  {
    if h != [] {
      var past := h[..|h| - 1];
      MemoryIsNewest(past, n);
      ForgetFirst(Recent(past), h[|h| - 1], n);
    }
  }

  lemma ForgetFirst(s: seq<Entry>, e: Entry, n: nat)
    requires Distinct(s)
    ensures Newest(Without(Newest(s, n), e.key) + [e], n) == Newest(Without(s, e.key) + [e], n)
  {
    if |s| > n {
      var a, t := s[..|s| - n], s[|s| - n..];
      assert s == a + t;
      assert Distinct(t) by { DistinctConcat(a, t); }
      var wa, wt := Without(a, e.key), Without(t, e.key);
      assert Without(s, e.key) == wa + wt by { WithoutConcat(a, t, e.key); }
      assert n <= |wt| + 1 by { WithoutKeys(t, e.key); }
      assert wa + wt + [e] == wa + (wt + [e]);
      NewestOfConcat(wa, wt + [e], n);
    }
  }

  lemma NewestOfConcat(a: seq<Entry>, b: seq<Entry>, n: nat)
    requires n <= |b|
    ensures Newest(a + b, n) == Newest(b, n)
  {
  }

  /** Behind a key in the recency order stand exactly the keys accepted since
      its last acceptance, index `i`. */
  lemma {:induction false} RecencyIsSince(h: seq<Entry>, i: nat) returns (older: seq<Entry>, newer: seq<Entry>)
    requires i < |h| && h[i].key !in Keys(h[i + 1..])
    ensures Recent(h) == older + [h[i]] + newer
    ensures Keys(newer) == Keys(h[i + 1..])
    decreases |h|
  {
    var past, e := h[..|h| - 1], h[|h| - 1];
    if i == |h| - 1 {
      older, newer := Without(Recent(past), e.key), [];
    } else {
      assert h[i + 1..] == past[i + 1..] + [e];
      KeysConcat(past[i + 1..], [e]);
      var o, w := RecencyIsSince(past, i);
      WithoutMiddle(o, h[i], w, e.key);
      older, newer := Without(o, e.key), Without(w, e.key) + [e];
      WithoutKeys(w, e.key);
      KeysConcat(Without(w, e.key), [e]);
      assert Recent(h) == older + [h[i]] + newer;
    }
  }

  lemma WithoutMiddle(a: seq<Entry>, x: Entry, b: seq<Entry>, k: Key)
    requires x.key != k
    ensures Without(a + [x] + b, k) == Without(a, k) + [x] + Without(b, k)
  {
    WithoutConcat(a + [x], b, k);
    WithoutConcat(a, [x], k);
    assert [x][1..] == [];
  }

  lemma {:induction false} RecentKeys(h: seq<Entry>)
    ensures Keys(Recent(h)) == Keys(h)
    decreases |h|
  {
    if h != [] {
      var past, e := h[..|h| - 1], h[|h| - 1];
      assert h == past + [e];
      RecentKeys(past);
      KeysConcat(past, [e]);
      WithoutKeys(Recent(past), e.key);
      KeysConcat(Without(Recent(past), e.key), [e]);
    }
  }

  /** The bounded memory never holds a key that was not accepted. */
  lemma OnlyAcceptedRemembered(h: seq<Entry>, n: nat)
    ensures |Memory(h, n)| <= n && Distinct(Memory(h, n))
    ensures Keys(Memory(h, n)) <= Keys(h)
  {
    MemoryIsNewest(h, n);
    RecentKeys(h);
    var r := Recent(h);
    NewestDistinct(r, n);
    if |r| > n {
      assert r == r[..|r| - n] + r[|r| - n..];
      KeysConcat(r[..|r| - n], r[|r| - n..]);
    }
  }

  /** A key last accepted at index `i` is remembered, under that acceptance's
      hash, exactly while fewer than `n` distinct keys have been accepted since. */
  lemma RemembersExactly(h: seq<Entry>, n: nat, i: nat)
    requires i < |h| && h[i].key !in Keys(h[i + 1..])
    ensures Find(Memory(h, n), h[i].key)
            == if |Keys(h[i + 1..])| < n then Some(h[i].hash) else None
  {
    MemoryIsNewest(h, n);
    var older, newer := RecencyIsSince(h, i);
    DistinctConcat(older + [h[i]], newer);
    DistinctSize(newer);
    FindInNewest(older, h[i], newer, n);
  }

  lemma FindInNewest(a: seq<Entry>, x: Entry, b: seq<Entry>, n: nat)
    requires Distinct(a + [x] + b)
    ensures Find(Newest(a + [x] + b, n), x.key) == if |b| < n then Some(x.hash) else None
  {
    MiddleAlone(a, x, b);
    if |b| < n {
      FindYoung(a, x, b, n);
    } else {
      FindAged(a + [x], x.key, b, n);
    }
  }

  lemma MiddleAlone(a: seq<Entry>, x: Entry, b: seq<Entry>)
    requires Distinct(a + [x] + b)
    ensures x.key !in Keys(a) && x.key !in Keys(b)
  {
    DistinctConcat(a + [x], b);
    DistinctConcat(a, [x]);
    KeysConcat(a, [x]);
    KeyAt([x], 0);
  }

  lemma FindAged(a: seq<Entry>, k: Key, b: seq<Entry>, n: nat)
    requires k !in Keys(b) && n <= |b|
    ensures Find(Newest(a + b, n), k) == None
  {
    NewestOfConcat(a, b, n);
    SuffixKeys(b, |b| - n);
    assert Newest(b, n) == b[|b| - n..];
  }

  lemma FindYoung(a: seq<Entry>, x: Entry, b: seq<Entry>, n: nat)
    requires x.key !in Keys(a) && |b| < n
    ensures Find(Newest(a + [x] + b, n), x.key) == Some(x.hash)
  {
    var size := |a| + 1 + |b|;
    var cut := if size <= n then 0 else size - n;
    var s := a + [x] + b;
    assert Newest(s, n) == s[cut..] && s[cut..] == a[cut..] + ([x] + b);
    SuffixKeys(a, cut);
    FindConcat(a[cut..], [x] + b, x.key);
    assert ([x] + b)[0] == x;
  }

  lemma SuffixKeys(s: seq<Entry>, i: nat)
    requires i <= |s|
    ensures Keys(s[i..]) <= Keys(s)
  {
    assert s == s[..i] + s[i..];
    KeysConcat(s[..i], s[i..]);
  }

  lemma {:induction false} LastAcceptance(h: seq<Entry>, i: nat) returns (p: nat)
    requires i < |h|
    ensures i <= p < |h| && h[p].key == h[i].key && h[i].key !in Keys(h[p + 1..])
    decreases |h|
  {
    p := |h| - 1;
    if h[p].key != h[i].key {
      var past := h[..p];
      p := LastAcceptance(past, i);
      assert h[p + 1..] == past[p + 1..] + [h[|h| - 1]];
      KeysConcat(past[p + 1..], [h[|h| - 1]]);
    }
  }

  /** What a history allows next: a key never accepted, one with at least `n` other
      keys accepted since its last acceptance, or the hash of that acceptance. */
  ghost predicate MayCommit(h: seq<Entry>, e: Entry, n: nat) {
    forall i: nat | i < |h| && h[i].key == e.key && e.key !in Keys(h[i + 1..]) ::
      |Keys(h[i + 1..])| >= n || h[i].hash == e.hash
  }

  lemma {:induction false} KeyIsAt(h: seq<Entry>, k: Key) returns (i: nat)
    requires k in Keys(h)
    ensures i < |h| && h[i].key == k
  {
    if h[0].key == k {
      i := 0;
    } else {
      i := KeyIsAt(h[1..], k);
      i := i + 1;
    }
  }

  /** Exactly that is accepted, of any history: nothing more and nothing less. */
  lemma AcceptsExactly(h: seq<Entry>, e: Entry, n: nat)
    ensures Accepts(Memory(h, n), e) <==> MayCommit(h, e, n)
  {
    if e.key in Keys(h) {
      var j := KeyIsAt(h, e.key);
      var last := LastAcceptance(h, j);
      AcceptsKnown(h, e, n, last);
    } else {
      AcceptsNew(h, e, n);
    }
  }

  lemma AcceptsNew(h: seq<Entry>, e: Entry, n: nat)
    requires e.key !in Keys(h)
    ensures Accepts(Memory(h, n), e) && MayCommit(h, e, n)
  {
    OnlyAcceptedRemembered(h, n);
    forall i: nat | i < |h| ensures h[i].key != e.key {
      KeyAt(h, i);
    }
  }

  lemma AcceptsKnown(h: seq<Entry>, e: Entry, n: nat, last: nat)
    requires last < |h| && h[last].key == e.key && e.key !in Keys(h[last + 1..])
    ensures Accepts(Memory(h, n), e) <==> MayCommit(h, e, n)
  {
    RemembersExactly(h, n, last);
    assert Accepts(Memory(h, n), e) <==> |Keys(h[last + 1..])| >= n || h[last].hash == e.hash;
    forall i: nat | i < |h| && h[i].key == e.key && e.key !in Keys(h[i + 1..]) ensures i == last {
      LastIsOne(h, i, last);
    }
  }

  lemma LastIsOne(h: seq<Entry>, i: nat, j: nat)
    requires i < |h| && j < |h| && h[i].key == h[j].key
    requires h[i].key !in Keys(h[i + 1..]) && h[j].key !in Keys(h[j + 1..])
    ensures i == j
  {
    if i < j {
      KeyAt(h[i + 1..], j - i - 1);
    } else if j < i {
      KeyAt(h[j + 1..], i - j - 1);
    }
  }

  /** Once accepted, the same hash is accepted again, whatever else was accepted in
      between, until the key is accepted with another hash. */
  lemma RetryIsAccepted(h: seq<Entry>, e: Entry, since: seq<Entry>, n: nat)
    requires forall x | x in since && x.key == e.key :: x.hash == e.hash
    ensures Accepts(Memory(h + [e] + since, n), e)
  {
    var g := h + [e] + since;
    AcceptsExactly(g, e, n);
    forall i: nat | i < |g| && g[i].key == e.key && e.key !in Keys(g[i + 1..]) ensures g[i].hash == e.hash {
      if i < |h| {
        KeyAt(g[i + 1..], |h| - i - 1);
      } else if i > |h| {
        assert g[i] == since[i - |h| - 1];
      }
    }
  }

  /** Two acceptances of one key with different hashes are always separated by
      acceptances of at least `n` other keys. */
  lemma {:induction false} DivergenceSeparated(h: seq<Entry>, n: nat, i: nat, j: nat)
    requires Legal(h, n) && i < j < |h| && h[i].key == h[j].key && h[i].hash != h[j].hash
    ensures |Keys(h[i + 1..j]) - {h[i].key}| >= n
    decreases j
  {
    var past := h[..j];
    var p := LastAcceptance(past, i);
    if h[p].hash != h[j].hash {
      RemembersExactly(past, n, p);
      assert Accepts(Memory(h[..j], n), h[j]);
      assert past[p + 1..] == h[p + 1..j];
      Between(h, i, p, j, j);
    } else {
      DivergenceSeparated(h, n, i, p);
      Between(h, i, i, p, j);
    }
  }

  lemma Between(h: seq<Entry>, i: nat, lo: nat, hi: nat, j: nat)
    requires i <= lo < hi <= j < |h|
    ensures |Keys(h[lo + 1..hi]) - {h[i].key}| <= |Keys(h[i + 1..j]) - {h[i].key}|
    ensures h[i].key !in Keys(h[lo + 1..hi]) ==> Keys(h[lo + 1..hi]) - {h[i].key} == Keys(h[lo + 1..hi])
  {
    var a, b, c := h[i + 1..lo + 1], h[lo + 1..hi], h[hi..j];
    assert h[i + 1..j] == a + b + c;
    KeysConcat(a + b, c);
    KeysConcat(a, b);
    var inner, outer := Keys(b) - {h[i].key}, Keys(h[i + 1..j]) - {h[i].key};
    assert outer == inner + (outer - inner);
  }

  // ----- runs with requests that commit to nothing in between

  function Somes(ms: seq<Option<Entry>>): seq<Entry> {
    if ms == [] then []
    else if ms[0].Some? then [ms[0].value] + Somes(ms[1..])
    else Somes(ms[1..])
  }

  /** Starting from memory `m`, every commitment in `ms` is accepted. */
  ghost predicate LegalRun(m: seq<Entry>, ms: seq<Option<Entry>>, n: nat)
    decreases |ms|
  {
    ms == [] ||
    match ms[0]
    case None => LegalRun(m, ms[1..], n)
    case Some(e) => Accepts(m, e) && LegalRun(Remember(m, e, n), ms[1..], n)
  }

  lemma {:induction false} SomesConcat(a: seq<Option<Entry>>, b: seq<Option<Entry>>)
    ensures Somes(a + b) == Somes(a) + Somes(b)
  {
    if a == [] {
      assert a + b == b;
    } else {
      SomesConcat(a[1..], b);
      assert (a + b)[1..] == a[1..] + b;
    }
  }

  lemma SomesCons(e: Entry, ms: seq<Option<Entry>>)
    ensures Somes([Some(e)] + ms) == [e] + Somes(ms)
  {
    assert ([Some(e)] + ms)[1..] == ms;
  }

  lemma SomesSplit(ms: seq<Option<Entry>>, i: nat)
    requires i < |ms| && ms[i].Some?
    ensures Somes(ms) == Somes(ms[..i]) + [ms[i].value] + Somes(ms[i + 1..])
  {
    var e, rest := ms[i].value, ms[i + 1..];
    assert ms == ms[..i] + ([Some(e)] + rest);
    SomesConcat(ms[..i], [Some(e)] + rest);
    SomesCons(e, rest);
    Regroup(Somes(ms[..i]), e, Somes(rest));
  }

  lemma LegalExtends(h: seq<Entry>, e: Entry, n: nat)
    requires Legal(h, n) && Accepts(Memory(h, n), e)
    ensures Legal(h + [e], n) && Memory(h + [e], n) == Remember(Memory(h, n), e, n)
  {
    var g := h + [e];
    assert g[..|g| - 1] == h;
    forall i | 0 <= i < |g| ensures Accepts(Memory(g[..i], n), g[i]) {
      assert g[..i] == if i < |h| then h[..i] else h;
      assert i < |h| ==> Accepts(Memory(h[..i], n), h[i]);
    }
  }

  lemma {:induction false} LegalRunIsLegal(h: seq<Entry>, ms: seq<Option<Entry>>, n: nat)
    requires Legal(h, n) && LegalRun(Memory(h, n), ms, n)
    ensures Legal(h + Somes(ms), n)
    decreases |ms|
  {
    if ms == [] {
      assert h + [] == h;
    } else if ms[0].None? {
      LegalRunIsLegal(h, ms[1..], n);
      assert Somes(ms) == Somes(ms[1..]);
    } else {
      var e, rest := ms[0].value, ms[1..];
      LegalExtends(h, e, n);
      LegalRunIsLegal(h + [e], rest, n);
      Regroup(h, e, Somes(rest));
    }
  }

  lemma Regroup<T>(a: seq<T>, x: T, b: seq<T>)
    ensures a + ([x] + b) == (a + [x]) + b
  {
  }

  lemma Slices<T>(s: seq<T>, i: nat, j: nat)
    requires i < j < |s|
    ensures s[i + 1..][j - i - 1] == s[j]
    ensures s[i + 1..][..j - i - 1] == s[i + 1..j] && s[i + 1..][j - i..] == s[j + 1..]
  {
  }

  /** Positions of two elements inside a concatenation. */
  lemma Places<T>(h: seq<T>, a: seq<T>, x: T, b: seq<T>, y: T, c: seq<T>)
    requires h == a + [x] + (b + [y] + c)
    ensures var p, q := |a|, |a| + 1 + |b|;
            q < |h| && h[p] == x && h[q] == y && h[p + 1..q] == b
  {
  }

  /** Where two commitments of a run, and what lies between them, are found among
      the accepted ones. */
  lemma TwoInside(ms: seq<Option<Entry>>, i: nat, j: nat) returns (p: nat, q: nat)
    requires i < j < |ms| && ms[i].Some? && ms[j].Some?
    ensures p < q < |Somes(ms)| && Somes(ms)[p] == ms[i].value && Somes(ms)[q] == ms[j].value
    ensures Somes(ms)[p + 1..q] == Somes(ms[i + 1..j])
  {
    var tail := ms[i + 1..];
    Slices(ms, i, j);
    SomesSplit(ms, i);
    SomesSplit(tail, j - i - 1);
    var a, b := Somes(ms[..i]), Somes(ms[i + 1..j]);
    Places(Somes(ms), a, ms[i].value, b, ms[j].value, Somes(ms[j + 1..]));
    p, q := |a|, |a| + 1 + |b|;
  }

  /** `DivergenceSeparated`, counted over a run's requests. */
  lemma ConflictInRun(ms: seq<Option<Entry>>, n: nat, i: nat, j: nat)
    requires LegalRun([], ms, n) && i < j < |ms| && ms[i].Some? && ms[j].Some?
    requires ms[i].value.key == ms[j].value.key && ms[i].value.hash != ms[j].value.hash
    ensures |Keys(Somes(ms[i + 1..j])) - {ms[i].value.key}| >= n
  {
    var p, q := TwoInside(ms, i, j);
    LegalRunIsLegal([], ms, n);
    assert [] + Somes(ms) == Somes(ms);
    DivergenceSeparated(Somes(ms), n, p, q);
  }
}
