/** The cache of client metadata lookups in oauth_ha_auth.py: an insertion-ordered dict with two
    lifetimes and eviction of the oldest write, against the log of every write made to it. */
module CimdCache {
  import opened Sets
  import opened Wrappers

  const CACHE_MAX := 64
  const CACHE_TTL: real := 300.0
  const NEGATIVE_TTL: real := 60.0

  type Redirects = Option<seq<string>>

  datatype Entry = Entry(id: string, expires: real, result: Redirects)

  datatype Write = Write(id: string, now: real, result: Redirects)

  function EntryOf(w: Write): Entry {
    Entry(w.id, w.now + if w.result.Some? then CACHE_TTL else NEGATIVE_TTL, w.result)
  }

  /** Nothing after write `i` wrote its client_id again. */
  ghost predicate Latest(writes: seq<Write>, i: int) {
    0 <= i < |writes| && forall j | i < j < |writes| :: writes[j].id != writes[i].id
  }

  /** The distinct client_ids written after write `i`. */
  ghost function WrittenSince(writes: seq<Write>, i: int): set<string> {
    set j | i < j < |writes| && 0 <= j :: writes[j].id
  }

  /** Why a latest write may be missing: a later write read the clock at or past its expiry, or at
      least as many other client_ids as the cache holds were written since. */
  ghost predicate MayBeGone(writes: seq<Write>, i: int)
    requires 0 <= i < |writes|
  {
    || (exists j :: i < j < |writes| && EntryOf(writes[i]).expires <= writes[j].now)
    || |WrittenSince(writes, i)| >= CACHE_MAX
  }

  /** `origin` names the write behind each entry: entries stand in write order, each is the latest write of
      its client_id, and every latest write that is missing may be gone. */
  ghost predicate Reflects(entries: seq<Entry>, origin: seq<int>, writes: seq<Write>) {
    && |origin| == |entries|
    && (forall k | 0 <= k < |origin| :: Latest(writes, origin[k]) && entries[k] == EntryOf(writes[origin[k]]))
    && (forall k, l | 0 <= k < l < |origin| :: origin[k] < origin[l])
    && (forall i | Latest(writes, i) && i !in origin :: MayBeGone(writes, i))
  }

  // ---- the steps of a write as functions ---------------------------------------------------------

  function Without(entries: seq<Entry>, id: string): seq<Entry> {
    if entries == [] then []
    else
      var n := |entries| - 1;
      Without(entries[..n], id) + if entries[n].id == id then [] else [entries[n]]
  }

  function Unexpired(entries: seq<Entry>, now: real): seq<Entry> {
    if entries == [] then []
    else
      var n := |entries| - 1;
      Unexpired(entries[..n], now) + if entries[n].expires <= now then [] else [entries[n]]
  }

  // ---- log growth -----------------------------------------------------------------------------------

  lemma LatestExtends(writes: seq<Write>, w: Write, i: int)
    ensures i != |writes| ==> (Latest(writes + [w], i) <==> Latest(writes, i) && writes[i].id != w.id)
    ensures i == |writes| ==> Latest(writes + [w], i)
  {
    var longer := writes + [w];
    assert forall j | 0 <= j < |writes| :: longer[j] == writes[j];
    assert longer[|writes|] == w;
  }

  lemma WrittenSinceGrows(writes: seq<Write>, w: Write, i: int)
    requires 0 <= i < |writes|
    ensures WrittenSince(writes + [w], i) == WrittenSince(writes, i) + {w.id}
  {
    var longer := writes + [w];
    assert forall j | 0 <= j < |writes| :: longer[j] == writes[j];
    assert longer[|writes|] == w;
    forall id | id in WrittenSince(writes, i) + {w.id} ensures id in WrittenSince(longer, i) {
      if id == w.id {
        assert longer[|writes|].id == id;
      } else {
        var j :| i < j < |writes| && writes[j].id == id;
        assert longer[j].id == id;
      }
    }
  }

  lemma MayBeGoneExtends(writes: seq<Write>, w: Write, i: int)
    requires 0 <= i < |writes| && MayBeGone(writes, i)
    ensures MayBeGone(writes + [w], i)
  {
    hide WrittenSince;
    var longer := writes + [w];
    assert longer[i] == writes[i];
    WrittenSinceGrows(writes, w, i);
    SubsetSize(WrittenSince(writes, i), WrittenSince(longer, i));
    if j :| i < j < |writes| && EntryOf(writes[i]).expires <= writes[j].now {
      assert longer[j] == writes[j];
    }
  }

  // ---- one write, entry by entry --------------------------------------------------------------------

  function Expired(e: Entry, now: real): bool { e.expires <= now }

  /** The newest entries a write leaves room for. */
  function Room(entries: seq<Entry>): seq<Entry> {
    if |entries| >= CACHE_MAX then entries[|entries| - (CACHE_MAX - 1)..] else entries
  }

  /** The whole effect of a write on the entries: out with the old entry, when full out with the expired
      ones and then the oldest, and the new entry last. */
  function AfterWrite(entries: seq<Entry>, w: Write): seq<Entry> {
    var others := Without(entries, w.id);
    Room(if |others| >= CACHE_MAX then Unexpired(others, w.now) else others) + [EntryOf(w)]
  }

  /** Midway through a write: the entries are latest writes in order, and a latest write of another
      client_id that is missing may be gone once this write is in the log. */
  ghost predicate Pending(entries: seq<Entry>, origin: seq<int>, writes: seq<Write>, w: Write) {
    && |origin| == |entries|
    && (forall k | 0 <= k < |origin| :: Latest(writes, origin[k]) && entries[k] == EntryOf(writes[origin[k]]))
    && (forall k, l | 0 <= k < l < |origin| :: origin[k] < origin[l])
    && (forall i | Latest(writes, i) && i !in origin && writes[i].id != w.id :: MayBeGone(writes + [w], i))
  }

  predicate Lacks(entries: seq<Entry>, id: string) { forall k | 0 <= k < |entries| :: entries[k].id != id }

  lemma PendingStarts(entries: seq<Entry>, origin: seq<int>, writes: seq<Write>, w: Write)
    requires Reflects(entries, origin, writes)
    ensures Pending(entries, origin, writes, w)
  {
    hide MayBeGone;
    forall i | Latest(writes, i) && i !in origin ensures MayBeGone(writes + [w], i) {
      MayBeGoneExtends(writes, w, i);
    }
  }

  function DeleteAt<T>(s: seq<T>, i: int): seq<T>
    requires 0 <= i < |s|
  {
    s[..i] + s[i + 1..]
  }

  lemma OnlyOneGoes(s: seq<int>, i: int, m: int)
    requires 0 <= i < |s|
    ensures m in s ==> m == s[i] || m in DeleteAt(s, i)
  {
    if m in s {
      var k :| 0 <= k < |s| && s[k] == m;
      if k < i {
        assert DeleteAt(s, i)[k] == m;
      } else if k > i {
        assert DeleteAt(s, i)[k - 1] == m;
      }
    }
  }

  /** One entry may be deleted when it is of the client_id being written, or may be gone anyway. */
  lemma PendingDelete(entries: seq<Entry>, origin: seq<int>, writes: seq<Write>, w: Write, i: int)
    requires Pending(entries, origin, writes, w) && 0 <= i < |entries|
    requires entries[i].id == w.id || MayBeGone(writes + [w], origin[i])
    ensures Pending(DeleteAt(entries, i), DeleteAt(origin, i), writes, w)
  {
    hide MayBeGone;
    var rest := DeleteAt(origin, i);
    forall m | Latest(writes, m) && m !in rest && writes[m].id != w.id ensures MayBeGone(writes + [w], m) {
      OnlyOneGoes(origin, i, m);
    }
  }

  lemma ExpiredMayBeGone(entries: seq<Entry>, origin: seq<int>, writes: seq<Write>, w: Write, i: int)
    requires Pending(entries, origin, writes, w) && 0 <= i < |entries| && Expired(entries[i], w.now)
    ensures MayBeGone(writes + [w], origin[i])
  {
    var longer := writes + [w];
    assert longer[|writes|] == w && longer[origin[i]] == writes[origin[i]];
  }

  /** The oldest entry of a full cache has seen enough others written. */
  lemma OldestMayBeGone(entries: seq<Entry>, origin: seq<int>, writes: seq<Write>, w: Write)
    requires Pending(entries, origin, writes, w) && Lacks(entries, w.id) && |entries| >= CACHE_MAX
    ensures MayBeGone(writes + [w], origin[0])
  {
    var others := set k | 1 <= k < |entries| :: entries[k].id;
    IdsAreDistinct(entries, origin, writes, w, |entries|);
    forall k | 1 <= k < |entries| ensures entries[k].id in WrittenSince(writes, origin[0]) {
      assert writes[origin[k]].id == entries[k].id;
    }
    assert others <= WrittenSince(writes, origin[0]);
    WrittenSinceGrows(writes, w, origin[0]);
    SubsetSize(others + {w.id}, WrittenSince(writes + [w], origin[0]));
  }

  lemma IdsDiffer(entries: seq<Entry>, origin: seq<int>, writes: seq<Write>, w: Write, k: int, l: int)
    requires Pending(entries, origin, writes, w) && 0 <= k < l < |entries|
    ensures entries[k].id != entries[l].id
  {
    hide MayBeGone;
    assert origin[k] < origin[l];
    assert Latest(writes, origin[k]);
  }

  lemma {:induction false} IdsAreDistinct(entries: seq<Entry>, origin: seq<int>, writes: seq<Write>, w: Write, n: int)
    requires Pending(entries, origin, writes, w) && 1 <= n <= |entries|
    ensures |set k | 1 <= k < n :: entries[k].id| == n - 1
  {
    hide MayBeGone, Latest, Pending;
    var ids := set k | 1 <= k < n :: entries[k].id;
    if n == 1 {
      assert ids == {};
    } else {
      var fewer := set k | 1 <= k < n - 1 :: entries[k].id;
      IdsAreDistinct(entries, origin, writes, w, n - 1);
      assert ids == fewer + {entries[n - 1].id};
      forall k | 1 <= k < n - 1 ensures entries[k].id != entries[n - 1].id {
        IdsDiffer(entries, origin, writes, w, k, n - 1);
      }
    }
  }

  /** The new entry closes the write. */
  lemma PendingEnds(entries: seq<Entry>, origin: seq<int>, writes: seq<Write>, w: Write)
    requires Pending(entries, origin, writes, w) && Lacks(entries, w.id)
    ensures Reflects(entries + [EntryOf(w)], origin + [|writes|], writes + [w])
  {
    hide MayBeGone;
    var longer, ids := writes + [w], origin + [|writes|];
    forall k | 0 <= k < |ids| ensures Latest(longer, ids[k]) && (entries + [EntryOf(w)])[k] == EntryOf(longer[ids[k]]) {
      LatestExtends(writes, w, ids[k]);
      if k < |origin| {
        LatestBounds(writes, origin[k]);
        assert entries[k].id == writes[origin[k]].id;
      }
    }
    forall k | 0 <= k < |origin| ensures origin[k] < |writes| {
      LatestBounds(writes, origin[k]);
    }
    forall i | Latest(longer, i) && i !in ids ensures MayBeGone(longer, i) {
      assert ids[|origin|] == |writes|;
      assert forall m | m in origin :: m in ids;
      LatestExtends(writes, w, i);
    }
  }

  lemma LatestBounds(writes: seq<Write>, i: int)
    requires Latest(writes, i)
    ensures 0 <= i < |writes|
  {
  }

  // ---- deleting in a loop -------------------------------------------------------------------------------

  lemma {:induction false} FilterConcat(a: seq<Entry>, e: Entry, id: string, now: real)
    ensures Without(a + [e], id) == Without(a, id) + if e.id == id then [] else [e]
    ensures Unexpired(a + [e], now) == Unexpired(a, now) + if Expired(e, now) then [] else [e]
  {
    assert (a + [e])[..|a|] == a;
  }

  lemma {:induction false} WithoutLacks(entries: seq<Entry>, id: string)
    ensures Lacks(Without(entries, id), id) && |Without(entries, id)| <= |entries|
  {
    if entries != [] {
      WithoutLacks(entries[..|entries| - 1], id);
    }
  }

  lemma {:induction false} UnexpiredKeepsLacking(entries: seq<Entry>, id: string, now: real)
    requires Lacks(entries, id)
    ensures Lacks(Unexpired(entries, now), id) && |Unexpired(entries, now)| <= |entries|
  {
    if entries != [] {
      UnexpiredKeepsLacking(entries[..|entries| - 1], id, now);
    }
  }

  // ---- the cache -------------------------------------------------------------------------------------

  class Cache {
    var entries: seq<Entry>
    ghost var origin: seq<int>
    ghost var writes: seq<Write>

    ghost predicate Valid()
      reads this
    {
      Reflects(entries, origin, writes) && |entries| <= CACHE_MAX
    }

    constructor ()
      ensures Valid() && writes == [] && entries == []
    {
      entries, origin, writes := [], [], [];
    }

    /** dict.pop of one key. */
    method Pop(id: string, ghost w: Write)
      requires Pending(entries, origin, writes, w) && w.id == id
      modifies this
      ensures Pending(entries, origin, writes, w) && writes == old(writes)
      ensures entries == Without(old(entries), id)
    {
      hide Pending;
      var i, done := 0, 0;
      while i < |entries|
        invariant 0 <= i <= |entries| && 0 <= done <= |old(entries)|
        invariant Pending(entries, origin, writes, w) && writes == old(writes)
        invariant entries[..i] == Without(old(entries)[..done], id) && entries[i..] == old(entries)[done..]
        decreases |entries| - i
      {
        FilterStep(old(entries), done, id, 0.0);
        PendingLengths(entries, origin, writes, w);
        assert entries[i] == entries[i..][0] == old(entries)[done];
        if entries[i].id == id {
          PendingDelete(entries, origin, writes, w, i);
          assert DeleteAt(entries, i)[i..] == entries[i..][1..];
          entries, origin := DeleteAt(entries, i), DeleteAt(origin, i);
        } else {
          assert entries[..i + 1] == entries[..i] + [entries[i]];
          assert entries[i + 1..] == entries[i..][1..];
          i := i + 1;
        }
        done := done + 1;
      }
      assert entries[..i] == entries && old(entries)[..done] == old(entries);
    }

    /** The expired keys, deleted one by one. */
    method DropExpired(now: real, ghost w: Write)
      requires Pending(entries, origin, writes, w) && w.now == now
      modifies this
      ensures Pending(entries, origin, writes, w) && writes == old(writes)
      ensures entries == Unexpired(old(entries), now)
    {
      hide Pending;
      var i, done := 0, 0;
      while i < |entries|
        invariant 0 <= i <= |entries| && 0 <= done <= |old(entries)|
        invariant Pending(entries, origin, writes, w) && writes == old(writes)
        invariant entries[..i] == Unexpired(old(entries)[..done], now) && entries[i..] == old(entries)[done..]
        decreases |entries| - i
      {
        FilterStep(old(entries), done, "", now);
        PendingLengths(entries, origin, writes, w);
        assert entries[i] == entries[i..][0] == old(entries)[done];
        if entries[i].expires <= now {
          ExpiredMayBeGone(entries, origin, writes, w, i);
          PendingDelete(entries, origin, writes, w, i);
          assert DeleteAt(entries, i)[i..] == entries[i..][1..];
          entries, origin := DeleteAt(entries, i), DeleteAt(origin, i);
        } else {
          assert entries[..i + 1] == entries[..i] + [entries[i]];
          assert entries[i + 1..] == entries[i..][1..];
          i := i + 1;
        }
        done := done + 1;
      }
      assert entries[..i] == entries && old(entries)[..done] == old(entries);
    }

    /** _cache_cimd: whatever was written before, the cache stays a window on the log of writes, and its
        entries become exactly what the write demands. */
    method CacheCimd(id: string, now: real, result: Redirects)
      requires Valid()
      modifies this
      ensures Valid()
      ensures writes == old(writes) + [Write(id, now, result)] && |entries| <= 64
      ensures entries == AfterWrite(old(entries), Write(id, now, result))
    {
      hide Pending, Reflects, Latest;
      var w := Write(id, now, result);
      PendingStarts(entries, origin, writes, w);
      Pop(id, w);
      WithoutLacks(old(entries), id);
      ghost var others := entries;
      if |entries| >= CACHE_MAX {
        UnexpiredKeepsLacking(entries, id, now);
        DropExpired(now, w);
      }
      ghost var kept := entries;
      while |entries| >= CACHE_MAX
        invariant Pending(entries, origin, writes, w) && writes == old(writes) && Lacks(entries, id)
        invariant |entries| <= |kept| <= CACHE_MAX
        invariant entries == kept || (|kept| >= CACHE_MAX && |entries| == CACHE_MAX - 1 && entries == Room(kept))
      {
        OldestMayBeGone(entries, origin, writes, w);
        PendingLengths(entries, origin, writes, w);
        PendingDelete(entries, origin, writes, w, 0);
        assert DeleteAt(entries, 0) == entries[1..];
        entries, origin := entries[1..], DeleteAt(origin, 0);
      }
      var ttl := if result.Some? then CACHE_TTL else NEGATIVE_TTL;
      PendingEnds(entries, origin, writes, w);
      entries, origin, writes := entries + [Entry(id, now + ttl, result)], origin + [|writes|], writes + [w];
    }

    /** The cache's answer to a lookup, if it has a fresh one: the latest write of the client_id, no older than
        300 seconds, or 60 for a failure. Such a write is found unless others took its place. */
    method Lookup(id: string, now: real) returns (hit: Option<Redirects>)
      requires Valid()
      ensures hit.Some? <==> exists k :: 0 <= k < |entries| && entries[k].id == id && entries[k].expires > now
      ensures hit.Some? ==> exists i ::
                && Latest(writes, i) && writes[i].id == id && writes[i].result == hit.value
                && now < writes[i].now + (if hit.value.Some? then 300.0 else 60.0)
      ensures forall i :: Latest(writes, i) && writes[i].id == id && |WrittenSince(writes, i)| < 64
                          && (forall j | i < j < |writes| ::
                                writes[j].now < writes[i].now + (if writes[i].result.Some? then 300.0 else 60.0)) ==>
                hit == if now < writes[i].now + (if writes[i].result.Some? then 300.0 else 60.0)
                       then Some(writes[i].result) else None
      ensures writes != [] && writes[|writes| - 1].id == id ==>
                var (at, result) := (writes[|writes| - 1].now, writes[|writes| - 1].result);
                hit == if now < at + (if result.Some? then 300.0 else 60.0) then Some(result) else None
    {
      if writes != [] { LastIsLatest(writes); }
      for k := 0 to |entries|
        invariant forall l | 0 <= l < k :: entries[l].id != id || entries[l].expires <= now
      {
        if entries[k].id == id && entries[k].expires > now {
          assert Latest(writes, origin[k]);
          assert forall i | Latest(writes, i) && writes[i].id == id :: i == origin[k];
          return Some(entries[k].result);
        }
      }
      hit := None;
      forall i | Latest(writes, i) && writes[i].id == id && |WrittenSince(writes, i)| < CACHE_MAX
                 && (forall j | i < j < |writes| :: writes[j].now < EntryOf(writes[i]).expires)
        ensures EntryOf(writes[i]).expires <= now
      {
        RecentWritesAreKept(entries, origin, writes, i);
      }
    }
  }

  /** A lookup outcome for one address: whether the server answered, and the redirects it served. */
  datatype Answer = Answer(reached: bool, result: Redirects)

  /** The first answer of a reachable address. */
  function Decisive(answers: seq<Answer>): Option<Redirects> {
    if answers == [] then None
    else if answers[0].reached then Some(answers[0].result)
    else Decisive(answers[1..])
  }

  /** _lookup_cimd: try the addresses in order. An answer that does not validate is final and never
      cached; a valid one is cached; no answer at all is cached as a failure. */
  method LookupAddresses(cache: Cache, id: string, now: real, answers: seq<Answer>) returns (result: Redirects)
    requires cache.Valid()
    modifies cache
    ensures cache.Valid()
    ensures result == match Decisive(answers) case None => None case Some(r) => r
    ensures cache.writes == if Decisive(answers) == Some(None) then old(cache.writes)
              else old(cache.writes) + [Write(id, now, result)]
    ensures cache.entries == if Decisive(answers) == Some(None) then old(cache.entries)
                             else AfterWrite(old(cache.entries), Write(id, now, result))
  {
    for i := 0 to |answers|
      invariant Decisive(answers) == Decisive(answers[i..])
      invariant cache.Valid() && cache.writes == old(cache.writes) && cache.entries == old(cache.entries)
    {
      assert answers[i..][0] == answers[i] && answers[i..][1..] == answers[i + 1..];
      if answers[i].reached {
        if answers[i].result.None? { return None; }
        cache.CacheCimd(id, now, answers[i].result);
        return answers[i].result;
      }
    }
    cache.CacheCimd(id, now, None);
    result := None;
  }

  /** An unexpired latest write that fewer than 64 other client_ids followed is still in the cache. */
  lemma RecentWritesAreKept(entries: seq<Entry>, origin: seq<int>, writes: seq<Write>, i: int)
    requires Reflects(entries, origin, writes) && Latest(writes, i)
    requires forall j | i < j < |writes| :: writes[j].now < EntryOf(writes[i]).expires
    requires |WrittenSince(writes, i)| < CACHE_MAX
    ensures EntryOf(writes[i]) in entries
  {
    assert i in origin;
    var k :| 0 <= k < |origin| && origin[k] == i;
    assert entries[k] == EntryOf(writes[i]);
  }

  /** The last write is the latest of its client_id, and nothing was written since. */
  lemma LastIsLatest(writes: seq<Write>)
    requires writes != []
    ensures Latest(writes, |writes| - 1) && WrittenSince(writes, |writes| - 1) == {}
  {
  }

  lemma FilterStep(all: seq<Entry>, done: int, id: string, now: real)
    requires 0 <= done < |all|
    ensures Without(all[..done + 1], id) == Without(all[..done], id) + if all[done].id == id then [] else [all[done]]
    ensures Unexpired(all[..done + 1], now) ==
            Unexpired(all[..done], now) + if Expired(all[done], now) then [] else [all[done]]
    ensures all[done..][1..] == all[done + 1..]
  {
    assert all[..done + 1] == all[..done] + [all[done]];
    FilterConcat(all[..done], all[done], id, now);
  }

  lemma PendingLengths(entries: seq<Entry>, origin: seq<int>, writes: seq<Write>, w: Write)
    requires Pending(entries, origin, writes, w)
    ensures |origin| == |entries|
  {
  }
}
