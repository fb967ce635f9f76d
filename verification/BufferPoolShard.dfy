/** A shard of the buffer pool as an object, with its young and old lists.  Every method performs
    steps of the machine in `BufferPool`. */
module BufferPoolShard {
  import opened BufferPool

  /** A list without its first `p`. */
  function Removed(list: seq<PageId>, p: PageId): (rest: seq<PageId>)
    requires p in list
    ensures multiset(list) == multiset(rest) + multiset{p}
  {
    if list[0] == p then
      assert list == [p] + list[1..];
      list[1..]
    else
      assert list == [list[0]] + list[1..];
      [list[0]] + Removed(list[1..], p)
  }

  /** It is taken out at its first position, and the order of the others stays. */
  lemma {:induction false} RemovedFirst(list: seq<PageId>, p: PageId) returns (i: nat)
    requires p in list
    ensures i < |list| && list[i] == p && p !in list[..i] && Removed(list, p) == list[..i] + list[i + 1..]
  {
    if list[0] == p {
      i := 0;
    } else {
      var tail := list[1..];
      var k := RemovedFirst(tail, p);
      i := k + 1;
      assert list[i] == tail[k] && list[i + 1..] == tail[k + 1..];
      assert list[..i] == [list[0]] + tail[..k];
    }
  }

  function Without(list: seq<PageId>, p: PageId): seq<PageId> { if p in list then Removed(list, p) else list }

  /** The two lists hold every resident page once. */
  ghost predicate Listed(oldList: seq<PageId>, youngList: seq<PageId>, pages: set<PageId>) {
    multiset(oldList) + multiset(youngList) == multiset(pages)
  }

  lemma ListedIn(oldList: seq<PageId>, youngList: seq<PageId>, pages: set<PageId>, p: PageId)
    requires Listed(oldList, youngList, pages)
    ensures p in pages <==> p in oldList || p in youngList
    ensures p in oldList ==> p !in youngList
  {
    assert p in multiset(pages) <==> p in pages;
    assert p in multiset(oldList) <==> p in oldList;
    assert p in multiset(youngList) <==> p in youngList;
    assert (multiset(oldList) + multiset(youngList))[p] == multiset(pages)[p] <= 1;
  }

  lemma Unlisted(oldList: seq<PageId>, youngList: seq<PageId>, pages: set<PageId>, p: PageId)
    requires Listed(oldList, youngList, pages) && p in pages
    ensures if p in oldList then Listed(Removed(oldList, p), youngList, pages - {p})
            else p in youngList && Listed(oldList, Removed(youngList, p), pages - {p})
  {
    ListedIn(oldList, youngList, pages, p);
    assert multiset(pages) == multiset(pages - {p}) + multiset{p};
    if p in oldList {
      assert multiset(Removed(oldList, p)) + multiset(youngList) + multiset{p} == multiset(pages);
      assert multiset(Removed(oldList, p)) + multiset(youngList)
          == (multiset(Removed(oldList, p)) + multiset(youngList) + multiset{p}) - multiset{p};
    } else {
      assert multiset(oldList) + multiset(Removed(youngList, p)) + multiset{p} == multiset(pages);
      assert multiset(oldList) + multiset(Removed(youngList, p))
          == (multiset(oldList) + multiset(Removed(youngList, p)) + multiset{p}) - multiset{p};
    }
  }

  lemma ListedFront(oldList: seq<PageId>, youngList: seq<PageId>, pages: set<PageId>, p: PageId)
    requires Listed(oldList, youngList, pages) && p !in pages
    ensures Listed([p] + oldList, youngList, pages + {p}) && Listed(oldList, [p] + youngList, pages + {p})
  {
    assert multiset(pages + {p}) == multiset(pages) + multiset{p};
  }

  predicate NoRepeats(list: seq<PageId>) { forall i, j :: 0 <= i < j < |list| ==> list[i] != list[j] }

  lemma ListedOnce(oldList: seq<PageId>, youngList: seq<PageId>, pages: set<PageId>)
    requires Listed(oldList, youngList, pages)
    ensures NoRepeats(oldList + youngList)
  {
    var list := oldList + youngList;
    forall i, j | 0 <= i < j < |list| ensures list[i] != list[j] {
      assert list == list[..j] + [list[j]] + list[j + 1..];
      assert multiset(list) == multiset(list[..j]) + multiset{list[j]} + multiset(list[j + 1..]);
      assert multiset(list)[list[j]] == multiset(pages)[list[j]] <= 1;
      assert list[..j][i] == list[i] && list[i] in multiset(list[..j]);
    }
  }

  /** The page LSN is the first field of the page. */
  function PageLsn(b: Data): nat { if b == [] then 0 else b[0] }

  predicate Flushable(f: Frame, flushedUntil: nat) { f.dirty && PageLsn(f.bytes) < flushedUntil }

  function FlushablePages(pages: map<PageId, Frame>, flushedUntil: nat): set<PageId> {
    set p | p in pages && Flushable(pages[p], flushedUntil)
  }

  /** The frames once the pages `done` are flushed ... */
  function FramesAfter(pages: map<PageId, Frame>, done: set<PageId>): map<PageId, Frame> {
    map p | p in pages :: if p in done then pages[p].(dirty := false) else pages[p]
  }

  /** ... and the disk. */
  function DiskAfter(pages: map<PageId, Frame>, disk: map<PageId, Data>, done: set<PageId>): map<PageId, Data> {
    disk + map p | p in done && p in pages :: pages[p].bytes
  }

  lemma NothingFlushed(pages: map<PageId, Frame>, disk: map<PageId, Data>)
    ensures FramesAfter(pages, {}) == pages && DiskAfter(pages, disk, {}) == disk
  {
  }

  lemma OneMoreFlushed(pages: map<PageId, Frame>, disk: map<PageId, Data>, done: set<PageId>, p: PageId)
    requires p in pages && p !in done
    ensures var frames := FramesAfter(pages, done);
            && frames[p] == pages[p]
            && FramesAfter(pages, done + {p}) == frames[p := frames[p].(dirty := false)]
            && DiskAfter(pages, disk, done + {p}) == DiskAfter(pages, disk, done)[p := pages[p].bytes]
  {
  }

  datatype Victim = NoVictim | Fresh | Victim(page: PageId, bytes: Data, dirty: bool)

  function Pinned(f: Frame, c: nat): Frame { f.(readers := f.readers + {c}) }

  /** A resident page that is neither pinned nor locked. */
  predicate Evictable(s: State, q: PageId) { q in s.pages && Pins(s.pages[q]) == {} && q !in s.locks }

  /** The last page of the list that can be evicted. */
  predicate LastFreeOf(s: State, list: seq<PageId>, v: PageId) {
    exists i :: 0 <= i < |list| && list[i] == v && Evictable(s, v) && forall j :: i < j < |list| ==> !Evictable(s, list[j])
  }

  function Stored(disk: map<PageId, Data>, victim: Victim): map<PageId, Data>
    requires victim.Victim?
  {
    if victim.dirty then disk[victim.page := victim.bytes] else disk
  }

  /** The call has taken the victim out of the pool. */
  predicate IsTaken(s: State, s': State, c: nat, p: PageId, victim: Victim)
    requires victim.Victim?
  {
    var v := victim.page;
    && v in s.pages && victim.bytes == s.pages[v].bytes && victim.dirty == s.pages[v].dirty
    && s' == s.(pages := s.pages - {v}, locks := s.locks + {v}, baking := s.baking + 1,
                calls := s.calls[c := Holding(p, v, victim.bytes, victim.dirty)])
  }

  /** The page, read from disk into a frame pinned by the call. */
  function ReadIn(s: State, c: nat, p: PageId): Frame { Frame(Value(s.disk, p), false, {c}, {}) }

  /** The page has come in by a new frame, while there is room, or in the place of a page that was
      neither pinned nor locked and is stored if it was dirty. */
  ghost predicate CameIn(s: State, pages: map<PageId, Frame>, disk: map<PageId, Data>, c: nat, p: PageId, cap: nat) {
    if |s.pages| + s.baking < cap then pages == s.pages[p := ReadIn(s, c, p)] && disk == s.disk
    else exists v :: Evictable(s, v) && TookPlace(s, pages, disk, c, p, v)
  }

  predicate TookPlace(s: State, pages: map<PageId, Frame>, disk: map<PageId, Data>, c: nat, p: PageId, v: PageId)
    requires v in s.pages
  {
    pages == (s.pages - {v})[p := ReadIn(s, c, p)]
    && disk == if s.pages[v].dirty then s.disk[v := s.pages[v].bytes] else s.disk
  }

  ghost predicate IsBrought(s: State, s': State, c: nat, p: PageId, cap: nat) {
    CameIn(s, s'.pages, s'.disk, c, p, cap)
    && s' == s.(pages := s'.pages, disk := s'.disk, calls := s.calls[c := Delivered(p)])
  }

  /** What a finished call leaves: the page pinned by it, where it was or come in, and everything
      else as before. */
  ghost predicate IsDelivered(s: State, s': State, c: nat, p: PageId, cap: nat) {
    && (if p in s.pages then s'.pages == s.pages[p := Pinned(s.pages[p], c)] && s'.disk == s.disk
        else CameIn(s, s'.pages, s'.disk, c, p, cap))
    && s' == s.(pages := s'.pages, disk := s'.disk)
  }

  // ---------------------------------------------------------------- the stages of a call put together

  function Claiming(s: State, c: nat, p: PageId): State { s.(locks := s.locks + {p}, calls := s.calls[c := Missed(p)]) }

  function Loading(s: State, c: nat, p: PageId, bytes: Data): State { s.(calls := s.calls[c := Loaded(p, bytes)]) }

  function Publishing(s: State, c: nat, p: PageId, bytes: Data): State
    requires s.baking > 0
  {
    s.(pages := s.pages[p := Frame(bytes, false, {c}, {})], baking := s.baking - 1, calls := s.calls[c := Delivered(p)])
  }

  function Releasing(s: State, c: nat, p: PageId): State { s.(locks := s.locks - {p}, calls := s.calls - {c}) }

  lemma EmptiedIsBrought(s: State, e: State, c: nat, p: PageId, cap: nat)
    requires e.baking > 0 && c in e.calls && CameIn(s, e.pages[p := ReadIn(e, c, p)], e.disk, c, p, cap)
    requires e == s.(pages := e.pages, disk := e.disk, baking := s.baking + 1, calls := s.calls[c := Empty(p)])
    ensures var b := Value(e.disk, p); IsBrought(s, Publishing(Loading(e, c, p, b), c, p, b), c, p, cap)
  {
    var b := Value(e.disk, p);
    assert s.calls[c := Empty(p)][c := Loaded(p, b)][c := Delivered(p)] == s.calls[c := Delivered(p)];
  }

  lemma VictimTookPlace(s: State, e: State, c: nat, p: PageId, victim: Victim)
    requires victim.Victim? && Evictable(s, victim.page) && p !in s.pages
    requires victim.bytes == s.pages[victim.page].bytes && victim.dirty == s.pages[victim.page].dirty
    requires e.pages == s.pages - {victim.page} && e.disk == Stored(s.disk, victim)
    ensures TookPlace(s, e.pages[p := ReadIn(e, c, p)], e.disk, c, p, victim.page)
  {
  }

  lemma ClaimingEvicts(s: State, c: nat, p: PageId)
    requires p !in s.pages
    ensures forall q :: Evictable(Claiming(s, c, p), q) <==> Evictable(s, q)
  {
  }

  lemma BroughtIsDelivered(s: State, b: State, c: nat, p: PageId, cap: nat)
    requires c !in s.calls && p !in s.locks && p !in s.pages && IsBrought(Claiming(s, c, p), b, c, p, cap)
    ensures IsDelivered(s, Releasing(b, c, p), c, p, cap)
  {
    var k := Claiming(s, c, p);
    ClaimingEvicts(s, c, p);
    assert CameIn(s, b.pages, b.disk, c, p, cap) by {
      if |s.pages| + s.baking >= cap {
        var v :| Evictable(k, v) && TookPlace(k, b.pages, b.disk, c, p, v);
        assert Evictable(s, v) && TookPlace(s, b.pages, b.disk, c, p, v);
      }
    }
    assert s.calls[c := Missed(p)][c := Delivered(p)] - {c} == s.calls;
    assert s.locks + {p} - {p} == s.locks;
  }

  lemma HitIsDelivered(s: State, c: nat, p: PageId, cap: nat)
    requires c !in s.calls && p !in s.locks && p in s.pages
    ensures var h := s.(locks := s.locks + {p}, pages := s.pages[p := Pinned(s.pages[p], c)],
                        calls := s.calls[c := Claimed(p)][c := Delivered(p)]);
            IsDelivered(s, Releasing(h, c, p), c, p, cap)
  {
    assert s.calls[c := Claimed(p)][c := Delivered(p)] - {c} == s.calls;
    assert s.locks + {p} - {p} == s.locks;
  }

  class BufferPoolShard {
    const numPages: nat
    ghost const initial: map<PageId, Data>
    ghost var trace: seq<Event>
    ghost var calls: map<nat, Call>
    var pages: map<PageId, Frame>
    var oldList: seq<PageId>
    var youngList: seq<PageId>
    var pageLock: set<PageId>
    var numBaking: nat
    var disk: map<PageId, Data>

    ghost function S(): State
      reads this
    {
      State(pages, pageLock, calls, numBaking, disk)
    }

    /** The state is what the steps performed so far lead to, and the lists hold the resident pages. */
    ghost predicate Valid()
      reads this
    {
      && Run(initial, numPages, trace).Some? && S() == Run(initial, numPages, trace).s
      && Listed(oldList, youngList, pages.Keys)
    }

    constructor (numPages: nat, disk: map<PageId, Data>)
      ensures Valid() && trace == [] && initial == disk && this.numPages == numPages
    {
      this.numPages, initial, trace, calls := numPages, disk, [], map[];
      pages, oldList, youngList, pageLock, numBaking, this.disk := map[], [], [], {}, 0, disk;
    }

    /** One step more. */
    lemma Performed(e: Event)
      requires Run(initial, numPages, trace).Some? && Enabled(Run(initial, numPages, trace).s, e, numPages)
      ensures Run(initial, numPages, trace + [e]) == Some(After(Run(initial, numPages, trace).s, e, numPages))
      ensures Flat(initial, trace + [e]) == Updated(Flat(initial, trace), e)
    {
      assert (trace + [e])[..|trace|] == trace;
    }

    /** The test-and-set of the page lock; the caller spins while it fails. */
    method LoadOrStoreLock(c: nat, p: PageId) returns (ok: bool)
      requires Valid() && c !in calls && forall q :: q in pages ==> c !in Pins(pages[q])
      modifies `pageLock, `calls, `trace
      ensures Valid() && (ok <==> p !in old(pageLock))
      ensures trace == if ok then old(trace) + [Claim(c, p)] else old(trace)
      ensures S() == if ok then old(S()).(locks := old(pageLock) + {p}, calls := old(calls)[c := Claimed(p)]) else old(S())
      ensures Flat(initial, trace) == Flat(initial, old(trace))
    {
      if p in pageLock { return false; }
      Performed(Claim(c, p));
      pageLock, calls, trace := pageLock + {p}, calls[c := Claimed(p)], trace + [Claim(c, p)];
      return true;
    }

    /** Looks for a resident frame, pins it and moves its page to the front of the young list. */
    method GetPageFromPool(c: nat, p: PageId) returns (hit: bool)
      requires Valid() && c in calls && calls[c] == Claimed(p)
      modifies `pages, `oldList, `youngList, `calls, `trace
      ensures Valid() && (hit <==> p in old(pages))
      ensures trace == old(trace) + [if hit then Hit(c) else Miss(c)]
      ensures hit ==> oldList == Without(old(oldList), p) && youngList == [p] + Without(old(youngList), p)
      ensures !hit ==> oldList == old(oldList) && youngList == old(youngList)
      ensures hit ==> S() == old(S()).(pages := old(pages)[p := Pinned(old(pages)[p], c)], calls := old(calls)[c := Delivered(p)])
      ensures !hit ==> S() == old(S()).(calls := old(calls)[c := Missed(p)])
      ensures Flat(initial, trace) == Flat(initial, old(trace))
    {
      if p !in pages {
        Performed(Miss(c));
        calls, trace := calls[c := Missed(p)], trace + [Miss(c)];
        return false;
      }
      Performed(Hit(c));
      MoveToYoung(p);
      var f := pages[p];
      assert pages[p := f].Keys == pages.Keys;
      pages := pages[p := Pinned(f, c)];
      calls, trace := calls[c := Delivered(p)], trace + [Hit(c)];
      return true;
    }

    /** Takes a page out of its list. */
    method Unlink(p: PageId)
      requires Listed(oldList, youngList, pages.Keys) && p in pages
      modifies `oldList, `youngList
      ensures Listed(oldList, youngList, pages.Keys - {p})
      ensures oldList == Without(old(oldList), p) && youngList == Without(old(youngList), p)
    {
      ListedIn(oldList, youngList, pages.Keys, p);
      Unlisted(oldList, youngList, pages.Keys, p);
      if p in oldList { oldList := Removed(oldList, p); } else { youngList := Removed(youngList, p); }
    }

    method MoveToYoung(p: PageId)
      requires Listed(oldList, youngList, pages.Keys) && p in pages
      modifies `oldList, `youngList
      ensures Listed(oldList, youngList, pages.Keys)
      ensures oldList == Without(old(oldList), p) && youngList == [p] + Without(old(youngList), p)
    {
      Unlink(p);
      ListedFront(oldList, youngList, pages.Keys - {p}, p);
      assert pages.Keys - {p} + {p} == pages.Keys;
      youngList := [p] + youngList;
    }

    /** The last page of the old list, else of the young list, that is neither pinned nor locked. */
    method FindVictim() returns (found: bool, v: PageId)
      requires Valid()
      ensures found ==> v in pages && Pins(pages[v]) == {} && v !in pageLock
      ensures !found ==> forall p :: p in pages ==> !Evictable(S(), p)
      ensures found ==> LastFreeOf(S(), oldList, v) || (LastFreeOf(S(), youngList, v) && forall p :: p in oldList ==> !Evictable(S(), p))
    {
      forall p ensures p in pages <==> p in oldList || p in youngList { ListedIn(oldList, youngList, pages.Keys, p); }
      found, v := LastFree(oldList);
      if found { ListedIn(oldList, youngList, pages.Keys, v); }
      else { found, v := LastFree(youngList); }
    }

    method LastFree(list: seq<PageId>) returns (found: bool, v: PageId)
      requires forall p :: p in list ==> p in pages
      ensures found ==> LastFreeOf(S(), list, v)
      ensures !found ==> forall p :: p in list ==> Pins(pages[p]) != {} || p in pageLock
    {
      for i := |list| downto 0
        invariant forall j :: i <= j < |list| ==> Pins(pages[list[j]]) != {} || list[j] in pageLock
      {
        if Pins(pages[list[i]]) == {} && list[i] !in pageLock {
          assert list[i] in list;
          return true, list[i];
        }
      }
      return false, 0;
    }

    /** A new frame while there is room, else a victim, taken out of the pool with its page lock. */
    method EvictPage(c: nat, ghost p: PageId) returns (victim: Victim)
      requires Valid() && c in calls && calls[c] == Missed(p)
      modifies `pages, `oldList, `youngList, `pageLock, `numBaking, `calls, `trace
      ensures Valid() && (victim.Fresh? <==> |old(pages)| + old(numBaking) < numPages)
      ensures victim.NoVictim? ==> trace == old(trace) && S() == old(S()) && forall q :: !Evictable(old(S()), q)
      ensures victim.Fresh? ==> trace == old(trace) + [TakeFresh(c)]
      ensures victim.Fresh? ==> S() == old(S()).(baking := old(numBaking) + 1, calls := old(calls)[c := Empty(p)])
      ensures victim.Victim? ==> trace == old(trace) + [TakeVictim(c, victim.page)] && Evictable(old(S()), victim.page)
      ensures victim.Victim? ==> IsTaken(old(S()), S(), c, p, victim)
      ensures Flat(initial, trace) == Flat(initial, old(trace))
    {
      if |pages| + numBaking < numPages {
        Performed(TakeFresh(c));
        numBaking, calls, trace := numBaking + 1, calls[c := Empty(p)], trace + [TakeFresh(c)];
        return Fresh;
      }
      var found, v := FindVictim();
      if !found { return NoVictim; }
      victim := TakeOut(c, p, v);
    }

    /** Takes an unpinned page out of the pool, with its page lock. */
    method TakeOut(c: nat, ghost p: PageId, v: PageId) returns (victim: Victim)
      requires Valid() && c in calls && calls[c] == Missed(p) && |pages| + numBaking >= numPages
      requires v in pages && Pins(pages[v]) == {} && v !in pageLock
      modifies `pages, `oldList, `youngList, `pageLock, `numBaking, `calls, `trace
      ensures Valid() && victim == Victim(v, old(pages)[v].bytes, old(pages)[v].dirty)
      ensures trace == old(trace) + [TakeVictim(c, v)] && IsTaken(old(S()), S(), c, p, victim)
      ensures Flat(initial, trace) == Flat(initial, old(trace))
    {
      victim := Victim(v, pages[v].bytes, pages[v].dirty);
      Unlink(v);
      Performed(TakeVictim(c, v));
      assert (pages - {v}).Keys == pages.Keys - {v};
      pages, pageLock, numBaking := pages - {v}, pageLock + {v}, numBaking + 1;
      assert Listed(oldList, youngList, pages.Keys);
      calls := calls[c := Holding(p, v, victim.bytes, victim.dirty)];
      trace := trace + [TakeVictim(c, v)];
    }

    /** Writes a dirty victim back, then gives its page lock up. */
    method WriteBack(c: nat, ghost p: PageId, victim: Victim)
      requires Valid() && c in calls && victim.Victim?
      requires calls[c] == Holding(p, victim.page, victim.bytes, victim.dirty)
      modifies `disk, `pageLock, `calls, `trace
      ensures Valid() && S() == old(S()).(locks := old(pageLock) - {victim.page}, calls := old(calls)[c := Empty(p)],
                                         disk := Stored(old(disk), victim))
      ensures trace == old(trace) + if victim.dirty then [WriteVictim(c), ReleaseVictim(c)] else [ReleaseVictim(c)]
      ensures Flat(initial, trace) == Flat(initial, old(trace))
    {
      if victim.dirty {
        Performed(WriteVictim(c));
        disk := disk[victim.page := victim.bytes];
        calls, trace := calls[c := calls[c].(dirty := false)], trace + [WriteVictim(c)];
      }
      Performed(ReleaseVictim(c));
      pageLock := pageLock - {victim.page};
      calls, trace := calls[c := Empty(p)], trace + [ReleaseVictim(c)];
    }

    method ReadPage(c: nat, p: PageId) returns (bytes: Data)
      requires Valid() && c in calls && calls[c] == Empty(p)
      modifies `calls, `trace
      ensures Valid() && bytes == Value(disk, p) && S() == old(S()).(calls := old(calls)[c := Loaded(p, bytes)])
      ensures trace == old(trace) + [Read(c)] && Flat(initial, trace) == Flat(initial, old(trace))
    {
      Performed(Read(c));
      bytes := Value(disk, p);
      calls, trace := calls[c := Loaded(p, bytes)], trace + [Read(c)];
    }

    /** Puts a page that was read at the front of the old list, pinned. */
    method PublishPage(c: nat, p: PageId, bytes: Data)
      requires Valid() && c in calls && calls[c] == Loaded(p, bytes)
      modifies `pages, `oldList, `numBaking, `calls, `trace
      ensures Valid() && old(numBaking) > 0
      ensures S() == old(S()).(pages := old(pages)[p := Frame(bytes, false, {c}, {})], baking := old(numBaking) - 1,
                               calls := old(calls)[c := Delivered(p)])
      ensures trace == old(trace) + [Publish(c)] && oldList == [p] + old(oldList)
      ensures Flat(initial, trace) == Flat(initial, old(trace))
    {
      Pending(c, p);
      Performed(Publish(c));
      ListedFront(oldList, youngList, pages.Keys, p);
      assert pages[p := Frame(bytes, false, {c}, {})].Keys == pages.Keys + {p};
      oldList, pages := [p] + oldList, pages[p := Frame(bytes, false, {c}, {})];
      numBaking := numBaking - 1;
      calls, trace := calls[c := Delivered(p)], trace + [Publish(c)];
    }

    /** A page that was read is not resident and its frame is counted. */
    lemma Pending(c: nat, p: PageId)
      requires Valid() && c in calls && calls[c].Loaded? && calls[c].page == p
      ensures p !in pages && numBaking > 0
    {
      RefinesFlatStore(initial, numPages, trace);
      assert CallOk(S(), c) && c in BakingCalls(S());
    }

    /** The page of a call that has missed is not resident. */
    lemma Missing(c: nat, p: PageId)
      requires Valid() && c in calls && calls[c] == Missed(p)
      ensures p !in pages
    {
      RefinesFlatStore(initial, numPages, trace);
      assert CallOk(S(), c);
    }

    /** One whole call.  It finishes exactly when the page lock is free and the page is resident, or
        there is room for a frame, or some page can be evicted; then the caller has pinned the latest
        bytes.  Where the program spins on the page lock nothing has changed; where it spins for a
        victim it has the page lock and nothing else. */
    method GetPage(c: nat, p: PageId) returns (done: bool)
      requires Valid() && c !in calls && forall q :: q in pages ==> c !in Pins(pages[q])
      modifies this
      ensures Valid() && Flat(initial, trace) == Flat(initial, old(trace))
      ensures done <==>
                && p !in old(pageLock)
                && (p in old(pages) || |old(pages)| + old(numBaking) < numPages || exists q :: Evictable(old(S()), q))
      ensures done ==> Holds(S(), c, p) && pages[p].bytes == Value(Flat(initial, trace), p)
      ensures done ==> IsDelivered(old(S()), S(), c, p, numPages)
      ensures !done && p in old(pageLock) ==> S() == old(S())
      ensures !done && p !in old(pageLock) ==>
                S() == old(S()).(locks := old(pageLock) + {p}, calls := old(calls)[c := Missed(p)])
    {
      ghost var s := S();
      done := LoadOrStoreLock(c, p);
      if !done { return; }
      done := Deliver(s, c, p);
      if !done { return; }
      Finish(c, p);
    }

    /** Pins the page where it is, or brings it in. */
    method Deliver(ghost s: State, c: nat, p: PageId) returns (done: bool)
      requires Valid() && c !in s.calls && p !in s.locks
      requires S() == s.(locks := s.locks + {p}, calls := s.calls[c := Claimed(p)])
      modifies this
      ensures Valid() && Flat(initial, trace) == Flat(initial, old(trace))
      ensures done <==> p in s.pages || |s.pages| + s.baking < numPages || exists q :: Evictable(s, q)
      ensures !done ==> S() == Claiming(s, c, p)
      ensures done ==> c in calls && calls[c] == Delivered(p) && IsDelivered(s, Releasing(S(), c, p), c, p, numPages)
    {
      var hit := GetPageFromPool(c, p);
      if hit {
        HitIsDelivered(s, c, p, numPages);
        return true;
      }
      assert s.calls[c := Claimed(p)][c := Missed(p)] == s.calls[c := Missed(p)];
      assert S() == Claiming(s, c, p);
      ClaimingEvicts(s, c, p);
      done := Bring(c, p);
      if done { BroughtIsDelivered(s, S(), c, p, numPages); }
    }

    /** The miss: a frame is found and emptied, the page is read into it and published. */
    method Bring(c: nat, p: PageId) returns (found: bool)
      requires Valid() && c in calls && calls[c] == Missed(p)
      modifies this
      ensures Valid() && Flat(initial, trace) == Flat(initial, old(trace))
      ensures found <==> |old(pages)| + old(numBaking) < numPages || exists q :: Evictable(old(S()), q)
      ensures !found ==> S() == old(S())
      ensures found ==> IsBrought(old(S()), S(), c, p, numPages)
    {
      ghost var s := S();
      Missing(c, p);
      var victim := EvictPage(c, p);
      if victim.NoVictim? { return false; }
      if victim.Victim? { EmptyVictim(s, c, p, victim); }
      assert CameIn(s, pages[p := ReadIn(S(), c, p)], disk, c, p, numPages);
      EmptiedIsBrought(s, S(), c, p, numPages);
      var bytes := ReadPage(c, p);
      PublishPage(c, p, bytes);
      return true;
    }

    /** The victim is written back and its frame is free for the page. */
    method EmptyVictim(ghost s: State, c: nat, p: PageId, victim: Victim)
      requires Valid() && victim.Victim? && IsTaken(s, S(), c, p, victim) && Evictable(s, victim.page) && p !in s.pages
      modifies this
      ensures Valid() && Flat(initial, trace) == Flat(initial, old(trace))
      ensures S() == s.(pages := pages, disk := disk, baking := s.baking + 1, calls := s.calls[c := Empty(p)])
      ensures TookPlace(s, pages[p := ReadIn(S(), c, p)], disk, c, p, victim.page)
    {
      WriteBack(c, p, victim);
      assert s.locks + {victim.page} - {victim.page} == s.locks;
      assert s.calls[c := Holding(p, victim.page, victim.bytes, victim.dirty)][c := Empty(p)] == s.calls[c := Empty(p)];
      VictimTookPlace(s, S(), c, p, victim);
    }

    /** Gives the page lock up; the caller has the page pinned. */
    method Finish(c: nat, p: PageId)
      requires Valid() && c in calls && calls[c] == Delivered(p)
      modifies `pageLock, `calls, `trace
      ensures Valid() && trace == old(trace) + [Return(c)] && Flat(initial, trace) == Flat(initial, old(trace))
      ensures S() == old(S()).(locks := old(pageLock) - {p}, calls := old(calls) - {c})
      ensures Holds(S(), c, p) && pages[p].bytes == Value(Flat(initial, trace), p)
    {
      DeliversLatest(initial, numPages, trace, c);
      Performed(Return(c));
      pageLock, calls, trace := pageLock - {p}, calls - {c}, trace + [Return(c)];
    }

    /** The holder of a pin changes the page. */
    method WritePage(c: nat, p: PageId, bytes: Data)
      requires Valid() && Holds(S(), c, p)
      modifies `pages, `trace
      ensures Valid() && trace == old(trace) + [Event.Write(c, p, bytes)] && Holds(S(), c, p)
      ensures pages == old(pages)[p := pages[p]] && pages[p].bytes == bytes && pages[p].dirty == old(pages)[p].dirty
      ensures pages[p].readers == old(pages)[p].readers - {c} && pages[p].writers == old(pages)[p].writers + {c}
    {
      Performed(Event.Write(c, p, bytes));
      var f := pages[p];
      assert pages[p := f].Keys == pages.Keys;
      pages := pages[p := f.(bytes := bytes, readers := f.readers - {c}, writers := f.writers + {c})];
      trace := trace + [Event.Write(c, p, bytes)];
    }

    /** The mark is set before the pin goes. */
    method UnpinPage(c: nat, p: PageId, setDirty: bool)
      requires Valid() && Holds(S(), c, p) && (c in pages[p].writers ==> setDirty)
      modifies `pages, `trace
      ensures Valid() && trace == old(trace) + [Event.Unpin(c, p, setDirty)] && !Holds(S(), c, p)
      ensures p in pages && pages == old(pages)[p := pages[p]] && Pins(pages[p]) == Pins(old(pages)[p]) - {c}
      ensures pages[p].bytes == old(pages)[p].bytes && (pages[p].dirty <==> old(pages)[p].dirty || setDirty)
    {
      Performed(Event.Unpin(c, p, setDirty));
      var f := pages[p];
      if setDirty { f := f.(dirty := true); }
      assert pages[p := f].Keys == pages.Keys;
      pages := pages[p := f.(readers := f.readers - {c}, writers := f.writers - {c})];
      trace := trace + [Event.Unpin(c, p, setDirty)];
    }

    /** The dirty pages of the two lists whose log records are durable. */
    method CollectDirty(flushedUntil: nat) returns (dirtyPages: seq<PageId>)
      requires Valid()
      ensures forall p :: p in dirtyPages <==> p in pages && Flushable(pages[p], flushedUntil)
      ensures NoRepeats(dirtyPages)
    {
      forall p ensures p in pages <==> p in oldList || p in youngList { ListedIn(oldList, youngList, pages.Keys, p); }
      ListedOnce(oldList, youngList, pages.Keys);
      var list := oldList + youngList;
      assert forall p :: p in list <==> p in pages;
      dirtyPages := [];
      for i := 0 to |list|
        invariant forall p :: p in dirtyPages <==> p in list[..i] && Flushable(pages[p], flushedUntil)
        invariant NoRepeats(dirtyPages)
      {
        var p := list[i];
        assert list[..i + 1] == list[..i] + [p] && p in list && p !in list[..i];
        if Flushable(pages[p], flushedUntil) { dirtyPages := dirtyPages + [p]; }
      }
      assert list[..|list|] == list;
    }

    method FlushFrame(p: PageId)
      requires Valid() && p in pages && pages[p].dirty
      modifies `pages, `disk, `trace
      ensures Valid() && Flat(initial, trace) == Flat(initial, old(trace))
      ensures pages == old(pages)[p := old(pages)[p].(dirty := false)] && disk == old(disk)[p := old(pages)[p].bytes]
    {
      Performed(Flush(p));
      assert pages[p := pages[p].(dirty := false)].Keys == pages.Keys;
      disk, pages, trace := disk[p := pages[p].bytes], pages[p := pages[p].(dirty := false)], trace + [Flush(p)];
    }

    /** Writes the dirty pages out whose page LSN is below the end of the durable log.  The others
        stay as they are, and no page changes. */
    method FlushAllPages(flushedUntil: nat)
      requires Valid()
      modifies `pages, `disk, `trace
      ensures Valid() && Flat(initial, trace) == Flat(initial, old(trace))
      ensures var done := FlushablePages(old(pages), flushedUntil);
              pages == FramesAfter(old(pages), done) && disk == DiskAfter(old(pages), old(disk), done)
      ensures forall p :: p in pages && pages[p].dirty <==>
                p in old(pages) && old(pages)[p].dirty && PageLsn(old(pages)[p].bytes) >= flushedUntil
    {
      var dirtyPages := CollectDirty(flushedUntil);
      ghost var done := {};
      NothingFlushed(pages, disk);
      for i := 0 to |dirtyPages|
        invariant Valid() && Flat(initial, trace) == Flat(initial, old(trace))
        invariant done == (set p | p in dirtyPages[..i])
        invariant pages == FramesAfter(old(pages), done) && disk == DiskAfter(old(pages), old(disk), done)
      {
        var p := dirtyPages[i];
        assert dirtyPages[..i + 1] == dirtyPages[..i] + [p];
        assert p in dirtyPages && p !in dirtyPages[..i];
        OneMoreFlushed(old(pages), old(disk), done, p);
        FlushFrame(p);
        done := done + {p};
      }
      assert dirtyPages[..|dirtyPages|] == dirtyPages;
      assert done == FlushablePages(old(pages), flushedUntil);
    }
  }
}
