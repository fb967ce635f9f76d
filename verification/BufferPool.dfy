/** One shard of the buffer pool as a state machine: many `GetPage` calls in their stages, unpins,
    writes to pinned pages and page flushes, in any interleaving and without I/O failures. */
module BufferPool {
  type PageId = nat
  type Data = seq<nat>

  /** A resident frame.  A pin is identified by the call that delivered it; a writer has changed the
      page and still has to unpin it as dirty. */
  datatype Frame = Frame(bytes: Data, dirty: bool, readers: set<nat>, writers: set<nat>)

  /** How far a call of `GetPage` has come; every stage holds the page lock of `page`. */
  datatype Call =
    | Claimed(page: PageId)
    | Missed(page: PageId)
    | Holding(page: PageId, victim: PageId, bytes: Data, dirty: bool)
    | Empty(page: PageId)
    | Loaded(page: PageId, bytes: Data)
    | Delivered(page: PageId)

  datatype State = State(pages: map<PageId, Frame>, locks: set<PageId>, calls: map<nat, Call>, baking: nat, disk: map<PageId, Data>)

  const ZEROS: Data := []

  function Value(m: map<PageId, Data>, p: PageId): Data { if p in m then m[p] else ZEROS }

  function Open(disk: map<PageId, Data>): State { State(map[], {}, map[], 0, disk) }

  datatype Event =
    | Claim(c: nat, page: PageId) | Hit(c: nat) | Miss(c: nat)
    | TakeFresh(c: nat) | TakeVictim(c: nat, victim: PageId)
    | WriteVictim(c: nat) | ReleaseVictim(c: nat) | Read(c: nat) | Publish(c: nat) | Return(c: nat)
    | Write(c: nat, page: PageId, bytes: Data)
    | Unpin(c: nat, page: PageId, setDirty: bool)
    | Flush(page: PageId)

  function Pins(f: Frame): set<nat> { f.readers + f.writers }

  /** A call that has returned and still holds its pin. */
  predicate Holds(s: State, c: nat, p: PageId) { p in s.pages && c in Pins(s.pages[p]) && c !in s.calls }

  predicate At(s: State, c: nat) { c in s.calls }

  predicate Full(s: State, cap: nat) { |s.pages| + s.baking >= cap }

  predicate Enabled(s: State, e: Event, cap: nat) {
    match e
    case Claim(c, p) => c !in s.calls && (forall q :: q in s.pages ==> c !in Pins(s.pages[q])) && p !in s.locks
    case Hit(c) => c in s.calls && s.calls[c].Claimed? && s.calls[c].page in s.pages
    case Miss(c) => c in s.calls && s.calls[c].Claimed? && s.calls[c].page !in s.pages
    case TakeFresh(c) => c in s.calls && s.calls[c].Missed? && !Full(s, cap)
    case TakeVictim(c, v) =>
      c in s.calls && s.calls[c].Missed? && Full(s, cap) && v in s.pages && Pins(s.pages[v]) == {} && v !in s.locks
    case WriteVictim(c) => c in s.calls && s.calls[c].Holding? && s.calls[c].dirty
    case ReleaseVictim(c) => c in s.calls && s.calls[c].Holding? && !s.calls[c].dirty
    case Read(c) => c in s.calls && s.calls[c].Empty?
    case Publish(c) => c in s.calls && s.calls[c].Loaded?
    case Return(c) => c in s.calls && s.calls[c].Delivered?
    case Write(c, p, _) => Holds(s, c, p)
    case Unpin(c, p, setDirty) => Holds(s, c, p) && (c in s.pages[p].writers ==> setDirty)
    case Flush(p) => p in s.pages && s.pages[p].dirty
  }

  function After(s: State, e: Event, cap: nat): State
    requires Enabled(s, e, cap)
  {
    match e
    case Claim(c, p) => s.(locks := s.locks + {p}, calls := s.calls[c := Claimed(p)])
    case Hit(c) =>
      var p := s.calls[c].page;
      var f := s.pages[p];
      s.(pages := s.pages[p := f.(readers := f.readers + {c})], calls := s.calls[c := Delivered(p)])
    case Miss(c) => s.(calls := s.calls[c := Missed(s.calls[c].page)])
    case TakeFresh(c) => s.(calls := s.calls[c := Empty(s.calls[c].page)], baking := s.baking + 1)
    case TakeVictim(c, v) =>
      s.(pages := s.pages - {v}, locks := s.locks + {v}, baking := s.baking + 1,
         calls := s.calls[c := Holding(s.calls[c].page, v, s.pages[v].bytes, s.pages[v].dirty)])
    case WriteVictim(c) =>
      s.(disk := s.disk[s.calls[c].victim := s.calls[c].bytes], calls := s.calls[c := s.calls[c].(dirty := false)])
    case ReleaseVictim(c) =>
      s.(locks := s.locks - {s.calls[c].victim}, calls := s.calls[c := Empty(s.calls[c].page)])
    case Read(c) => s.(calls := s.calls[c := Loaded(s.calls[c].page, Value(s.disk, s.calls[c].page))])
    case Publish(c) =>
      var p := s.calls[c].page;
      s.(pages := s.pages[p := Frame(s.calls[c].bytes, false, {c}, {})],
         calls := s.calls[c := Delivered(p)], baking := if s.baking > 0 then s.baking - 1 else 0)
    case Return(c) => s.(locks := s.locks - {s.calls[c].page}, calls := s.calls - {c})
    case Write(c, p, b) =>
      var f := s.pages[p];
      s.(pages := s.pages[p := f.(bytes := b, readers := f.readers - {c}, writers := f.writers + {c})])
    case Unpin(c, p, setDirty) =>
      var f := s.pages[p];
      s.(pages := s.pages[p := Frame(f.bytes, f.dirty || setDirty, f.readers - {c}, f.writers - {c})])
    case Flush(p) => s.(disk := s.disk[p := s.pages[p].bytes], pages := s.pages[p := s.pages[p].(dirty := false)])
  }

  datatype Outcome = None | Some(s: State)

  function Run(disk: map<PageId, Data>, cap: nat, es: seq<Event>): Outcome {
    if es == [] then Some(Open(disk))
    else
      match Run(disk, cap, es[..|es| - 1])
      case None => None
      case Some(s) => if Enabled(s, es[|es| - 1], cap) then Some(After(s, es[|es| - 1], cap)) else None
  }

  /** The flat page store: each page holds what was written last. */
  function Flat(disk: map<PageId, Data>, es: seq<Event>): map<PageId, Data> {
    if es == [] then disk else Updated(Flat(disk, es[..|es| - 1]), es[|es| - 1])
  }

  function Updated(flat: map<PageId, Data>, e: Event): map<PageId, Data> {
    if e.Write? then flat[e.page := e.bytes] else flat
  }

  // ---------------------------------------------------------------- the invariant

  /** The pages a call has locked. */
  predicate Owns(s: State, c: nat, p: PageId) {
    c in s.calls && (s.calls[c].page == p || (s.calls[c].Holding? && s.calls[c].victim == p))
  }

  predicate Baking(k: Call) { k.Holding? || k.Empty? || k.Loaded? }

  function BakingCalls(s: State): set<nat> { set c | c in s.calls && Baking(s.calls[c]) }

  /** Locks have one owner. */
  predicate Apart(s: State, c: nat, d: nat, p: PageId) {
    && (c != d && Owns(s, c, p) ==> !Owns(s, d, p))
    && (Owns(s, c, p) ==> p in s.locks)
  }

  /** A page on its way in or out is not resident, and bytes that are not dirty are those on disk. */
  predicate CallOk(s: State, c: nat) {
    c in s.calls ==>
      var k := s.calls[c];
      && (k.Missed? || Baking(k) ==> k.page !in s.pages)
      && (k.Holding? ==> k.victim !in s.pages && k.victim != k.page && (k.dirty || k.bytes == Value(s.disk, k.victim)))
      && (k.Loaded? ==> k.bytes == Value(s.disk, k.page))
      && (k.Delivered? ==> k.page in s.pages && c in s.pages[k.page].readers)
  }

  predicate FrameOk(s: State, p: PageId) {
    p in s.pages ==>
      var f := s.pages[p];
      && f.readers !! f.writers
      && (!f.dirty && f.writers == {} ==> f.bytes == Value(s.disk, p))
  }

  /** A call in progress holds no pin but the one it delivers. */
  predicate PinOk(s: State, c: nat, p: PageId) {
    c in s.calls && p in s.pages && c in Pins(s.pages[p]) ==> s.calls[c] == Delivered(p)
  }

  /** `b` is what the page holds: in its frame, in the frame of a call that evicts it, else on disk. */
  ghost predicate Latest(s: State, p: PageId, b: Data) {
    && (p in s.pages ==> s.pages[p].bytes == b)
    && (forall c {:trigger Evicts(s, c, p)} :: Evicts(s, c, p) ==> s.calls[c].bytes == b)
    && (p !in s.pages && (forall c {:trigger Evicts(s, c, p)} :: !Evicts(s, c, p)) ==> Value(s.disk, p) == b)
  }

  predicate Evicts(s: State, c: nat, p: PageId) { c in s.calls && s.calls[c].Holding? && s.calls[c].victim == p }

  /** Calls and frames agree. */
  ghost predicate Parts(s: State) {
    && (forall c, d, p {:trigger Apart(s, c, d, p)} :: Apart(s, c, d, p))
    && (forall c {:trigger CallOk(s, c)} :: CallOk(s, c))
    && (forall p {:trigger FrameOk(s, p)} :: FrameOk(s, p))
    && (forall c, p {:trigger PinOk(s, c, p)} :: PinOk(s, c, p))
  }

  /** Resident and in-flight frames are counted and stay within the capacity. */
  predicate Counted(s: State, cap: nat) { s.baking == |BakingCalls(s)| && |s.pages| + s.baking <= cap }

  // ---------------------------------------------------------------- counting

  lemma PagesLess(pages: map<PageId, Frame>, p: PageId)
    requires p in pages
    ensures |pages - {p}| == |pages| - 1
  {
    assert (pages - {p}).Keys == pages.Keys - {p};
  }

  lemma PagesMore(pages: map<PageId, Frame>, p: PageId, f: Frame)
    ensures |pages[p := f]| == if p in pages then |pages| else |pages| + 1
  {
    assert pages[p := f].Keys == pages.Keys + {p};
    if p in pages { assert pages.Keys + {p} == pages.Keys; }
  }

  // ---------------------------------------------------------------- what every step keeps

  /** The call of an event, for the steps of `GetPage`. */
  predicate OfCall(e: Event) { !e.Write? && !e.Unpin? && !e.Flush? }

  /** The page an event locks; it was not locked before. */
  predicate Locks(e: Event, p: PageId) { (e.Claim? && p == e.page) || (e.TakeVictim? && p == e.victim) }

  lemma OwnsAfter(s: State, e: Event, cap: nat, c: nat, p: PageId)
    requires Enabled(s, e, cap) && Owns(After(s, e, cap), c, p)
    ensures Owns(s, c, p) || (OfCall(e) && c == e.c && Locks(e, p) && p !in s.locks)
  {
  }

  /** A page leaves the set of locked pages only together with its owner's claim. */
  lemma LockStays(s: State, e: Event, cap: nat, c: nat, p: PageId)
    requires Parts(s) && Enabled(s, e, cap) && Owns(After(s, e, cap), c, p)
    ensures p in After(s, e, cap).locks
  {
    OwnsAfter(s, e, cap, c, p);
    assert Apart(s, c, c, p);
    if OfCall(e) { assert Apart(s, c, e.c, p); }
    if e.ReleaseVictim? { assert CallOk(s, e.c); }
  }

  lemma ApartKept(s: State, e: Event, cap: nat, c: nat, d: nat, p: PageId)
    requires Parts(s) && Enabled(s, e, cap)
    ensures Apart(After(s, e, cap), c, d, p)
  {
    assert Apart(s, c, d, p) && Apart(s, d, c, p);
    if Owns(After(s, e, cap), c, p) {
      OwnsAfter(s, e, cap, c, p);
      LockStays(s, e, cap, c, p);
    }
    if Owns(After(s, e, cap), d, p) { OwnsAfter(s, e, cap, d, p); }
  }

  lemma FrameKept(s: State, e: Event, cap: nat, p: PageId)
    requires Parts(s) && Enabled(s, e, cap)
    ensures FrameOk(After(s, e, cap), p)
  {
    assert FrameOk(s, p);
    if OfCall(e) {
      assert CallOk(s, e.c);
      if e.c in s.calls { assert PinOk(s, e.c, s.calls[e.c].page); }
    }
  }

  lemma PinKept(s: State, e: Event, cap: nat, c: nat, p: PageId)
    requires Parts(s) && Enabled(s, e, cap)
    ensures PinOk(After(s, e, cap), c, p)
  {
    assert PinOk(s, c, p);
  }

  /** The call an event belongs to. */
  lemma OwnCallKept(s: State, e: Event, cap: nat)
    requires Parts(s) && Enabled(s, e, cap) && OfCall(e)
    ensures CallOk(After(s, e, cap), e.c)
  {
    assert CallOk(s, e.c);
    if e.TakeVictim? { assert FrameOk(s, e.victim); }
  }

  /** A call of another thread: its pages are locked, so nobody brings them in or takes them out. */
  lemma OtherCallKept(s: State, e: Event, cap: nat, c: nat)
    requires Parts(s) && Enabled(s, e, cap) && OfCall(e) && c != e.c && c in s.calls
    ensures CallOk(After(s, e, cap), c)
  {
    var k := s.calls[c];
    assert CallOk(s, c) && CallOk(s, e.c);
    assert Apart(s, c, e.c, k.page);
    if k.Holding? { assert Apart(s, c, e.c, k.victim); }
  }

  lemma UserStepKeepsCall(s: State, e: Event, cap: nat, c: nat)
    requires Parts(s) && Enabled(s, e, cap) && !OfCall(e) && c in s.calls
    ensures CallOk(After(s, e, cap), c)
  {
    assert CallOk(s, c);
    assert PinOk(s, c, s.calls[c].page);
  }

  lemma CallKept(s: State, e: Event, cap: nat, c: nat)
    requires Parts(s) && Enabled(s, e, cap)
    ensures CallOk(After(s, e, cap), c)
  {
    if OfCall(e) && c == e.c { OwnCallKept(s, e, cap); }
    else if c in s.calls {
      if OfCall(e) { OtherCallKept(s, e, cap, c); } else { UserStepKeepsCall(s, e, cap, c); }
    }
  }

  lemma PartsKept(s: State, e: Event, cap: nat)
    requires Parts(s) && Enabled(s, e, cap)
    ensures Parts(After(s, e, cap))
  {
    forall c, d, p ensures Apart(After(s, e, cap), c, d, p) { ApartKept(s, e, cap, c, d, p); }
    forall c ensures CallOk(After(s, e, cap), c) { CallKept(s, e, cap, c); }
    forall p ensures FrameOk(After(s, e, cap), p) { FrameKept(s, e, cap, p); }
    forall c, p ensures PinOk(After(s, e, cap), c, p) { PinKept(s, e, cap, c, p); }
  }

  /** One call more is baking in `s` than in `s'`. */
  lemma BakingRest(s: State, s': State, c: nat)
    requires c in s.calls && Baking(s.calls[c]) && c in s'.calls && !Baking(s'.calls[c])
    requires forall d {:trigger d in s'.calls} :: d != c ==> (d in s'.calls <==> d in s.calls)
    requires forall d {:trigger d in s'.calls} :: d != c && d in s.calls && d in s'.calls ==> s'.calls[d] == s.calls[d]
    ensures |BakingCalls(s')| == |BakingCalls(s)| - 1
  {
    forall d ensures d in BakingCalls(s') <==> d in BakingCalls(s) - {c} {
      if d != c { assert d in s'.calls <==> d in s.calls; }
    }
    assert BakingCalls(s') == BakingCalls(s) - {c};
  }

  /** The steps that move a frame between resident and in flight. */
  predicate Moves(e: Event) { e.TakeFresh? || e.TakeVictim? || e.Publish? }

  lemma MoveCounted(s: State, e: Event, cap: nat)
    requires Parts(s) && Counted(s, cap) && Enabled(s, e, cap) && Moves(e)
    ensures Counted(After(s, e, cap), cap)
  {
    if e.Publish? { PublishCounted(s, e.c, cap); } else { TakeCounted(s, e, cap); }
  }

  lemma PublishCounted(s: State, c: nat, cap: nat)
    requires Parts(s) && Counted(s, cap) && Enabled(s, Publish(c), cap)
    ensures Counted(After(s, Publish(c), cap), cap)
  {
    var s', p := After(s, Publish(c), cap), s.calls[c].page;
    assert CallOk(s, c) && c in BakingCalls(s);
    BakingRest(s, s', c);
    PagesMore(s.pages, p, s'.pages[p]);
  }

  lemma TakeCounted(s: State, e: Event, cap: nat)
    requires Counted(s, cap) && Enabled(s, e, cap) && (e.TakeFresh? || e.TakeVictim?)
    ensures Counted(After(s, e, cap), cap)
  {
    var s' := After(s, e, cap);
    BakingRest(s', s, e.c);
    if e.TakeVictim? { PagesLess(s.pages, e.victim); }
  }

  lemma StayCounted(s: State, e: Event, cap: nat)
    requires Enabled(s, e, cap) && !Moves(e)
    ensures After(s, e, cap).pages.Keys == s.pages.Keys
    ensures BakingCalls(After(s, e, cap)) == BakingCalls(s) && After(s, e, cap).baking == s.baking
  {
    var s' := After(s, e, cap);
    forall c ensures c in BakingCalls(s') <==> c in BakingCalls(s) {}
    forall p ensures p in s'.pages <==> p in s.pages {}
  }

  lemma CountKept(s: State, e: Event, cap: nat)
    requires Parts(s) && Counted(s, cap) && Enabled(s, e, cap)
    ensures Counted(After(s, e, cap), cap)
  {
    if Moves(e) { MoveCounted(s, e, cap); }
    else {
      StayCounted(s, e, cap);
      assert |After(s, e, cap).pages| == |After(s, e, cap).pages.Keys| && |s.pages| == |s.pages.Keys|;
    }
  }

  /** Only writes change what a page holds; eviction, write-back, reading and publishing do not. */
  lemma LatestKept(s: State, e: Event, cap: nat, p: PageId, b: Data)
    requires Parts(s) && Enabled(s, e, cap) && Latest(s, p, b)
    ensures Latest(After(s, e, cap), p, if e.Write? && e.page == p then e.bytes else b)
  {
    var s' := After(s, e, cap);
    if OfCall(e) {
      assert CallOk(s, e.c);
      forall c ensures Evicts(s', c, p) ==> s'.calls[c].bytes == b { EvictedKept(s, e, cap, p, b, c); }
      if p !in s'.pages && (forall c {:trigger Evicts(s', c, p)} :: !Evicts(s', c, p)) { DiskKept(s, e, cap, p, b); }
      if p in s'.pages { PublishedKept(s, e, cap, p, b); }
    } else {
      UserStepLatest(s, e, cap, p, b);
    }
  }

  lemma UserStepLatest(s: State, e: Event, cap: nat, p: PageId, b: Data)
    requires Parts(s) && Enabled(s, e, cap) && Latest(s, p, b) && !OfCall(e)
    ensures Latest(After(s, e, cap), p, if e.Write? && e.page == p then e.bytes else b)
  {
    var s' := After(s, e, cap);
    forall c ensures Evicts(s', c, p) <==> Evicts(s, c, p) {}
    if e.page == p { forall c ensures !Evicts(s, c, p) { assert CallOk(s, c); } }
  }

  lemma EvictedKept(s: State, e: Event, cap: nat, p: PageId, b: Data, c: nat)
    requires Parts(s) && Enabled(s, e, cap) && OfCall(e) && Latest(s, p, b)
    ensures Evicts(After(s, e, cap), c, p) ==> After(s, e, cap).calls[c].bytes == b
  {
    if Evicts(s, c, p) { assert s.calls[c].bytes == b; }
    if e.TakeVictim? && e.c == c && e.victim == p { assert s.pages[p].bytes == b; }
  }

  lemma PublishedKept(s: State, e: Event, cap: nat, p: PageId, b: Data)
    requires Parts(s) && Enabled(s, e, cap) && OfCall(e) && Latest(s, p, b) && p in After(s, e, cap).pages
    ensures After(s, e, cap).pages[p].bytes == b
  {
    assert CallOk(s, e.c);
    if p !in s.pages {
      forall c ensures !Evicts(s, c, p) { assert Apart(s, c, e.c, p) && CallOk(s, c); }
    }
  }

  lemma DiskKept(s: State, e: Event, cap: nat, p: PageId, b: Data)
    requires Parts(s) && Enabled(s, e, cap) && OfCall(e) && Latest(s, p, b)
    requires var s' := After(s, e, cap); p !in s'.pages && forall c {:trigger Evicts(s', c, p)} :: !Evicts(s', c, p)
    ensures Value(After(s, e, cap).disk, p) == b
  {
    var s' := After(s, e, cap);
    assert e.TakeVictim? ==> Evicts(s', e.c, e.victim);
    assert CallOk(s, e.c);
    if Evicts(s, e.c, p) {
      assert s.calls[e.c].bytes == b;
    } else {
      forall c ensures !Evicts(s, c, p) { assert !Evicts(s', c, p); }
    }
  }

  // ---------------------------------------------------------------- over every run

  ghost predicate Refines(s: State, flat: map<PageId, Data>) {
    forall p {:trigger Latest(s, p, Value(flat, p))} :: Latest(s, p, Value(flat, p))
  }

  /** The pool refines a flat page store: in every reachable state each page holds the bytes
      written last, resident and in-flight frames are within the capacity, and calls and frames
      agree. */
  lemma {:induction false} RefinesFlatStore(disk: map<PageId, Data>, cap: nat, es: seq<Event>)
    requires Run(disk, cap, es).Some?
    ensures var s := Run(disk, cap, es).s; Parts(s) && Counted(s, cap) && Refines(s, Flat(disk, es))
  {
    if es == [] {
      assert BakingCalls(Open(disk)) == {};
    } else {
      var n := |es| - 1;
      RefinesFlatStore(disk, cap, es[..n]);
      var s, e, flat := Run(disk, cap, es[..n]).s, es[n], Flat(disk, es[..n]);
      PartsKept(s, e, cap);
      CountKept(s, e, cap);
      forall p ensures Latest(After(s, e, cap), p, Value(Updated(flat, e), p)) {
        assert Latest(s, p, Value(flat, p));
        LatestKept(s, e, cap, p, Value(flat, p));
      }
    }
  }

  /** A page has one frame at most: while it is resident no call brings it in or evicts it, and no
      two calls work on it. */
  lemma OneFrame(disk: map<PageId, Data>, cap: nat, es: seq<Event>, c: nat, d: nat, p: PageId)
    requires Run(disk, cap, es).Some?
    ensures var s := Run(disk, cap, es).s;
            && (p in s.pages ==> !Evicts(s, c, p) && !(c in s.calls && s.calls[c].page == p && Baking(s.calls[c])))
            && (c != d && Owns(s, c, p) ==> !Owns(s, d, p))
  {
    RefinesFlatStore(disk, cap, es);
    var s := Run(disk, cap, es).s;
    assert CallOk(s, c) && Apart(s, c, d, p);
  }

  /** A call that is about to return has pinned the latest bytes of its page. */
  lemma DeliversLatest(disk: map<PageId, Data>, cap: nat, es: seq<Event>, c: nat)
    requires Run(disk, cap, es).Some? && Enabled(Run(disk, cap, es).s, Return(c), cap)
    ensures var s := Run(disk, cap, es).s; var p := s.calls[c].page;
            p in s.pages && s.pages[p].bytes == Value(Flat(disk, es), p) && Holds(After(s, Return(c), cap), c, p)
  {
    RefinesFlatStore(disk, cap, es);
    var s := Run(disk, cap, es).s;
    assert CallOk(s, c);
    assert Latest(s, s.calls[c].page, Value(Flat(disk, es), s.calls[c].page));
  }

  /** A pinned page is never evicted: its pin goes only when its holder unpins it. */
  lemma PinnedStays(disk: map<PageId, Data>, cap: nat, es: seq<Event>, e: Event, c: nat, p: PageId)
    requires Run(disk, cap, es).Some? && Enabled(Run(disk, cap, es).s, e, cap) && Holds(Run(disk, cap, es).s, c, p)
    ensures Holds(After(Run(disk, cap, es).s, e, cap), c, p) || (e.Unpin? && e.c == c && e.page == p)
  {
    RefinesFlatStore(disk, cap, es);
    var s := Run(disk, cap, es).s;
    if e.Publish? { assert CallOk(s, e.c); }
  }

  /** No update is lost: a page that is neither dirty, nor being changed, nor on its way out is on
      disk as it was written last. */
  lemma CleanIsStored(disk: map<PageId, Data>, cap: nat, es: seq<Event>, p: PageId)
    requires Run(disk, cap, es).Some?
    requires var s := Run(disk, cap, es).s;
             if p in s.pages then !s.pages[p].dirty && s.pages[p].writers == {}
             else forall c {:trigger Evicts(s, c, p)} :: Evicts(s, c, p) ==> !s.calls[c].dirty
    ensures Value(Run(disk, cap, es).s.disk, p) == Value(Flat(disk, es), p)
  {
    RefinesFlatStore(disk, cap, es);
    var s := Run(disk, cap, es).s;
    assert Latest(s, p, Value(Flat(disk, es), p)) && FrameOk(s, p);
    if p !in s.pages && exists c {:trigger Evicts(s, c, p)} :: Evicts(s, c, p) {
      var c :| Evicts(s, c, p);
      assert CallOk(s, c);
    }
  }

  // ---------------------------------------------------------------- the dirty-page snapshot

  /** The pages a checkpoint finds: it looks through the resident frames only. */
  function DirtyPages(s: State): set<PageId> { set p | p in s.pages && s.pages[p].dirty }

  /** Every page whose stored copy is not the latest is found. */
  ghost predicate FindsStale(s: State, flat: map<PageId, Data>) {
    forall p :: Value(s.disk, p) != Value(flat, p) ==> p in DirtyPages(s)
  }

  /** No call holds a victim that is still to be written. */
  predicate VictimsStored(s: State) {
    forall c :: c in s.calls && s.calls[c].Holding? && s.calls[c].dirty ==> s.calls[c].bytes == Value(s.disk, s.calls[c].victim)
  }

  /** No resident frame that is not marked dirty has been changed. */
  predicate ChangesMarked(s: State) {
    forall p :: p in s.pages && !s.pages[p].dirty ==> s.pages[p].bytes == Value(s.disk, p)
  }

  /** The dirty-page snapshot finds every page whose stored copy is not the latest if and only if
      no call holds a victim still to be written and no unmarked frame has been changed. */
  lemma SnapshotFindsStaleIff(disk: map<PageId, Data>, cap: nat, es: seq<Event>)
    requires Run(disk, cap, es).Some?
    ensures var s := Run(disk, cap, es).s;
            FindsStale(s, Flat(disk, es)) <==> VictimsStored(s) && ChangesMarked(s)
  {
    RefinesFlatStore(disk, cap, es);
    var s, flat := Run(disk, cap, es).s, Flat(disk, es);
    if FindsStale(s, flat) {
      forall c | c in s.calls && s.calls[c].Holding? ensures s.calls[c].bytes == Value(s.disk, s.calls[c].victim) {
        assert CallOk(s, c) && Evicts(s, c, s.calls[c].victim);
        assert Latest(s, s.calls[c].victim, Value(flat, s.calls[c].victim));
      }
      forall p | p in s.pages && !s.pages[p].dirty ensures s.pages[p].bytes == Value(s.disk, p) {
        assert Latest(s, p, Value(flat, p));
      }
    }
    if VictimsStored(s) && ChangesMarked(s) {
      forall p | Value(s.disk, p) != Value(flat, p) ensures p in DirtyPages(s) { FoundIfStale(s, p, Value(flat, p)); }
    }
  }

  lemma FoundIfStale(s: State, p: PageId, b: Data)
    requires Parts(s) && VictimsStored(s) && ChangesMarked(s) && Latest(s, p, b) && Value(s.disk, p) != b
    ensures p in DirtyPages(s)
  {
    forall c ensures !Evicts(s, c, p) {
      assert CallOk(s, c);
    }
  }

  lemma RunNext(disk: map<PageId, Data>, cap: nat, es: seq<Event>, s: State, e: Event) returns (es': seq<Event>, s': State)
    requires Run(disk, cap, es) == Some(s) && Enabled(s, e, cap)
    ensures es' == es + [e] && s' == After(s, e, cap) && Run(disk, cap, es') == Some(s')
    ensures Flat(disk, es') == Updated(Flat(disk, es), e)
  {
    es', s' := es + [e], After(s, e, cap);
    assert es'[..|es|] == es;
  }

  /** Call 0 reads page 7 into a pool of one frame ... */
  lemma Fetched() returns (es: seq<Event>, s: State)
    ensures Run(map[], 1, es) == Some(s) && Flat(map[], es) == map[]
    ensures s == State(map[], {7}, map[0 := Loaded(7, ZEROS)], 1, map[])
  {
    es, s := RunNext(map[], 1, [], Open(map[]), Claim(0, 7));
    es, s := RunNext(map[], 1, es, s, Miss(0));
    es, s := RunNext(map[], 1, es, s, TakeFresh(0));
    es, s := RunNext(map[], 1, es, s, Read(0));
    assert s.calls == map[0 := Loaded(7, ZEROS)];
  }

  /** ... and changes it ... */
  lemma Changed(bytes: Data) returns (es: seq<Event>, s: State)
    ensures Run(map[], 1, es) == Some(s) && Flat(map[], es) == map[7 := bytes]
    ensures s == State(map[7 := Frame(bytes, false, {}, {0})], {}, map[], 0, map[])
  {
    es, s := Fetched();
    es, s := RunNext(map[], 1, es, s, Publish(0));
    es, s := RunNext(map[], 1, es, s, Return(0));
    assert s == State(map[7 := Frame(ZEROS, false, {0}, {})], {}, map[], 0, map[]);
    es, s := RunNext(map[], 1, es, s, Write(0, 7, bytes));
    assert s.pages == map[7 := Frame(bytes, false, {}, {0})];
  }

  /** ... and unpins it ... */
  lemma Unpinned(bytes: Data) returns (es: seq<Event>, s: State)
    ensures Run(map[], 1, es) == Some(s) && Flat(map[], es) == map[7 := bytes]
    ensures s == State(map[7 := Frame(bytes, true, {}, {})], {}, map[], 0, map[])
  {
    es, s := Changed(bytes);
    es, s := RunNext(map[], 1, es, s, Unpin(0, 7, true));
    var none: set<nat> := {};
    assert none - {0} == none && {0} - {0} == none;
    assert s.pages[7] == Frame(bytes, true, {}, {});
    assert s.pages == map[7 := Frame(bytes, true, {}, {})];
  }

  /** ... and call 1 misses page 8 ... */
  lemma MissedOther(bytes: Data) returns (es: seq<Event>, s: State)
    ensures Run(map[], 1, es) == Some(s) && Flat(map[], es) == map[7 := bytes]
    ensures s == State(map[7 := Frame(bytes, true, {}, {})], {8}, map[1 := Missed(8)], 0, map[])
  {
    es, s := Unpinned(bytes);
    es, s := RunNext(map[], 1, es, s, Claim(1, 8));
    es, s := RunNext(map[], 1, es, s, Miss(1));
  }

  /** ... and takes its frame. */
  lemma Taken(bytes: Data) returns (es: seq<Event>, s: State)
    ensures Run(map[], 1, es) == Some(s) && Flat(map[], es) == map[7 := bytes]
    ensures s == State(map[], {7, 8}, map[1 := Holding(8, 7, bytes, true)], 1, map[])
  {
    es, s := MissedOther(bytes);
    es, s := RunNext(map[], 1, es, s, TakeVictim(1, 7));
    assert s.pages == map[] && s.calls == map[1 := Holding(8, 7, bytes, true)];
  }

  /** Both parts of the condition are needed: the snapshot misses a page between its change and the
      unpin that marks it, and again between its eviction and the write-back. */
  lemma SnapshotMissesPage(bytes: Data) returns (early: seq<Event>, late: seq<Event>)
    requires bytes != ZEROS
    ensures Run(map[], 1, early).Some? && !FindsStale(Run(map[], 1, early).s, Flat(map[], early))
    ensures VictimsStored(Run(map[], 1, early).s)
    ensures Run(map[], 1, late).Some? && !FindsStale(Run(map[], 1, late).s, Flat(map[], late))
    ensures ChangesMarked(Run(map[], 1, late).s)
  {
    var s: State;
    early, s := Changed(bytes);
    assert Value(s.disk, 7) == ZEROS && Value(Flat(map[], early), 7) == bytes && 7 !in DirtyPages(s);
    late, s := Taken(bytes);
    assert Value(s.disk, 7) == ZEROS && Value(Flat(map[], late), 7) == bytes && 7 !in DirtyPages(s);
  }
}
