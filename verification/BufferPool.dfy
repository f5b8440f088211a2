/** The buffer pool of util/buf_pool.js:11-66, as values: its state, its steps and what its runs keep. */
module BufferPool {

  /** A buffer is an object: two of the same length are still different. */
  datatype Buf = Buf(id: nat, len: nat)

  /** The lists of one size class. */
  datatype Entry = Entry(free: seq<Buf>, used: seq<Buf>)

  /** `maxFree` 0 means no limit, `overflowTs` 0 means no overflow; `nextId` names the buffers. */
  datatype Pool = Pool(maxFree: nat, ttl: nat, entries: map<nat, Entry>, freeSize: int, overflowTs: int, nextId: nat)

  function Start(maxFree: nat, ttl: nat): Pool {
    Pool(maxFree, if ttl != 0 then ttl else 300000, map[], 0, 0, 0)
  }

  // ----- The steps ------------------------------------------------------------------------------------

  function EntryOf(s: Pool, bytes: nat): Entry {
    if bytes in s.entries then s.entries[bytes] else Entry([], [])
  }

  /** The buffer that `alloc` gives: the last free one, or a new one. */
  function Given(s: Pool, bytes: nat): Buf {
    var e := EntryOf(s, bytes);
    if e.free == [] then Buf(s.nextId, bytes) else e.free[|e.free| - 1]
  }

  predicate Reuses(s: Pool, bytes: nat) {
    EntryOf(s, bytes).free != []
  }

  /** `alloc` (util/buf_pool.js:29-37). It leaves `freeSize` alone even when it takes a free buffer. */
  function Alloc(s: Pool, bytes: nat): Pool {
    var e, b := EntryOf(s, bytes), Given(s, bytes);
    if e.free == [] then
      s.(entries := s.entries[bytes := Entry([], e.used + [b])], nextId := s.nextId + 1)
    else
      s.(entries := s.entries[bytes := Entry(e.free[..|e.free| - 1], e.used + [b])])
  }

  /** `array.rm_elm`. */
  function RemoveFirst(list: seq<Buf>, b: Buf): seq<Buf> {
    if list == [] then [] else if list[0] == b then list[1..] else [list[0]] + RemoveFirst(list[1..], b)
  }

  /** `free` without the cut. */
  function Put(s: Pool, b: Buf): Pool
    requires b.len in s.entries
  {
    var e := s.entries[b.len];
    s.(entries := s.entries[b.len := Entry(e.free + [b], RemoveFirst(e.used, b))], freeSize := s.freeSize + b.len)
  }

  /** `free` (util/buf_pool.js:38-47). */
  ghost function Free(s: Pool, b: Buf, now: int): Pool
    requires b.len in s.entries
  {
    if s.maxFree != 0 then Cut(Put(s, b), now) else Put(s, b)
  }

  /** The overflow has lasted longer than the pool bears. */
  predicate Triggered(s: Pool, now: int) {
    s.freeSize > s.maxFree && s.overflowTs != 0 && now - s.overflowTs > s.ttl
  }

  /** `cut_free` (util/buf_pool.js:48-66). */
  ghost function Cut(s: Pool, now: int): Pool {
    if s.freeSize <= s.maxFree then s.(overflowTs := 0)
    else if s.overflowTs == 0 then s.(overflowTs := now)
    else if now - s.overflowTs <= s.ttl then s
    else
      var cut := Shorter(s.entries, s.maxFree, s.freeSize);
      s.(entries := cut, freeSize := s.freeSize - (Bytes(s.entries) - Bytes(cut)), overflowTs := 0)
  }

  /** Each free list keeps the fraction `num / den` of its length, rounded down. */
  function Kept(e: Entry, num: nat, den: nat): (r: Entry)
    requires num < den
  {
    ShareBound(|e.free|, num, den);
    Entry(e.free[..|e.free| * num / den], e.used)
  }

  function Shorter(entries: map<nat, Entry>, num: nat, den: nat): map<nat, Entry>
    requires num < den
  {
    map k | k in entries :: Kept(entries[k], num, den)
  }

  lemma ShareBound(n: nat, num: nat, den: nat)
    requires num < den
    ensures n * num / den * den <= n * num && 0 <= n * num / den <= n
  {
    var q := n * num / den;
    assert q * den <= n * num <= n * den;
    assert q <= n;
  }

  /** A list keeps its first buffers, and as many as the fraction allows. */
  lemma KeptMost(e: Entry, num: nat, den: nat)
    requires num < den
    ensures Kept(e, num, den).used == e.used && Kept(e, num, den).free <= e.free
    ensures var n, m := |e.free|, |Kept(e, num, den).free|; m * den <= n * num < (m + 1) * den
  {
    ShareBound(|e.free|, num, den);
    Quotient(|e.free| * num, den);
  }

  lemma Quotient(a: nat, den: nat)
    requires den > 0
    ensures a / den * den <= a < (a / den + 1) * den
  {
    assert a == a / den * den + a % den;
  }

  /** What is freed last is given first, and a new buffer is made only when none is free. */
  lemma LastInFirstOut(s: Pool, b: Buf, bytes: nat)
    requires b.len in s.entries
    ensures Given(Put(s, b), b.len) == b
    ensures Alloc(s, bytes).nextId == s.nextId + if Reuses(s, bytes) then 0 else 1
    ensures !Reuses(s, bytes) ==> Given(s, bytes).id == s.nextId
  {
  }

  // ----- The bytes on the free lists --------------------------------------------------------------------

  ghost function BytesOf(entries: map<nat, Entry>, keys: set<nat>): nat
    requires keys <= entries.Keys
  {
    if keys == {} then 0
    else
      var k :| k in keys;
      k * |entries[k].free| + BytesOf(entries, keys - {k})
  }

  ghost function Bytes(entries: map<nat, Entry>): nat {
    BytesOf(entries, entries.Keys)
  }

  lemma {:induction false} BytesPick(entries: map<nat, Entry>, keys: set<nat>, k: nat)
    requires k in keys && keys <= entries.Keys
    ensures BytesOf(entries, keys) == k * |entries[k].free| + BytesOf(entries, keys - {k})
    decreases keys
  {
    var p :| p in keys && BytesOf(entries, keys) == p * |entries[p].free| + BytesOf(entries, keys - {p});
    if p != k {
      BytesPick(entries, keys - {p}, k);
      BytesPick(entries, keys - {k}, p);
      assert keys - {p} - {k} == keys - {k} - {p};
    }
  }

  lemma {:induction false} BytesSame(a: map<nat, Entry>, b: map<nat, Entry>, keys: set<nat>)
    requires keys <= a.Keys && keys <= b.Keys && forall k :: k in keys ==> |a[k].free| == |b[k].free|
    ensures BytesOf(a, keys) == BytesOf(b, keys)
    decreases keys
  {
    if keys != {} {
      var k :| k in keys;
      BytesPick(a, keys, k);
      BytesPick(b, keys, k);
      BytesSame(a, b, keys - {k});
    }
  }

  lemma BytesUpdate(a: map<nat, Entry>, k: nat, e: Entry)
    ensures Bytes(a[k := e]) == Bytes(a) - (if k in a then k * |a[k].free| else 0) + k * |e.free|
  {
    var b := a[k := e];
    BytesPick(b, b.Keys, k);
    assert b.Keys - {k} == a.Keys - {k};
    BytesSame(a, b, a.Keys - {k});
    if k in a {
      BytesPick(a, a.Keys, k);
    } else {
      assert a.Keys - {k} == a.Keys;
    }
  }

  /** Cutting every list to a share of its length cuts the sum at least to that share. */
  lemma {:induction false} BytesShare(entries: map<nat, Entry>, keys: set<nat>, num: nat, den: nat)
    requires num < den && keys <= entries.Keys
    ensures BytesOf(Shorter(entries, num, den), keys) * den <= BytesOf(entries, keys) * num
    decreases keys
  {
    var cut := Shorter(entries, num, den);
    assert cut.Keys == entries.Keys;
    if keys != {} {
      var k :| k in keys;
      BytesPick(entries, keys, k);
      BytesPick(cut, keys, k);
      BytesShare(entries, keys - {k}, num, den);
      ShareBound(|entries[k].free|, num, den);
      ShareStep(k, |entries[k].free|, |entries[k].free| * num / den,
        BytesOf(entries, keys - {k}), BytesOf(cut, keys - {k}), num, den);
    }
  }

  lemma ShareStep(k: nat, n: nat, m: nat, rest: nat, cut: nat, num: nat, den: nat)
    requires m * den <= n * num && cut * den <= rest * num
    ensures (k * m + cut) * den <= (k * n + rest) * num
  {
    assert k * (m * den) <= k * (n * num);
    assert (k * m + cut) * den == k * (m * den) + cut * den;
    assert (k * n + rest) * num == k * (n * num) + rest * num;
  }

  // ----- What every step keeps --------------------------------------------------------------------------

  /** The buffers of a size class, with how often they are listed. */
  function Listed(e: Entry): multiset<Buf> {
    multiset(e.free) + multiset(e.used)
  }

  /** A size class: its own buffers only, each of them listed once, either free or used. */
  predicate EntryFine(e: Entry, bytes: nat, nextId: nat) {
    forall b :: b in Listed(e) ==> Listed(e)[b] == 1 && b.len == bytes && b.id < nextId
  }

  /** `drift` is what `freeSize` counts beyond the bytes of the free lists. */
  ghost predicate Inv(s: Pool, drift: nat) {
    && (forall k {:trigger s.entries[k]} :: k in s.entries ==> EntryFine(s.entries[k], k, s.nextId))
    && s.freeSize == Bytes(s.entries) + drift
    && (s.overflowTs != 0 ==> 0 < s.maxFree < s.freeSize)
  }

  lemma StartInv(maxFree: nat, ttl: nat)
    ensures Inv(Start(maxFree, ttl), 0)
  {
  }

  lemma FineGrows(e: Entry, bytes: nat, n: nat, m: nat)
    requires EntryFine(e, bytes, n) && n <= m
    ensures EntryFine(e, bytes, m)
  {
  }

  lemma AllocFine(e: Entry, bytes: nat, nextId: nat)
    requires EntryFine(e, bytes, nextId)
    ensures EntryFine(Entry(e.free, e.used + [Buf(nextId, bytes)]), bytes, nextId + 1)
    ensures e.free != [] ==> EntryFine(Entry(e.free[..|e.free| - 1], e.used + [e.free[|e.free| - 1]]), bytes, nextId)
  {
    var b := Buf(nextId, bytes);
    assert Listed(Entry(e.free, e.used + [b])) == Listed(e) + multiset{b};
    assert b !in Listed(e);
    if e.free != [] {
      var front, c := e.free[..|e.free| - 1], e.free[|e.free| - 1];
      assert e.free == front + [c];
      assert Listed(Entry(front, e.used + [c])) == Listed(e);
    }
  }

  /** `alloc` makes no buffer both free and used; reusing one lets `freeSize` drift by its length. */
  lemma AllocKeeps(s: Pool, bytes: nat, drift: nat)
    requires Inv(s, drift)
    ensures Inv(Alloc(s, bytes), drift + if Reuses(s, bytes) then bytes else 0)
    ensures Given(s, bytes).len == bytes && Given(s, bytes) in Alloc(s, bytes).entries[bytes].used
    ensures bytes in s.entries ==> Given(s, bytes) !in s.entries[bytes].used
  {
    hide EntryFine;
    var e, t := EntryOf(s, bytes), Alloc(s, bytes);
    assert EntryFine(e, bytes, s.nextId) by {
      NoneFine(bytes, s.nextId);
    }
    AllocFine(e, bytes, s.nextId);
    BytesUpdate(s.entries, bytes, t.entries[bytes]);
    forall k | k in t.entries ensures EntryFine(t.entries[k], k, t.nextId) {
      if k != bytes {
        FineGrows(s.entries[k], k, s.nextId, t.nextId);
      }
    }
    GivenNotUsed(s, bytes);
  }

  lemma NoneFine(bytes: nat, nextId: nat)
    ensures EntryFine(Entry([], []), bytes, nextId)
  {
  }

  lemma GivenNotUsed(s: Pool, bytes: nat)
    requires EntryFine(EntryOf(s, bytes), bytes, s.nextId)
    ensures Given(s, bytes) !in EntryOf(s, bytes).used && Given(s, bytes).len == bytes
  {
    var e := EntryOf(s, bytes);
    if e.free == [] {
      assert Given(s, bytes) in Listed(e) <==> Given(s, bytes) in e.used;
    } else {
      assert Given(s, bytes) in e.free;
      assert Listed(e)[Given(s, bytes)] == 1;
    }
  }

  lemma {:induction false} RemoveFirstListed(list: seq<Buf>, b: Buf)
    ensures multiset(RemoveFirst(list, b)) == multiset(list) - multiset{b}
  {
    if list != [] {
      var first, rest := list[0], list[1..];
      assert list == [first] + rest && multiset(list) == multiset{first} + multiset(rest);
      RemoveFirstListed(rest, b);
      if first != b {
        assert multiset([first] + RemoveFirst(rest, b)) == multiset{first} + multiset(RemoveFirst(rest, b));
      }
    }
  }

  /** Freeing keeps every buffer listed once exactly when the buffer is not free already. */
  lemma PutFine(e: Entry, b: Buf, nextId: nat)
    requires EntryFine(e, b.len, nextId) && b.id < nextId
    ensures EntryFine(Entry(e.free + [b], RemoveFirst(e.used, b)), b.len, nextId) <==> b !in e.free
  {
    RemoveFirstListed(e.used, b);
    hide RemoveFirst;
    var after := Entry(e.free + [b], RemoveFirst(e.used, b));
    assert Listed(after) == multiset(e.free) + multiset{b} + (multiset(e.used) - multiset{b});
    assert b in Listed(after);
    forall c | c != b ensures Listed(after)[c] == Listed(e)[c] {
    }
  }

  /** The buffer goes from one list to the other, and the count follows. */
  lemma PutBooks(s: Pool, b: Buf, drift: nat)
    requires Inv(s, drift) && b.len in s.entries
    ensures var t := Put(s, b); var e := s.entries[b.len];
      && t.entries == s.entries[b.len := Entry(e.free + [b], RemoveFirst(e.used, b))]
      && t.freeSize == Bytes(t.entries) + drift && t.freeSize == s.freeSize + b.len && t.nextId == s.nextId
  {
    hide EntryFine, RemoveFirst, Bytes;
    var e := s.entries[b.len];
    BytesUpdate(s.entries, b.len, Entry(e.free + [b], RemoveFirst(e.used, b)));
    assert b.len * |e.free + [b]| == b.len * |e.free| + b.len;
  }

  lemma PutKeeps(s: Pool, b: Buf, drift: nat)
    requires Inv(s, drift) && b.len in s.entries && b.id < s.nextId
    ensures b !in s.entries[b.len].free ==> Inv(Put(s, b).(overflowTs := 0), drift)
    ensures b in s.entries[b.len].free ==> !Inv(Put(s, b).(overflowTs := 0), drift)
    ensures Put(s, b).freeSize == s.freeSize + b.len
  {
    PutBooks(s, b, drift);
    hide EntryFine, RemoveFirst, Bytes, Put;
    var e, t := s.entries[b.len], Put(s, b).(overflowTs := 0);
    PutFine(e, b, s.nextId);
    if b in e.free {
      assert b.len in t.entries && !EntryFine(t.entries[b.len], b.len, t.nextId);
    } else {
      forall k | k in t.entries ensures EntryFine(t.entries[k], k, t.nextId) {
        assert k != b.len ==> t.entries[k] == s.entries[k] && EntryFine(s.entries[k], k, s.nextId);
      }
    }
  }

  // ----- The cut ----------------------------------------------------------------------------------------

  lemma PrefixFine(e: Entry, bytes: nat, nextId: nat, n: nat)
    requires EntryFine(e, bytes, nextId) && n <= |e.free|
    ensures EntryFine(Entry(e.free[..n], e.used), bytes, nextId)
  {
    var r := Entry(e.free[..n], e.used);
    assert e.free == e.free[..n] + e.free[n..];
    assert Listed(e) == Listed(r) + multiset(e.free[n..]);
    hide Listed;
    forall b | b in Listed(r) ensures Listed(r)[b] == 1 && b.len == bytes && b.id < nextId {
      assert Listed(e)[b] == Listed(r)[b] + multiset(e.free[n..])[b];
      assert b in Listed(e) && Listed(e)[b] == 1;
    }
  }

  lemma KeptFine(e: Entry, bytes: nat, nextId: nat, num: nat, den: nat)
    requires num < den && EntryFine(e, bytes, nextId)
    ensures EntryFine(Kept(e, num, den), bytes, nextId)
  {
    hide EntryFine;
    ShareBound(|e.free|, num, den);
    PrefixFine(e, bytes, nextId, |e.free| * num / den);
  }

  /** A cut drops free buffers only, from the ends of their lists, and `freeSize` follows. */
  lemma CutKeeps(s: Pool, now: int, drift: nat)
    requires Inv(s.(overflowTs := 0), drift) && s.maxFree != 0
    ensures Inv(Cut(s, now), drift)
  {
    hide EntryFine, Kept;
    if s.freeSize > s.maxFree {
      var cut := Shorter(s.entries, s.maxFree, s.freeSize);
      forall k | k in cut ensures EntryFine(cut[k], k, s.nextId) {
        KeptFine(s.entries[k], k, s.nextId, s.maxFree, s.freeSize);
      }
    }
  }

  /** After every triggered cut the bytes that are really free are at most the limit. */
  lemma CutFits(s: Pool, now: int, drift: nat)
    requires Inv(s.(overflowTs := 0), drift) && Triggered(s, now)
    ensures Bytes(Cut(s, now).entries) <= s.maxFree
  {
    hide EntryFine, Kept;
    var cut := Shorter(s.entries, s.maxFree, s.freeSize);
    assert cut.Keys == s.entries.Keys;
    BytesShare(s.entries, s.entries.Keys, s.maxFree, s.freeSize);
    Divide(Bytes(cut), Bytes(s.entries), s.maxFree, s.freeSize);
  }

  lemma Divide(a: nat, b: nat, num: nat, den: nat)
    requires a * den <= b * num && b <= den && den > 0
    ensures a <= num
  {
    assert b * num <= den * num;
    assert a * den <= num * den;
  }

  // ----- Runs -------------------------------------------------------------------------------------------

  datatype Op = AllocOp(bytes: nat) | FreeOp(buf: Buf, now: int)

  /** A caller gives back what it was given, and has not given back since. */
  predicate Legal(s: Pool, op: Op) {
    op.FreeOp? ==> op.buf.len in s.entries && op.buf in s.entries[op.buf.len].used
  }

  ghost function Next(s: Pool, op: Op): Pool
    requires Legal(s, op)
  {
    match op
    case AllocOp(bytes) => Alloc(s, bytes)
    case FreeOp(b, now) => Free(s, b, now)
  }

  /** The states of a run. */
  ghost predicate Run(states: seq<Pool>, ops: seq<Op>) {
    |states| == |ops| + 1 &&
    forall i :: 0 <= i < |ops| ==> Legal(states[i], ops[i]) && states[i + 1] == Next(states[i], ops[i])
  }

  /** The bytes of the buffers that `alloc` has taken from the free lists. */
  function Reused(states: seq<Pool>, ops: seq<Op>): nat
    requires |states| >= |ops|
  {
    if ops == [] then 0
    else
      var n := |ops| - 1;
      Reused(states, ops[..n]) + if ops[n].AllocOp? && Reuses(states[n], ops[n].bytes) then ops[n].bytes else 0
  }

  lemma UsedIsNotFree(e: Entry, b: Buf, nextId: nat)
    requires EntryFine(e, b.len, nextId) && b in e.used
    ensures b !in e.free && b.id < nextId
  {
    assert b in Listed(e) && Listed(e)[b] == multiset(e.free)[b] + multiset(e.used)[b];
  }

  lemma NextKeeps(s: Pool, op: Op, drift: nat)
    requires Inv(s, drift) && Legal(s, op)
    ensures Inv(Next(s, op), drift + if op.AllocOp? && Reuses(s, op.bytes) then op.bytes else 0)
  {
    hide EntryFine, Cut;
    match op
    case AllocOp(bytes) => AllocKeeps(s, bytes, drift);
    case FreeOp(b, now) =>
      UsedIsNotFree(s.entries[b.len], b, s.nextId);
      PutKeeps(s, b, drift);
      if s.maxFree != 0 {
        CutKeeps(Put(s, b), now, drift);
      }
  }

  /**
   In every run no buffer is both free and used or listed twice, and `freeSize` is the bytes on the free
   lists plus the bytes of all buffers that were ever reused: it never counts too little.
  */
  lemma {:induction false} RunKeeps(states: seq<Pool>, ops: seq<Op>, maxFree: nat, ttl: nat)
    requires Run(states, ops) && states[0] == Start(maxFree, ttl)
    ensures Inv(states[|ops|], Reused(states, ops))
    decreases |ops|
  {
    hide Inv, Next, Legal;
    if ops == [] {
      StartInv(maxFree, ttl);
    } else {
      var n := |ops| - 1;
      RunKeeps(states[..n + 1], ops[..n], maxFree, ttl);
      ReusedPrefix(states, n + 1, ops[..n]);
      NextKeeps(states[n], ops[n], Reused(states, ops[..n]));
    }
  }

  lemma {:induction false} ReusedPrefix(states: seq<Pool>, n: nat, ops: seq<Op>)
    requires |ops| <= n <= |states|
    ensures Reused(states[..n], ops) == Reused(states, ops)
  {
    if ops != [] {
      ReusedPrefix(states, n, ops[..|ops| - 1]);
    }
  }

  /** `freeSize` is exact as long as, and only as long as, no free buffer with any bytes has been reused. */
  lemma SizeExactly(states: seq<Pool>, ops: seq<Op>, maxFree: nat, ttl: nat)
    requires Run(states, ops) && states[0] == Start(maxFree, ttl)
    ensures var s := states[|ops|];
      s.freeSize >= Bytes(s.entries) &&
      (s.freeSize == Bytes(s.entries) <==>
       forall i :: 0 <= i < |ops| && ops[i].AllocOp? && Reuses(states[i], ops[i].bytes) ==> ops[i].bytes == 0)
  {
    RunKeeps(states, ops, maxFree, ttl);
    ReusedNothing(states, ops);
  }

  lemma {:induction false} ReusedNothing(states: seq<Pool>, ops: seq<Op>)
    requires |states| >= |ops|
    ensures Reused(states, ops) == 0 <==>
      forall i :: 0 <= i < |ops| && ops[i].AllocOp? && Reuses(states[i], ops[i].bytes) ==> ops[i].bytes == 0
  {
    hide Reuses;
    if ops != [] {
      ReusedNothing(states, ops[..|ops| - 1]);
    }
  }

  /** In every run, a free that triggers the cut leaves at most `maxFreeSize` bytes free. */
  lemma RunFits(states: seq<Pool>, ops: seq<Op>, maxFree: nat, ttl: nat, b: Buf, now: int)
    requires Run(states, ops) && states[0] == Start(maxFree, ttl)
    requires var s := states[|ops|]; s.maxFree != 0 && Legal(s, FreeOp(b, now)) && Triggered(Put(s, b), now)
    ensures Bytes(Free(states[|ops|], b, now).entries) <= maxFree
  {
    hide EntryFine, Cut;
    var s, drift := states[|ops|], Reused(states, ops);
    RunKeeps(states, ops, maxFree, ttl);
    UsedIsNotFree(s.entries[b.len], b, s.nextId);
    PutKeeps(s, b, drift);
    CutFits(Put(s, b), now, drift);
    SameSettings(states, ops);
  }

  /** Since the free `m` the pool has been over its limit without a break. */
  predicate OverSince(states: seq<Pool>, ops: seq<Op>, m: nat, n: nat)
    requires n < |states| && |states| == |ops| + 1
  {
    m < n && ops[m].FreeOp? && ops[m].now == states[n].overflowTs &&
    forall k :: m < k <= n ==> states[k].overflowTs == states[n].overflowTs && states[k].freeSize > states[k].maxFree
  }

  /** `overflowTs` is the time of the free with which the present overflow began. */
  lemma {:induction false} OverflowLasts(states: seq<Pool>, ops: seq<Op>, maxFree: nat, ttl: nat, n: nat)
    returns (m: nat)
    requires Run(states, ops) && states[0] == Start(maxFree, ttl) && n <= |ops| && states[n].overflowTs != 0
    ensures OverSince(states, ops, m, n)
    decreases n
  {
    RunKeeps(states[..n + 1], ops[..n], maxFree, ttl);
    if states[n - 1].overflowTs == states[n].overflowTs && states[n - 1].overflowTs != 0 {
      m := OverflowLasts(states, ops, maxFree, ttl, n - 1);
    } else {
      m := n - 1;
    }
  }

  /** Free buffers are dropped only by a free that finds the pool over its limit for longer than `freeTtl`. */
  lemma DropsOnlyWhenOver(states: seq<Pool>, ops: seq<Op>, maxFree: nat, ttl: nat, n: nat)
    requires Run(states, ops) && states[0] == Start(maxFree, ttl) && n < |ops| && ops[n].FreeOp?
    requires states[n + 1].entries != Put(states[n], ops[n].buf).entries
    ensures exists m: nat ::
      OverSince(states, ops, m, n) && ops[n].now - ops[m].now > if ttl != 0 then ttl else 300000
  {
    hide Put, Cut, EntryFine;
    var s, b, now := states[n], ops[n].buf, ops[n].now;
    PutClock(s, b);
    if s.maxFree != 0 {
      OnlyTriggered(Put(s, b), now);
    }
    var m := OverflowLasts(states, ops, maxFree, ttl, n);
    SameSettings(states[..n + 1], ops[..n]);
  }

  lemma {:induction false} SameSettings(states: seq<Pool>, ops: seq<Op>)
    requires Run(states, ops)
    ensures states[|ops|].ttl == states[0].ttl && states[|ops|].maxFree == states[0].maxFree
  {
    if ops != [] {
      var n := |ops| - 1;
      SameSettings(states[..n + 1], ops[..n]);
      assert states[n + 1] == Next(states[n], ops[n]);
    }
  }

  /**
   In every run under a limit the clock runs after a free exactly if the pool is over its limit then, but for
   a cut, which resets it, and a free at the time 0.
  */
  lemma ClockRuns(states: seq<Pool>, ops: seq<Op>, maxFree: nat, ttl: nat, n: nat)
    requires Run(states, ops) && states[0] == Start(maxFree, ttl) && n < |ops| && ops[n].FreeOp?
    requires maxFree != 0 && ops[n].now != 0
    ensures !Triggered(Put(states[n], ops[n].buf), ops[n].now) ==>
      (states[n + 1].overflowTs != 0 <==> states[n + 1].freeSize > maxFree)
    ensures Triggered(Put(states[n], ops[n].buf), ops[n].now) ==> states[n + 1].overflowTs == 0
  {
    hide Put, EntryFine;
    SameSettings(states[..n + 1], ops[..n]);
    PutClock(states[n], ops[n].buf);
  }

  lemma PutClock(s: Pool, b: Buf)
    requires b.len in s.entries
    ensures Put(s, b).overflowTs == s.overflowTs && Put(s, b).ttl == s.ttl && Put(s, b).maxFree == s.maxFree
  {
  }

  lemma OnlyTriggered(s: Pool, now: int)
    ensures !Triggered(s, now) ==> Cut(s, now).entries == s.entries
  {
  }

  // ----- The pool in memory -------------------------------------------------------------------------------

  class BufPool {
    var maxFreeSize: nat
    var freeTtl: nat
    var pool: map<nat, Entry>
    var freeSize: int
    var overflowTs: int
    var nextId: nat

    function View(): Pool
      reads this
    {
      Pool(maxFreeSize, freeTtl, pool, freeSize, overflowTs, nextId)
    }

    constructor (maxFree: nat, ttl: nat)
      ensures View() == Start(maxFree, ttl)
    {
      maxFreeSize, freeTtl := maxFree, if ttl != 0 then ttl else 300000;
      pool, freeSize, overflowTs, nextId := map[], 0, 0, 0;
    }

    method AllocBuf(bytes: nat) returns (b: Buf)
      modifies this
      ensures View() == Alloc(old(View()), bytes) && b == Given(old(View()), bytes)
    {
      var bp := if bytes in pool then pool[bytes] else Entry([], []);
      if |bp.free| == 0 {
        b := Buf(nextId, bytes);
        nextId := nextId + 1;
      } else {
        var last := |bp.free| - 1;
        b := bp.free[last];
        bp := bp.(free := bp.free[..last]);
      }
      bp := bp.(used := bp.used + [b]);
      pool := pool[bytes := bp];
    }

    /** `ok` is false where the source throws: the pool has never given a buffer of this length. */
    method FreeBuf(buf: Buf, now: int) returns (ok: bool)
      modifies this
      ensures ok <==> buf.len in old(pool)
      ensures View() == if ok then Free(old(View()), buf, now) else old(View())
    {
      hide Cut;
      if buf.len !in pool {
        return false;
      }
      var bp := pool[buf.len];
      bp := bp.(free := bp.free + [buf]);
      bp := bp.(used := RemoveFirst(bp.used, buf));
      pool := pool[buf.len := bp];
      freeSize := freeSize + buf.len;
      if maxFreeSize != 0 {
        CutFree(now);
      }
      return true;
    }

    method CutFree(now: int)
      modifies this
      ensures View() == Cut(old(View()), now)
    {
      hide Bytes, BytesOf;
      if freeSize <= maxFreeSize {
        overflowTs := 0;
        return;
      }
      if overflowTs == 0 {
        overflowTs := now;
        return;
      }
      if now - overflowTs <= freeTtl {
        return;
      }
      ghost var was, size := pool, freeSize;
      var total, names := freeSize, pool.Keys;
      while names != {}
        invariant maxFreeSize == old(maxFreeSize) && freeTtl == old(freeTtl) && nextId == old(nextId)
        invariant names <= pool.Keys == was.Keys
        invariant forall k :: k in was ==> pool[k] == if k in names then was[k] else Kept(was[k], maxFreeSize, total)
        invariant freeSize == size - (Bytes(was) - Bytes(pool))
        invariant overflowTs == old(overflowTs)
        decreases names
      {
        var name :| name in names;
        var bp := pool[name];
        ShareBound(|bp.free|, maxFreeSize, total);
        var newLength := |bp.free| * maxFreeSize / total;
        BytesUpdate(pool, name, bp.(free := bp.free[..newLength]));
        ByteDifference(name, |bp.free|, newLength);
        freeSize := freeSize - name * (|bp.free| - newLength);
        bp := bp.(free := bp.free[..newLength]);
        pool := pool[name := bp];
        names := names - {name};
      }
      assert pool == Shorter(was, maxFreeSize, total);
      overflowTs := 0;
    }
  }

  lemma ByteDifference(k: nat, n: nat, m: nat)
    requires m <= n
    ensures k * (n - m) == k * n - k * m
  {
  }
}
