/** The message store's in-memory cache: a fixed table of `CacheSize`
    entries in front of an on-disk message store. Entries are filled either
    in FIFO order through a cursor, or by an empty-slot-first policy that
    falls back to an LRU or a random victim. The clock (`time(NULL)`) and
    the random number generator (`rand()`) are parameters; the on-disk
    store is a map from message id to message, and the outcomes of
    `store_msg` and of the copy's allocation are oracle flags. */
module MessageCache {
  import opened Wrappers

  /** Number of entries in the cache. */
  const CacheSize: nat := 16
  /** The id that marks an entry as never filled. */
  const NoId: int := -1

  /** A message: id, sender, receiver and content. */
  datatype Message = Message(id: int, sender: string, receiver: string, content: string)

  /** One slot: the id it was filled with, the message (`None` for NULL) and
      the time it was last used. */
  datatype Entry = Entry(id: int, message: Option<Message>, lastUsed: int)

  /** The value `init_cache` gives every slot. */
  const EmptyEntry := Entry(NoId, None, 0)

  /** The whole cache as a value: its slots and the FIFO cursor. */
  datatype State = State(entries: seq<Entry>, next: int) {
    predicate Valid() {
      |entries| == CacheSize && 0 <= next < CacheSize
    }
  }

  /** The on-disk store: `retrieve_msg` finds a message by its id. */
  type Disk = map<int, Message>

  function RetrieveFromDisk(disk: Disk, id: int): Option<Message> {
    if id in disk then Some(disk[id]) else None
  }

  // ---------------------------------------------------------------------
  // Lookup

  /** Slot `e` holds a cached copy of message `id`. */
  predicate IsHit(e: Entry, id: int) {
    e.id == id && e.message.Some?
  }

  /** The first slot at or after `from` that holds message `id`, or -1. */
  function FirstHitFrom(es: seq<Entry>, id: int, from: nat): (r: int)
    requires from <= |es|
    ensures r == -1 || from <= r < |es|
    decreases |es| - from
  {
    if from == |es| then -1
    else if IsHit(es[from], id) then from
    else FirstHitFrom(es, id, from + 1)
  }

  /** The slot `find_msg_in_cache` reports for `id`. */
  function FirstHit(es: seq<Entry>, id: int): int {
    FirstHitFrom(es, id, 0)
  }

  lemma {:induction false} FirstHitFromIsLowest(es: seq<Entry>, id: int, from: nat)
    requires from <= |es|
    ensures FirstHitFrom(es, id, from) == -1 <==>
            forall i :: from <= i < |es| ==> !IsHit(es[i], id)
    ensures FirstHitFrom(es, id, from) != -1 ==>
            IsHit(es[FirstHitFrom(es, id, from)], id) &&
            forall i :: from <= i < FirstHitFrom(es, id, from) ==> !IsHit(es[i], id)
    decreases |es| - from
  {
    if from < |es| && !IsHit(es[from], id) {
      FirstHitFromIsLowest(es, id, from + 1);
    }
  }

  /** The reported slot is the lowest one holding message `id`, and -1 is
      reported exactly when no slot holds it. */
  lemma FirstHitIsLowest(es: seq<Entry>, id: int)
    ensures FirstHit(es, id) == -1 <==> forall i :: 0 <= i < |es| ==> !IsHit(es[i], id)
    ensures FirstHit(es, id) != -1 ==>
            0 <= FirstHit(es, id) < |es| && IsHit(es[FirstHit(es, id)], id) &&
            forall i :: 0 <= i < FirstHit(es, id) ==> !IsHit(es[i], id)
  {
    FirstHitFromIsLowest(es, id, 0);
  }

  /** A hit refreshes the slot's timestamp and nothing else. */
  function Touch(es: seq<Entry>, i: nat, now: int): seq<Entry>
    requires i < |es|
  {
    es[i := es[i].(lastUsed := now)]
  }

  // ---------------------------------------------------------------------
  // FIFO insertion

  /** `add_msg_to_cache`: the index written (-1 for a NULL message) and the
      new state. */
  function AddFifo(st: State, msg: Option<Message>, now: int): (r: (int, State))
    requires st.Valid()
    ensures r.1.Valid()
  {
    if msg.None? then (-1, st)
    else (st.next,
          State(st.entries[st.next := Entry(msg.value.id, msg, now)], (st.next + 1) % CacheSize))
  }

  /** A NULL message changes nothing; otherwise exactly the cursor's slot
      is overwritten with the message, the cursor advances by one modulo
      `CacheSize`, and the message is then found by a lookup. */
  lemma AddFifoOverwritesCursorSlot(st: State, msg: Option<Message>, now: int)
    requires st.Valid()
    ensures msg.None? ==> AddFifo(st, msg, now) == (-1, st)
    ensures msg.Some? ==>
            var (i, st') := AddFifo(st, msg, now);
            i == st.next && st'.entries[i] == Entry(msg.value.id, msg, now) &&
            st'.next == (st.next + 1) % CacheSize &&
            (forall j :: 0 <= j < CacheSize && j != i ==> st'.entries[j] == st.entries[j]) &&
            FirstHit(st'.entries, msg.value.id) != -1
  {
    if msg.Some? {
      var (i, st') := AddFifo(st, msg, now);
      FirstHitIsLowest(st'.entries, msg.value.id);
      assert IsHit(st'.entries[i], msg.value.id);
    }
  }

  /** The state after caching each of `msgs` in turn. */
  function AddAll(st: State, msgs: seq<Message>, now: int): (r: State)
    requires st.Valid()
    ensures r.Valid()
    decreases |msgs|
  {
    if msgs == [] then st
    else AddAll(AddFifo(st, Some(msgs[0]), now).1, msgs[1..], now)
  }

  /** The cursor moves cyclically: after `k` insertions it has advanced by
      `k` modulo `CacheSize`. */
  lemma {:induction false} AddAllAdvancesCursor(st: State, msgs: seq<Message>, now: int)
    requires st.Valid()
    ensures AddAll(st, msgs, now).next == (st.next + |msgs|) % CacheSize
    decreases |msgs|
  {
    if msgs != [] {
      var st1 := AddFifo(st, Some(msgs[0]), now).1;
      AddAllAdvancesCursor(st1, msgs[1..], now);
      assert st1.next == (st.next + 1) % CacheSize;
    }
  }

  // ---------------------------------------------------------------------
  // Victim selection and strategy insertion

  /** The first slot at or after `from` whose id is -1, or -1. */
  function FirstEmptyFrom(es: seq<Entry>, from: nat): (r: int)
    requires from <= |es|
    ensures r == -1 || from <= r < |es|
    decreases |es| - from
  {
    if from == |es| then -1
    else if es[from].id == NoId then from
    else FirstEmptyFrom(es, from + 1)
  }

  /** The empty slot the strategy insertion prefers, or -1 when none. */
  function FirstEmpty(es: seq<Entry>): int {
    FirstEmptyFrom(es, 0)
  }

  lemma {:induction false} FirstEmptyFromIsLowest(es: seq<Entry>, from: nat)
    requires from <= |es|
    ensures FirstEmptyFrom(es, from) == -1 <==> forall i :: from <= i < |es| ==> es[i].id != NoId
    ensures FirstEmptyFrom(es, from) != -1 ==>
            es[FirstEmptyFrom(es, from)].id == NoId &&
            forall i :: from <= i < FirstEmptyFrom(es, from) ==> es[i].id != NoId
    decreases |es| - from
  {
    if from < |es| && es[from].id != NoId {
      FirstEmptyFromIsLowest(es, from + 1);
    }
  }

  /** The preferred slot is the lowest one with id -1, and there is none
      exactly when every slot has been filled at some point. */
  lemma FirstEmptyIsLowest(es: seq<Entry>)
    ensures FirstEmpty(es) == -1 <==> forall i :: 0 <= i < |es| ==> es[i].id != NoId
    ensures FirstEmpty(es) != -1 ==>
            0 <= FirstEmpty(es) < |es| && es[FirstEmpty(es)].id == NoId &&
            forall i :: 0 <= i < FirstEmpty(es) ==> es[i].id != NoId
  {
    FirstEmptyFromIsLowest(es, 0);
  }

  /** The scan of `find_lru_replacement_index` from slot `i` on, with `best`
      the oldest slot among those before `i`. */
  function LruFrom(es: seq<Entry>, best: nat, i: nat): (r: nat)
    requires best < i <= |es|
    ensures r < |es|
    decreases |es| - i
  {
    if i == |es| then best
    else if es[i].lastUsed < es[best].lastUsed then LruFrom(es, i, i + 1)
    else LruFrom(es, best, i + 1)
  }

  /** The least recently used slot. */
  function LruIndex(es: seq<Entry>): nat
    requires |es| > 0
  {
    LruFrom(es, 0, 1)
  }

  lemma {:induction false} LruFromIsOldest(es: seq<Entry>, best: nat, i: nat)
    requires best < i <= |es|
    requires forall j :: 0 <= j < i ==> es[best].lastUsed <= es[j].lastUsed
    requires forall j :: 0 <= j < best ==> es[best].lastUsed < es[j].lastUsed
    ensures forall j :: 0 <= j < |es| ==> es[LruFrom(es, best, i)].lastUsed <= es[j].lastUsed
    ensures forall j :: 0 <= j < LruFrom(es, best, i) ==>
              es[LruFrom(es, best, i)].lastUsed < es[j].lastUsed
    decreases |es| - i
  {
    if i < |es| {
      if es[i].lastUsed < es[best].lastUsed {
        LruFromIsOldest(es, i, i + 1);
      } else {
        LruFromIsOldest(es, best, i + 1);
      }
    }
  }

  /** The LRU victim has the smallest `last_used`, and every slot before it
      has a strictly larger one: ties go to the lowest index. */
  lemma LruIndexIsOldest(es: seq<Entry>)
    requires |es| > 0
    ensures LruIndex(es) < |es|
    ensures forall j :: 0 <= j < |es| ==> es[LruIndex(es)].lastUsed <= es[j].lastUsed
    ensures forall j :: 0 <= j < LruIndex(es) ==> es[LruIndex(es)].lastUsed < es[j].lastUsed
  {
    LruFromIsOldest(es, 0, 1);
  }

  /** `find_random_replacement_index`: `rand() % CACHE_SIZE`, where `rand()`
      returns a non-negative value. */
  function RandomIndex(rand: nat): (r: nat)
    ensures r < CacheSize
  {
    rand % CacheSize
  }

  /** The slot `add_msg_to_cache_by_strategy` writes: the first empty slot,
      or else the LRU or the random victim. */
  function Victim(es: seq<Entry>, useLru: bool, rand: nat): nat
    requires |es| == CacheSize
  {
    var empty := FirstEmpty(es);
    if empty != -1 then empty
    else if useLru then LruIndex(es)
    else RandomIndex(rand)
  }

  /** A victim is evicted only when no slot is empty; otherwise the lowest
      empty slot is used. */
  lemma VictimPrefersEmptySlot(es: seq<Entry>, useLru: bool, rand: nat)
    requires |es| == CacheSize
    ensures Victim(es, useLru, rand) < CacheSize
    ensures (exists i :: 0 <= i < |es| && es[i].id == NoId) ==>
            es[Victim(es, useLru, rand)].id == NoId &&
            forall i :: 0 <= i < Victim(es, useLru, rand) ==> es[i].id != NoId
    ensures (forall i :: 0 <= i < |es| ==> es[i].id != NoId) && useLru ==>
            Victim(es, useLru, rand) == LruIndex(es)
    ensures (forall i :: 0 <= i < |es| ==> es[i].id != NoId) && !useLru ==>
            Victim(es, useLru, rand) == rand % CacheSize
  {
    FirstEmptyIsLowest(es);
    LruIndexIsOldest(es);
  }

  /** `add_msg_to_cache_by_strategy`: the index written (-1 for a NULL
      message) and the new slots. */
  function AddByStrategy(es: seq<Entry>, msg: Option<Message>, useLru: bool, rand: nat, now: int)
    : (int, seq<Entry>)
    requires |es| == CacheSize
  {
    if msg.None? then (-1, es)
    else
      var i: int := Victim(es, useLru, rand);
      (i, es[i := Entry(msg.value.id, msg, now)])
  }

  /** Strategy insertion writes one slot, chosen by `Victim`, and leaves
      the others alone; the message is then found by a lookup. */
  lemma AddByStrategyWritesVictim(es: seq<Entry>, msg: Option<Message>, useLru: bool, rand: nat, now: int)
    requires |es| == CacheSize
    ensures msg.None? ==> AddByStrategy(es, msg, useLru, rand, now) == (-1, es)
    ensures msg.Some? ==>
            var (i, es') := AddByStrategy(es, msg, useLru, rand, now);
            i == Victim(es, useLru, rand) && |es'| == CacheSize &&
            es'[i] == Entry(msg.value.id, msg, now) &&
            (forall j :: 0 <= j < CacheSize && j != i ==> es'[j] == es[j]) &&
            FirstHit(es', msg.value.id) != -1
  {
    if msg.Some? {
      var (i, es') := AddByStrategy(es, msg, useLru, rand, now);
      VictimPrefersEmptySlot(es, useLru, rand);
      FirstHitIsLowest(es', msg.value.id);
      assert IsHit(es'[i], msg.value.id);
    }
  }

  /** Every cached message sits in a slot carrying its own id. */
  predicate Coherent(es: seq<Entry>) {
    forall i :: 0 <= i < |es| && es[i].message.Some? ==> es[i].message.value.id == es[i].id
  }

  /** Every operation on the slots keeps them coherent. */
  lemma OperationsKeepCoherent(st: State, es: seq<Entry>, msg: Option<Message>, useLru: bool,
                               rand: nat, i: nat, now: int)
    requires st.Valid() && Coherent(st.entries) && |es| == CacheSize && Coherent(es) && i < |es|
    ensures Coherent(InitEntries())
    ensures Coherent(AddFifo(st, msg, now).1.entries)
    ensures Coherent(AddByStrategy(es, msg, useLru, rand, now).1)
    ensures Coherent(Touch(es, i, now))
    ensures Coherent(FreeAll(es))
  {
  }

  // ---------------------------------------------------------------------
  // Retrieval and storage

  /** What a retrieval hands back: the message (`None` for NULL) and the
      value written to `*msg_in_cache`. */
  datatype Lookup = Lookup(msg: Option<Message>, inCache: bool)

  /** `retrieve_msg_cached`: a hit refreshes the slot and returns its
      message; a miss reads the disk and, when the message exists and its
      copy can be allocated, caches the copy in FIFO order. */
  function RetrieveFifo(st: State, id: int, disk: Disk, copyOk: bool, now: int): (Lookup, State)
    requires st.Valid()
  {
    var i := FirstHit(st.entries, id);
    if i != -1 then
      (Lookup(st.entries[i].message, true), st.(entries := Touch(st.entries, i, now)))
    else
      var fromDisk := RetrieveFromDisk(disk, id);
      (Lookup(fromDisk, false),
       if fromDisk.Some? && copyOk then AddFifo(st, fromDisk, now).1 else st)
  }

  /** `store_msg_cached`: the status (0 or -1), the new cache and the new
      disk. A NULL message or a failed disk write changes nothing. */
  function StoreFifo(st: State, msg: Option<Message>, diskOk: bool, copyOk: bool, now: int, disk: Disk)
    : (int, State, Disk)
    requires st.Valid()
  {
    if msg.None? || !diskOk then (-1, st, disk)
    else (0, if copyOk then AddFifo(st, msg, now).1 else st, disk[msg.value.id := msg.value])
  }

  /** `retrieve_msg_cached_by_strategy`. `flag` is the caller's
      `msg_in_cache` variable, `None` for a NULL pointer; the result gives
      its new content. */
  function RetrieveByStrategy(es: seq<Entry>, id: int, flag: Option<bool>, useLru: bool, rand: nat,
                              disk: Disk, copyOk: bool, now: int)
    : (Option<Message>, Option<bool>, seq<Entry>)
    requires |es| == CacheSize
  {
    if flag.None? then (None, None, es)
    else
      var i := FirstHit(es, id);
      if i != -1 then (es[i].message, Some(true), Touch(es, i, now))
      else
        var fromDisk := RetrieveFromDisk(disk, id);
        (fromDisk, Some(false),
         if fromDisk.Some? && copyOk then AddByStrategy(es, fromDisk, useLru, rand, now).1 else es)
  }

  /** `store_msg_cached_by_strategy`: -1 on a NULL message or a failed disk
      write, the cache index when the copy is cached, 0 when only the disk
      write succeeded. */
  function StoreByStrategy(es: seq<Entry>, msg: Option<Message>, useLru: bool, rand: nat,
                           diskOk: bool, copyOk: bool, now: int, disk: Disk)
    : (int, seq<Entry>, Disk)
    requires |es| == CacheSize
  {
    if msg.None? || !diskOk then (-1, es, disk)
    else
      var disk' := disk[msg.value.id := msg.value];
      if copyOk then
        var (i, es') := AddByStrategy(es, msg, useLru, rand, now);
        (i, es', disk')
      else (0, es, disk')
  }

  /** A hit reports `inCache` and returns the cached message whatever the
      disk holds; a miss reports `!inCache` and returns what the disk
      holds, caching it only when it exists. */
  lemma RetrieveFifoHitOrMiss(st: State, id: int, disk: Disk, disk2: Disk, copyOk: bool, now: int)
    requires st.Valid() && Coherent(st.entries)
    ensures var (res, st') := RetrieveFifo(st, id, disk, copyOk, now);
            res.inCache <==> (exists i :: 0 <= i < CacheSize && IsHit(st.entries[i], id))
    ensures var (res, st') := RetrieveFifo(st, id, disk, copyOk, now);
            res.inCache ==> res.msg.Some? && res.msg.value.id == id &&
                            RetrieveFifo(st, id, disk2, copyOk, now) == (res, st')
    ensures var (res, st') := RetrieveFifo(st, id, disk, copyOk, now);
            !res.inCache ==> res.msg == RetrieveFromDisk(disk, id) &&
                             (res.msg.None? || !copyOk ==> st' == st) &&
                             (res.msg.Some? && copyOk ==> st' == AddFifo(st, res.msg, now).1)
  {
    FirstHitIsLowest(st.entries, id);
  }

  /** The same for the strategy variant, which also tolerates a NULL flag
      pointer by returning NULL and changing nothing. */
  lemma RetrieveByStrategyHitOrMiss(es: seq<Entry>, id: int, flag: Option<bool>, useLru: bool,
                                    rand: nat, disk: Disk, copyOk: bool, now: int)
    requires |es| == CacheSize && Coherent(es)
    ensures flag.None? ==> RetrieveByStrategy(es, id, flag, useLru, rand, disk, copyOk, now) == (None, None, es)
    ensures flag.Some? ==>
            var (msg, flag', es') := RetrieveByStrategy(es, id, flag, useLru, rand, disk, copyOk, now);
            flag'.Some? &&
            (flag'.value <==> exists i :: 0 <= i < CacheSize && IsHit(es[i], id)) &&
            (flag'.value ==> msg.Some? && msg.value.id == id) &&
            (!flag'.value ==> msg == RetrieveFromDisk(disk, id))
  {
    FirstHitIsLowest(es, id);
  }

  /** A message stored while its copy can be allocated is afterwards
      retrieved from the cache, and the disk holds it. */
  lemma StoreThenRetrieveHits(st: State, m: Message, now: int, later: int, disk: Disk, disk2: Disk)
    requires st.Valid()
    ensures var (status, st', disk') := StoreFifo(st, Some(m), true, true, now, disk);
            status == 0 && disk' == disk[m.id := m] &&
            RetrieveFifo(st', m.id, disk2, true, later).0.inCache
  {
    var (_, st', _) := StoreFifo(st, Some(m), true, true, now, disk);
    AddFifoOverwritesCursorSlot(st, Some(m), now);
    FirstHitIsLowest(st'.entries, m.id);
  }

  // ---------------------------------------------------------------------
  // Initialisation and release

  /** The slots after `init_cache`. */
  function InitEntries(): seq<Entry> {
    seq(CacheSize, _ => EmptyEntry)
  }

  /** After `free_cache`: every message is NULL, ids and timestamps kept. */
  function FreeAll(es: seq<Entry>): seq<Entry> {
    seq(|es|, i requires 0 <= i < |es| => es[i].(message := None))
  }

  /** A freshly initialised cache misses every lookup and offers slot 0 to
      the strategy insertion. */
  lemma InitIsEmpty(id: int)
    ensures FirstHit(InitEntries(), id) == -1
    ensures FirstEmpty(InitEntries()) == 0
  {
    FirstHitIsLowest(InitEntries(), id);
  }

  /** After `free_cache` every lookup misses, yet no slot has become empty:
      the ids are kept, so the strategy insertion still evicts until the
      next `init_cache`. */
  lemma FreeAllMissesButKeepsIds(es: seq<Entry>, id: int)
    ensures |FreeAll(es)| == |es|
    ensures forall i :: 0 <= i < |es| ==> FreeAll(es)[i].id == es[i].id && FreeAll(es)[i].message.None?
    ensures FirstHit(FreeAll(es), id) == -1
    ensures FirstEmpty(FreeAll(es)) == FirstEmpty(es)
  {
    FirstHitIsLowest(FreeAll(es), id);
    FirstEmptyIsLowest(FreeAll(es));
    FirstEmptyIsLowest(es);
    if FirstEmpty(es) != -1 {
      FirstEmptyFromIsLowest(FreeAll(es), 0);
    }
  }

  // ---------------------------------------------------------------------
  // The cache object

  /** The global `cache`: `entries[CACHE_SIZE]` and `next_available`. */
  class Cache {
    const entries: array<Entry>
    var nextAvailable: int

    /** The cache as a value. */
    ghost function Model(): State
      reads this, entries
    {
      State(entries[..], nextAvailable)
    }

    ghost predicate Valid()
      reads this, entries
    {
      Model().Valid()
    }

    /** The zero-initialised static storage, before `init_cache`. */
    constructor ()
      ensures Valid() && fresh(entries)
      ensures Model() == State(seq(CacheSize, _ => Entry(0, None, 0)), 0)
    {
      entries := new Entry[CacheSize](_ => Entry(0, None, 0));
      nextAvailable := 0;
    }

    /** `init_cache`. */
    method Init()
      requires Valid()
      modifies this, entries
      ensures Valid() && Model() == State(InitEntries(), 0)
    {
      var i := 0;
      while i < CacheSize
        invariant entries.Length == CacheSize
        invariant 0 <= i <= CacheSize
        invariant forall j :: 0 <= j < i ==> entries[j] == EmptyEntry
      {
        entries[i] := EmptyEntry;
        i := i + 1;
      }
      nextAvailable := 0;
    }

    /** `find_msg_in_cache`: the lowest slot holding message `id` (its
        timestamp refreshed), or -1 with nothing changed. */
    method FindMsg(id: int, now: int) returns (index: int)
      requires Valid()
      modifies entries
      ensures Valid()
      ensures index == FirstHit(old(entries[..]), id)
      ensures index == -1 ==> entries[..] == old(entries[..])
      ensures index != -1 ==> 0 <= index < CacheSize && entries[..] == Touch(old(entries[..]), index, now)
    {
      ghost var s := entries[..];
      var i := 0;
      while i < CacheSize
        invariant 0 <= i <= CacheSize
        invariant entries[..] == s
        invariant FirstHitFrom(s, id, i) == FirstHit(s, id)
      {
        var e := entries[i];
        if e.id == id && e.message.Some? {
          entries[i] := e.(lastUsed := now);
          return i;
        }
        i := i + 1;
      }
      return -1;
    }

    /** `add_msg_to_cache`. */
    method AddMsg(msg: Option<Message>, now: int) returns (index: int)
      requires Valid()
      modifies this, entries
      ensures Valid()
      ensures (index, Model()) == AddFifo(old(Model()), msg, now)
    {
      if msg.None? {
        return -1;
      }
      index := nextAvailable;
      entries[index] := Entry(msg.value.id, msg, now);
      nextAvailable := (nextAvailable + 1) % CacheSize;
    }

    /** `find_lru_replacement_index`. */
    method FindLruIndex() returns (index: nat)
      requires Valid()
      ensures index == LruIndex(entries[..])
    {
      ghost var s := entries[..];
      index := 0;
      var minLastUsed := entries[0].lastUsed;
      var i := 1;
      while i < CacheSize
        invariant index < i <= CacheSize
        invariant minLastUsed == s[index].lastUsed
        invariant LruFrom(s, index, i) == LruIndex(s)
      {
        if entries[i].lastUsed < minLastUsed {
          minLastUsed := entries[i].lastUsed;
          index := i;
        }
        i := i + 1;
      }
    }

    /** The empty-slot scan at the head of `add_msg_to_cache_by_strategy`. */
    method FindEmptySlot() returns (slot: int)
      requires Valid()
      ensures slot == FirstEmpty(entries[..])
    {
      ghost var s := entries[..];
      slot := -1;
      var i := 0;
      while i < CacheSize
        invariant 0 <= i <= CacheSize
        invariant FirstEmptyFrom(s, i) == FirstEmpty(s)
      {
        if entries[i].id == NoId {
          slot := i;
          break;
        }
        i := i + 1;
      }
    }

    /** `add_msg_to_cache_by_strategy`; `rand` is the value `rand()` would
        return. The FIFO cursor is untouched. */
    method AddMsgByStrategy(msg: Option<Message>, useLru: bool, rand: nat, now: int)
      returns (index: int)
      requires Valid()
      modifies entries
      ensures Valid()
      ensures (index, entries[..]) == AddByStrategy(old(entries[..]), msg, useLru, rand, now)
    {
      if msg.None? {
        return -1;
      }
      var empty := FindEmptySlot();
      if empty != -1 {
        index := empty;
      } else if useLru {
        index := FindLruIndex();
      } else {
        index := RandomIndex(rand);
      }
      entries[index] := Entry(msg.value.id, msg, now);
    }

    /** `store_msg_cached`. */
    method StoreMsgCached(msg: Option<Message>, diskOk: bool, copyOk: bool, now: int, disk: Disk)
      returns (status: int, disk': Disk)
      requires Valid()
      modifies this, entries
      ensures Valid()
      ensures (status, Model(), disk') == StoreFifo(old(Model()), msg, diskOk, copyOk, now, disk)
    {
      if msg.None? || !diskOk {
        return -1, disk;
      }
      disk' := disk[msg.value.id := msg.value];
      if copyOk {
        var _ := AddMsg(msg, now);
      }
      status := 0;
    }

    /** `retrieve_msg_cached`. */
    method RetrieveMsgCached(id: int, disk: Disk, copyOk: bool, now: int)
      returns (msg: Option<Message>, inCache: bool)
      requires Valid()
      modifies this, entries
      ensures Valid()
      ensures (Lookup(msg, inCache), Model()) == RetrieveFifo(old(Model()), id, disk, copyOk, now)
    {
      var i := FindMsg(id, now);
      if i != -1 {
        return entries[i].message, true;
      }
      inCache := false;
      msg := RetrieveFromDisk(disk, id);
      if msg.Some? && copyOk {
        var _ := AddMsg(msg, now);
      }
    }

    /** `store_msg_cached_by_strategy`. */
    method StoreMsgCachedByStrategy(msg: Option<Message>, useLru: bool, rand: nat,
                                    diskOk: bool, copyOk: bool, now: int, disk: Disk)
      returns (status: int, disk': Disk)
      requires Valid()
      modifies entries
      ensures Valid()
      ensures (status, entries[..], disk') ==
              StoreByStrategy(old(entries[..]), msg, useLru, rand, diskOk, copyOk, now, disk)
    {
      if msg.None? || !diskOk {
        return -1, disk;
      }
      disk' := disk[msg.value.id := msg.value];
      if copyOk {
        status := AddMsgByStrategy(msg, useLru, rand, now);
        return;
      }
      status := 0;
    }

    /** `retrieve_msg_cached_by_strategy`; `flag` is the caller's
        `msg_in_cache` variable (`None` for a NULL pointer) and `flag'` its
        new content. */
    method RetrieveMsgCachedByStrategy(id: int, flag: Option<bool>, useLru: bool, rand: nat,
                                       disk: Disk, copyOk: bool, now: int)
      returns (msg: Option<Message>, flag': Option<bool>)
      requires Valid()
      modifies entries
      ensures Valid()
      ensures (msg, flag', entries[..]) ==
              RetrieveByStrategy(old(entries[..]), id, flag, useLru, rand, disk, copyOk, now)
    {
      if flag.None? {
        return None, None;
      }
      var i := FindMsg(id, now);
      if i != -1 {
        return entries[i].message, Some(true);
      }
      msg := RetrieveFromDisk(disk, id);
      flag' := Some(false);
      if msg.Some? && copyOk {
        var _ := AddMsgByStrategy(msg, useLru, rand, now);
      }
    }

    /** `free_cache`. */
    method Free()
      requires Valid()
      modifies entries
      ensures Valid()
      ensures entries[..] == FreeAll(old(entries[..]))
    {
      ghost var s := entries[..];
      var i := 0;
      while i < CacheSize
        invariant 0 <= i <= CacheSize
        invariant forall j :: 0 <= j < i ==> entries[j] == s[j].(message := None)
        invariant forall j :: i <= j < CacheSize ==> entries[j] == s[j]
      {
        if entries[i].message.Some? {
          entries[i] := entries[i].(message := None);
        }
        i := i + 1;
      }
    }
  }

  /** The Part 2 driver: two messages stored through the cache and a third
      written to disk only; the first is then retrieved from the cache and
      the third from disk. */
  method PartTwoScenario(now: int) returns (first: Lookup, third: Lookup)
    ensures first == Lookup(Some(Message(101, "Charlie", "David", "Message one.")), true)
    ensures third == Lookup(Some(Message(103, "Ian", "Jason", "Message three.")), false)
  {
    var m1 := Message(101, "Charlie", "David", "Message one.");
    var m2 := Message(102, "Eve", "Frank", "Message two.");
    var m3 := Message(103, "Ian", "Jason", "Message three.");
    var cache := new Cache();
    cache.Init();
    var disk: Disk := map[];
    var _, disk1 := cache.StoreMsgCached(Some(m1), true, true, now, disk);
    var _, disk2 := cache.StoreMsgCached(Some(m2), true, true, now, disk1);
    var disk3 := disk2[m3.id := m3];
    InitIsEmpty(m3.id);
    FirstHitIsLowest(cache.entries[..], m1.id);
    assert IsHit(cache.entries[0], m1.id);
    var msg, inCache := cache.RetrieveMsgCached(m1.id, disk3, true, now);
    first := Lookup(msg, inCache);
    FirstHitIsLowest(cache.entries[..], m3.id);
    msg, inCache := cache.RetrieveMsgCached(m3.id, disk3, true, now);
    third := Lookup(msg, inCache);
  }
}
