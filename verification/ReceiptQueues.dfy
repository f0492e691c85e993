/** A user's queued receipts: a Redis hash of statuses beside a sorted set of message ids. */
module ReceiptQueues {
  import opened Common
  import opened Sorting
  import opened TextOrder

  datatype Status = Delivered | Read

  /** A member of the sorted set: Redis orders by score, then by the bytes of the member. */
  datatype Entry = Entry(score: int, id: string)

  datatype Queue = Queue(hash: map<string, Status>, index: seq<Entry>)

  datatype Event = Enqueue(id: string, status: Status, now: int) | Ack(id: string, status: Status) | Expire

  const EMPTY := Queue(map[], [])

  predicate EntryLe(a: Entry, b: Entry) {
    a.score < b.score || (a.score == b.score && AtMost(a.id, b.id))
  }

  function Ids(index: seq<Entry>): set<string> {
    set e | e in index :: e.id
  }

  function Without(index: seq<Entry>, id: string): seq<Entry> {
    if index == [] then []
    else if index[0].id == id then Without(index[1..], id)
    else [index[0]] + Without(index[1..], id)
  }

  /** `ZADD`: a member already there moves to its new score. */
  function ZAdd(index: seq<Entry>, id: string, score: int): seq<Entry> {
    Insert(EntryLe, Entry(score, id), Without(index, id))
  }

  function Evict(q: Queue, limit: nat): Queue {
    if |q.index| > limit then
      var overflow := |q.index| - limit;
      Queue(q.hash - Ids(q.index[..overflow]), q.index[overflow..])
    else
      q
  }

  predicate Ignored(q: Queue, id: string, status: Status) {
    id in q.hash && (q.hash[id].Read? || status.Delivered?)
  }

  function Next(q: Queue, limit: nat, e: Event): Queue {
    match e
    case Enqueue(id, status, now) =>
      if Ignored(q, id, status) then q else Evict(Queue(q.hash[id := status], ZAdd(q.index, id, now)), limit)
    case Ack(id, status) =>
      if id !in q.hash || (q.hash[id].Read? && status.Delivered?) then q
      else Queue(q.hash - {id}, Without(q.index, id))
    case Expire => EMPTY
  }

  ghost predicate IsRun(queues: seq<Queue>, limit: nat, events: seq<Event>) {
    && |queues| == |events| + 1
    && (forall i :: 0 <= i < |events| ==> queues[i + 1] == Next(queues[i], limit, events[i]))
  }

  // ---- Invariant -------------------------------------------------------------------------------------

  ghost predicate DistinctIds(index: seq<Entry>) {
    forall i, j :: 0 <= i < j < |index| ==> index[i].id != index[j].id
  }

  /** Hash and index hold the same ids, each once, the index in order. */
  ghost predicate InStep(q: Queue) {
    q.hash.Keys == Ids(q.index) && DistinctIds(q.index) && SortedBy(EntryLe, q.index)
  }

  lemma EntryLePreorder()
    ensures TotalPreorder(EntryLe)
  {
    forall a, b
      ensures EntryLe(a, b) || EntryLe(b, a)
    {
      AtMostTotal(a.id, b.id);
    }
    forall a, b, c | EntryLe(a, b) && EntryLe(b, c)
      ensures EntryLe(a, c)
    {
      if a.score == b.score && b.score == c.score {
        AtMostTransitive(a.id, b.id, c.id);
      }
    }
  }

  lemma {:induction false} WithoutMembers(index: seq<Entry>, id: string)
    ensures forall e :: e in Without(index, id) <==> e in index && e.id != id
  {
    if index == [] {
    } else {
      WithoutMembers(index[1..], id);
      assert index == [index[0]] + index[1..];
    }
  }

  /** The entries of the rest come behind `first` and have other ids. */
  ghost predicate Precedes(first: Entry, rest: seq<Entry>) {
    forall e :: e in rest ==> e.id != first.id && EntryLe(first, e)
  }

  lemma TailInOrder(index: seq<Entry>)
    requires DistinctIds(index) && SortedBy(EntryLe, index) && index != []
    ensures DistinctIds(index[1..]) && SortedBy(EntryLe, index[1..]) && Precedes(index[0], index[1..])
  {
  }

  lemma PrependInOrder(first: Entry, rest: seq<Entry>)
    requires DistinctIds(rest) && SortedBy(EntryLe, rest) && Precedes(first, rest)
    ensures DistinctIds([first] + rest) && SortedBy(EntryLe, [first] + rest)
  {
    forall k | 0 <= k < |rest|
      ensures rest[k].id != first.id && EntryLe(first, rest[k])
    {
      assert rest[k] in rest;
    }
  }

  lemma {:induction false} WithoutKeepsOrder(index: seq<Entry>, id: string)
    requires DistinctIds(index) && SortedBy(EntryLe, index)
    ensures DistinctIds(Without(index, id)) && SortedBy(EntryLe, Without(index, id))
  {
    if index == [] {
    } else {
      TailInOrder(index);
      WithoutKeepsOrder(index[1..], id);
      WithoutMembers(index[1..], id);
      PrependInOrder(index[0], Without(index[1..], id));
    }
  }

  lemma {:induction false} WithoutLength(index: seq<Entry>, id: string)
    requires DistinctIds(index)
    ensures |Without(index, id)| == |index| - (if id in Ids(index) then 1 else 0)
  {
    if index == [] {
    } else {
      WithoutLength(index[1..], id);
      assert index == [index[0]] + index[1..];
      assert Ids(index) == {index[0].id} + Ids(index[1..]);
      if index[0].id == id {
        assert id !in Ids(index[1..]);
      }
    }
  }

  lemma WithoutRemoves(index: seq<Entry>, id: string)
    requires DistinctIds(index) && SortedBy(EntryLe, index)
    ensures var r := Without(index, id);
            && DistinctIds(r) && SortedBy(EntryLe, r)
            && (forall e :: e in r <==> e in index && e.id != id)
            && |r| == |index| - (if id in Ids(index) then 1 else 0)
  {
    WithoutMembers(index, id);
    WithoutKeepsOrder(index, id);
    WithoutLength(index, id);
  }

  lemma {:induction false} InsertPlaces(x: Entry, s: seq<Entry>)
    requires DistinctIds(s) && SortedBy(EntryLe, s) && x.id !in Ids(s)
    ensures var r := Insert(EntryLe, x, s);
            && DistinctIds(r) && SortedBy(EntryLe, r) && |r| == |s| + 1
            && (forall e :: e in r <==> e == x || e in s)
  {
    EntryLePreorder();
    InsertSorts(EntryLe, x, s);
    InsertKeepsDistinct(x, s);
  }

  lemma {:induction false} InsertKeepsDistinct(x: Entry, s: seq<Entry>)
    requires DistinctIds(s) && x.id !in Ids(s)
    ensures var r := Insert(EntryLe, x, s);
            DistinctIds(r) && |r| == |s| + 1 && forall e :: e in r <==> e == x || e in s
  {
    if s == [] || EntryLe(x, s[0]) {
      forall k | 0 <= k < |s|
        ensures s[k].id != x.id
      {
        assert s[k] in s;
      }
    } else {
      assert s == [s[0]] + s[1..];
      assert s[0] in s;
      assert Ids(s[1..]) <= Ids(s);
      InsertKeepsDistinct(x, s[1..]);
      var rest := Insert(EntryLe, x, s[1..]);
      forall k | 0 <= k < |rest|
        ensures rest[k].id != s[0].id
      {
        assert rest[k] in rest;
      }
    }
  }

  lemma EvictKeeps(q: Queue, limit: nat)
    requires InStep(q)
    ensures InStep(Evict(q, limit)) && |Evict(q, limit).index| <= limit
  {
    if |q.index| > limit {
      var overflow := |q.index| - limit;
      var gone, kept := q.index[..overflow], q.index[overflow..];
      assert q.index == gone + kept;
      forall id
        ensures id in Ids(kept) <==> id in Ids(q.index) && id !in Ids(gone)
      {
        forall i, j | 0 <= i < |gone| && 0 <= j < |kept|
          ensures gone[i].id != kept[j].id
        {
          assert q.index[i].id != q.index[overflow + j].id;
        }
      }
    }
  }

  lemma ZAddKeeps(q: Queue, id: string, status: Status, now: int)
    requires InStep(q)
    ensures InStep(Queue(q.hash[id := status], ZAdd(q.index, id, now)))
    ensures |ZAdd(q.index, id, now)| == |q.index| + (if id in q.hash then 0 else 1)
    ensures forall e :: e in ZAdd(q.index, id, now) <==> e == Entry(now, id) || (e in q.index && e.id != id)
  {
    WithoutRemoves(q.index, id);
    InsertPlaces(Entry(now, id), Without(q.index, id));
    assert Ids(ZAdd(q.index, id, now)) == Ids(q.index) + {id};
  }

  lemma StepKeeps(q: Queue, limit: nat, e: Event)
    requires InStep(q) && |q.index| <= limit
    ensures InStep(Next(q, limit, e)) && |Next(q, limit, e).index| <= limit
  {
    match e
    case Enqueue(id, status, now) =>
      ZAddKeeps(q, id, status, now);
      EvictKeeps(Queue(q.hash[id := status], ZAdd(q.index, id, now)), limit);
    case Ack(id, _) =>
      WithoutRemoves(q.index, id);
      assert Ids(Without(q.index, id)) == Ids(q.index) - {id};
    case Expire =>
  }

  /** In every run the hash and the index hold the same ids and no more than the limit. */
  lemma {:induction false} RunKeeps(queues: seq<Queue>, limit: nat, events: seq<Event>, n: nat)
    requires IsRun(queues, limit, events) && n < |queues| && queues[0] == EMPTY
    ensures InStep(queues[n]) && |queues[n].index| <= limit
  {
    if n == 0 {
    } else {
      RunKeeps(queues, limit, events, n - 1);
      StepKeeps(queues[n - 1], limit, events[n - 1]);
    }
  }

  // ---- How a receipt changes and how it leaves ---------------------------------------------------------

  function Rank(s: Status): nat { if s.Read? then 1 else 0 }

  /** The event adds a new id to a full queue, and this id is the oldest entry then. */
  ghost predicate Evicts(q: Queue, limit: nat, e: Event, id: string) {
    && e.Enqueue? && !Ignored(q, e.id, e.status) && e.id !in q.hash && |q.index| == limit
    && var all := ZAdd(q.index, e.id, e.now); |all| > 0 && all[0].id == id
  }

  /**
   * A stored status never weakens, and a receipt leaves the queue exactly by an acknowledgement at
   * least as strong as its status, by being the oldest of a full queue, or with the whole queue.
   */
  lemma ReceiptLifecycle(q: Queue, limit: nat, e: Event, id: string)
    requires InStep(q) && |q.index| <= limit && id in q.hash
    ensures var next := Next(q, limit, e);
            && (id in next.hash ==> Rank(q.hash[id]) <= Rank(next.hash[id]))
            && (id in next.hash && next.hash[id] != q.hash[id] ==> e.Enqueue? && e.id == id && e.status.Read?)
            && (id !in next.hash <==>
                  || (e.Ack? && e.id == id && Rank(q.hash[id]) <= Rank(e.status))
                  || Evicts(q, limit, e, id)
                  || e.Expire?)
  {
    if e.Enqueue? && !Ignored(q, e.id, e.status) {
      ZAddKeeps(q, e.id, e.status, e.now);
      FirstEvicted(ZAdd(q.index, e.id, e.now));
    }
  }

  lemma FirstEvicted(all: seq<Entry>)
    ensures all != [] ==> Ids(all[..1]) == {all[0].id}
  {
    if all != [] {
      assert all[..1] == [all[0]];
    }
  }

  /** The evicted entry is the least of all, the new one included. */
  lemma EvictedIsOldest(q: Queue, limit: nat, e: Event, id: string)
    requires InStep(q) && |q.index| <= limit && Evicts(q, limit, e, id)
    ensures forall other :: other in q.index ==> EntryLe(ZAdd(q.index, e.id, e.now)[0], other)
    ensures EntryLe(ZAdd(q.index, e.id, e.now)[0], Entry(e.now, e.id))
  {
    ZAddKeeps(q, e.id, e.status, e.now);
    var all := ZAdd(q.index, e.id, e.now);
    EntryLePreorder();
    forall other | other in all
      ensures EntryLe(all[0], other)
    {
      var k :| 0 <= k < |all| && all[k] == other;
    }
    forall other | other in q.index
      ensures other in all
    {
      assert other.id in q.hash;
    }
  }

  /** Late "delivered" acknowledgements never drop a "read" receipt: it waits for its own, or for eviction. */
  lemma {:induction false} ReadReceiptWaits(
    queues: seq<Queue>, limit: nat, events: seq<Event>, m: nat, n: nat, id: string
  )
    requires IsRun(queues, limit, events) && m <= n < |queues| && queues[0] == EMPTY
    requires id in queues[m].hash && queues[m].hash[id].Read?
    requires forall i :: m <= i < n ==> events[i] != Ack(id, Read) && !events[i].Expire?
    ensures (id in queues[n].hash && queues[n].hash[id].Read?)
            || exists i :: m <= i < n && Evicts(queues[i], limit, events[i], id)
  {
    if m == n {
    } else {
      ReadReceiptWaits(queues, limit, events, m, n - 1, id);
      RunKeeps(queues, limit, events, n - 1);
      if id in queues[n - 1].hash && queues[n - 1].hash[id].Read? {
        ReceiptLifecycle(queues[n - 1], limit, events[n - 1], id);
      }
    }
  }

  // ---- What an enqueue stores ------------------------------------------------------------------------------

  /**
   * The receipt would be a new one, the queue is full, and each one in it is later, or of the same time and a
   * later id.
   */
  ghost predicate TooOld(q: Queue, limit: nat, id: string, now: int) {
    && id !in q.hash && |q.index| == limit
    && forall e :: e in q.index ==> now < e.score || (now == e.score && Before(id, e.id))
  }

  /** The status is new for this id or stronger than the stored one. */
  predicate Strengthens(q: Queue, id: string, status: Status) {
    id !in q.hash || (q.hash[id] == Delivered && status == Read)
  }

  lemma SelfEvictedIff(q: Queue, limit: nat, id: string, status: Status, now: int)
    requires InStep(q) && |q.index| <= limit
    ensures Evicts(q, limit, Enqueue(id, status, now), id) <==> TooOld(q, limit, id, now)
  {
    ZAddKeeps(q, id, status, now);
    var all, own := ZAdd(q.index, id, now), Entry(now, id);
    EntryLePreorder();
    if Evicts(q, limit, Enqueue(id, status, now), id) {
      EvictedIsOldest(q, limit, Enqueue(id, status, now), id);
      assert all[0] in all;
      forall e | e in q.index
        ensures e.id != id
      {
      }
    }
    forall e | e in q.index
      ensures EntryLe(own, e) <==> now < e.score || (now == e.score && Before(id, e.id))
    {
      AtMostIff(id, e.id);
    }
    if TooOld(q, limit, id, now) {
      assert own in all && all[0] in all;
      var k :| 0 <= k < |all| && all[k] == own;
      assert EntryLe(all[0], own) && EntryLe(own, all[0]);
      AtMostTotal(all[0].id, id);
    }
  }

  /**
   * What an enqueue stores: the id is in the queue unless it is too old for a full one; its status is the
   * strongest so far; and its time is the enqueue's exactly when that status is new.
   */
  ghost predicate Stores(q: Queue, next: Queue, limit: nat, id: string, status: Status, now: int) {
    && (id in next.hash <==> !TooOld(q, limit, id, now))
    && (id in next.hash ==>
          && (next.hash[id] == Read <==> status == Read || (id in q.hash && q.hash[id] == Read))
          && forall e: Entry :: e.id == id ==>
               (e in next.index <==> if Strengthens(q, id, status) then e.score == now else e in q.index))
  }

  lemma EnqueueStores(q: Queue, limit: nat, id: string, status: Status, now: int)
    requires InStep(q) && |q.index| <= limit
    ensures Stores(q, Next(q, limit, Enqueue(id, status, now)), limit, id, status, now)
  {
    var e := Enqueue(id, status, now);
    SelfEvictedIff(q, limit, id, status, now);
    if !Ignored(q, id, status) {
      ZAddKeeps(q, id, status, now);
      EvictLeavesRest(Queue(q.hash[id := status], ZAdd(q.index, id, now)), limit);
    }
  }

  /** An eviction takes the first entry of a queue one too long, and leaves every other. */
  lemma EvictLeavesRest(q: Queue, limit: nat)
    requires InStep(q) && |q.index| <= limit + 1
    ensures var next := Evict(q, limit);
            && (|q.index| <= limit ==> next == q)
            && (|q.index| == limit + 1 ==>
                  && next.hash == q.hash - {q.index[0].id}
                  && forall e :: e in next.index <==> e in q.index && e.id != q.index[0].id)
  {
    if |q.index| == limit + 1 {
      FirstEvicted(q.index);
      assert q.index == [q.index[0]] + q.index[1..];
      forall e | e in q.index[1..]
        ensures e.id != q.index[0].id
      {
        var k :| 0 <= k < |q.index[1..]| && q.index[1..][k] == e;
        assert q.index[k + 1] == e;
      }
    }
  }

  /** The other receipts keep status and time, but for one that is evicted: no receipt is earlier than that. */
  lemma EnqueueLeavesOthers(q: Queue, limit: nat, id: string, status: Status, now: int, other: string)
    requires InStep(q) && |q.index| <= limit && other != id
    ensures var next := Next(q, limit, Enqueue(id, status, now));
            && (other in next.hash ==> SameReceipt(q, next, other))
            && (other in q.hash && other !in next.hash ==>
                  && id !in q.hash && |q.index| == limit
                  && forall e, f :: e in q.index && e.id == other && (f in q.index || f == Entry(now, id)) ==>
                       e.score <= f.score)
  {
    if !Ignored(q, id, status) {
      var all := ZAdd(q.index, id, now);
      ZAddKeeps(q, id, status, now);
      EvictLeavesRest(Queue(q.hash[id := status], all), limit);
      if other in q.hash && other !in Next(q, limit, Enqueue(id, status, now)).hash {
        EvictedIsOldest(q, limit, Enqueue(id, status, now), other);
        EntryOfFirst(q, all, other);
      }
    }
  }

  lemma EntryOfFirst(q: Queue, all: seq<Entry>, id: string)
    requires DistinctIds(all) && all != [] && all[0].id == id
    requires forall e :: e in q.index && e.id == id ==> e in all
    ensures forall e :: e in q.index && e.id == id ==> e == all[0]
  {
    forall e | e in q.index && e.id == id
      ensures e == all[0]
    {
      var k :| 0 <= k < |all| && all[k] == e;
    }
  }

  ghost predicate SameReceipt(q: Queue, next: Queue, id: string) {
    && id in q.hash && id in next.hash && next.hash[id] == q.hash[id]
    && forall e: Entry :: e.id == id ==> (e in next.index <==> e in q.index)
  }

  /** What is queued is listed: the id with its status, in the order of the times. */
  lemma QueuedIsListed(q: Queue, id: string, status: Status)
    requires InStep(q)
    ensures (id, status) in Listing(q, q.index) <==> id in q.hash && q.hash[id] == status
    ensures |Listing(q, q.index)| == |q.index|
    ensures forall i, j :: 0 <= i < j < |q.index| ==> q.index[i].score <= q.index[j].score
    ensures forall i :: 0 <= i < |q.index| ==> Listing(q, q.index)[i].0 == q.index[i].id
  {
    ListingHolds(q, q.index);
    forall i, j | 0 <= i < j < |q.index|
      ensures q.index[i].score <= q.index[j].score
    {
      assert EntryLe(q.index[i], q.index[j]);
    }
  }

  ghost predicate Stems(e: Event, q: Queue, id: string) {
    id in q.hash && e.Enqueue? && e.id == id && e.status == q.hash[id] && Entry(e.now, id) in q.index
  }

  /** A step that neither adds nor strengthens a receipt leaves it as it was, or takes it out. */
  lemma ReceiptKept(q: Queue, limit: nat, e: Event, id: string)
    requires InStep(q) && |q.index| <= limit && id in Next(q, limit, e).hash
    ensures SameReceipt(q, Next(q, limit, e), id) || (e.Enqueue? && e.id == id && Stems(e, Next(q, limit, e), id))
  {
    match e
    case Enqueue(other, status, now) =>
      if other == id {
        EnqueueStores(q, limit, id, status, now);
        assert Entry(now, id).id == id;
      } else {
        EnqueueLeavesOthers(q, limit, other, status, now, id);
      }
    case Ack(other, _) => WithoutRemoves(q.index, other);
    case Expire =>
  }

  /** In every run no receipt is invented: each stems from one enqueue, which gave its status and its time. */
  lemma {:induction false} NothingInvented(queues: seq<Queue>, limit: nat, events: seq<Event>, n: nat, id: string)
    requires IsRun(queues, limit, events) && n < |queues| && queues[0] == EMPTY && id in queues[n].hash
    ensures exists i :: 0 <= i < n && Stems(events[i], queues[n], id)
  {
    RunKeeps(queues, limit, events, n - 1);
    ReceiptKept(queues[n - 1], limit, events[n - 1], id);
    if SameReceipt(queues[n - 1], queues[n], id) {
      NothingInvented(queues, limit, events, n - 1, id);
      var i :| 0 <= i < n - 1 && Stems(events[i], queues[n - 1], id);
      assert Entry(events[i].now, id).id == id;
      assert Stems(events[i], queues[n], id);
    }
  }



  // ---- The Redis commands, one at a time -------------------------------------------------------------------

  class ReceiptQueue {
    const limit: nat
    var hash: map<string, Status>
    var index: seq<Entry>

    function Contents(): Queue
      reads this
    {
      Queue(hash, index)
    }

    constructor (limit: nat)
      ensures Contents() == EMPTY && this.limit == limit
    {
      this.limit, hash, index := limit, map[], [];
    }

    method QueueReceipt(id: string, status: Status, now: int)
      modifies this
      ensures Contents() == Next(old(Contents()), limit, Enqueue(id, status, now))
      ensures old(InStep(Contents()) && |index| <= limit) ==>
                Stores(old(Contents()), Contents(), limit, id, status, now)
    {
      ghost var q := Contents();
      if InStep(q) && |index| <= limit {
        EnqueueStores(q, limit, id, status, now);
      }
      if id in hash && hash[id].Read? {
        return;
      }
      if id in hash && hash[id].Delivered? && status.Delivered? {
        return;
      }
      hash := hash[id := status];
      index := ZAdd(index, id, now);
      var size := |index|;
      if size > limit {
        var overflow := size - limit;
        var oldest := index[..overflow];
        index := index[overflow..];
        hash := hash - Ids(oldest);
      }
    }

    method RemoveQueuedReceipt(id: string, status: Status)
      modifies this
      ensures Contents() == Next(old(Contents()), limit, Ack(id, status))
    {
      if id !in hash {
        return;
      }
      if hash[id].Read? && status.Delivered? {
        return;
      }
      hash := hash - {id};
      index := Without(index, id);
    }

    /**
     * The receipts in index order, members without a status left out; every stored receipt once while both are
     * in step.
     */
    method GetQueuedReceipts() returns (receipts: seq<(string, Status)>)
      ensures receipts == Listing(Contents(), index)
      ensures InStep(Contents()) ==>
                |receipts| == |index| == |hash| && forall i :: 0 <= i < |index| ==> receipts[i].0 == index[i].id
      ensures forall i :: 0 <= i < |receipts| ==> receipts[i].0 in hash && receipts[i].1 == hash[receipts[i].0]
      ensures forall id :: id in hash && id in Ids(index) ==> (id, hash[id]) in receipts
    {
      receipts := [];
      for i := 0 to |index|
        invariant receipts == Listing(Contents(), index[..i])
      {
        assert index[..i + 1][..i] == index[..i];
        var id := index[i].id;
        if id in hash {
          receipts := receipts + [(id, hash[id])];
        }
      }
      assert index[..|index|] == index;
      ListingHolds(Contents(), index);
      if InStep(Contents()) {
        DistinctIdsCount(index);
      }
    }
  }

  /** The members of the index that have a status in the hash, with it. */
  function Listing(q: Queue, index: seq<Entry>): seq<(string, Status)> {
    if index == [] then []
    else
      var last := index[|index| - 1].id;
      Listing(q, index[..|index| - 1]) + if last in q.hash then [(last, q.hash[last])] else []
  }

  lemma {:induction false} ListingHolds(q: Queue, index: seq<Entry>)
    ensures forall r :: r in Listing(q, index) <==> r.0 in q.hash && r.1 == q.hash[r.0] && r.0 in Ids(index)
    ensures Ids(index) <= q.hash.Keys ==>
              |Listing(q, index)| == |index| && forall i :: 0 <= i < |index| ==> Listing(q, index)[i].0 == index[i].id
  {
    if index == [] {
    } else {
      var front, last := index[..|index| - 1], index[|index| - 1];
      ListingHolds(q, front);
      assert index == front + [last];
      assert Ids(index) == Ids(front) + {last.id};
    }
  }

  lemma {:induction false} DistinctIdsCount(index: seq<Entry>)
    requires DistinctIds(index)
    ensures |Ids(index)| == |index|
  {
    if index == [] {
      assert Ids(index) == {};
    } else {
      var rest := index[1..];
      assert index == [index[0]] + rest;
      DistinctIdsCount(rest);
      assert Ids(index) == Ids(rest) + {index[0].id};
      assert index[0].id !in Ids(rest);
    }
  }
}
