/** The manifest that closes a backup: how it is counted up, checked and compared. */
module Manifest {
  import opened Common
  import opened Constants
  import opened Sorting

  datatype Counts = Counts(
    peerKeys: int, messages: int, linkPreviews: int, outbox: int, attachments: int, attachmentChunks: int,
    transferQueue: int, transferQueueChunks: int, remoteMedia: int, remoteMediaChunks: int)

  datatype Entry = Entry(objectId: string, chunkCount: int, size: int)
  datatype Objects = Objects(attachments: seq<Entry>, transferQueue: seq<Entry>, remoteMedia: seq<Entry>)
  datatype Summary = Summary(backupId: Bytes, mode: string, createdAt: int, totalRecordCount: int)
  datatype Payload = Payload(
    backupId: Bytes, mode: string, createdAt: int, totalRecordCount: int, counts: Counts, objects: Objects)

  datatype Family = Attachments | TransferQueue | RemoteMedia
  datatype Kind = Identity | PeerKeys | Messages | LinkPreviews | Outbox | Meta(of: Family) | Chunk(of: Family)

  /** One call of `trackRecord`; absent arguments are `None`. */
  datatype Call = Call(kind: Kind, itemCount: Option<int>, objectId: Option<string>, chunkCount: Option<int>,
                       size: Option<int>)

  datatype State = State(counts: Counts, objects: Objects, tracked: int)

  const EMPTY_COUNTS: Counts := Counts(0, 0, 0, 0, 0, 0, 0, 0, 0, 0)
  const INITIAL: State := State(EMPTY_COUNTS, Objects([], [], []), 0)

  // ---- Tracking --------------------------------------------------------------------------------------

  function ItemCount(call: Call): int { if call.itemCount.Some? then call.itemCount.value else 0 }

  predicate CountAccepted(call: Call) { IsNonNegativeSafeInteger(ItemCount(call)) }

  /** `None` when the source throws. */
  function CreateObjectEntry(call: Call): Option<Entry> {
    if call.objectId == None || call.objectId == Some("") then None
    else if call.chunkCount == None || !IsPositiveSafeInteger(call.chunkCount.value) then None
    else if call.size == None || !IsNonNegativeSafeInteger(call.size.value) then None
    else Some(Entry(call.objectId.value, call.chunkCount.value, call.size.value))
  }

  function Bump(c: Counts, kind: Kind, items: int): Counts {
    match kind
    case Identity => c
    case PeerKeys => c.(peerKeys := c.peerKeys + items)
    case Messages => c.(messages := c.messages + items)
    case LinkPreviews => c.(linkPreviews := c.linkPreviews + items)
    case Outbox => c.(outbox := c.outbox + items)
    case Meta(Attachments) => c.(attachments := c.attachments + 1)
    case Meta(TransferQueue) => c.(transferQueue := c.transferQueue + 1)
    case Meta(RemoteMedia) => c.(remoteMedia := c.remoteMedia + 1)
    case Chunk(Attachments) => c.(attachmentChunks := c.attachmentChunks + 1)
    case Chunk(TransferQueue) => c.(transferQueueChunks := c.transferQueueChunks + 1)
    case Chunk(RemoteMedia) => c.(remoteMediaChunks := c.remoteMediaChunks + 1)
  }

  function Push(o: Objects, family: Family, entry: Entry): Objects {
    match family
    case Attachments => o.(attachments := o.attachments + [entry])
    case TransferQueue => o.(transferQueue := o.transferQueue + [entry])
    case RemoteMedia => o.(remoteMedia := o.remoteMedia + [entry])
  }

  predicate Accepted(call: Call) { CountAccepted(call) && (call.kind.Meta? ==> CreateObjectEntry(call).Some?) }

  /**
   * The state after a call, accepted or not: a bad item count is refused before anything changes, a bad
   * object only after the record and the object have been counted.
   */
  function Track(s: State, call: Call): State {
    if !CountAccepted(call) then s
    else
      var counted := State(Bump(s.counts, call.kind, ItemCount(call)), s.objects, s.tracked + 1);
      if call.kind.Meta? && CreateObjectEntry(call).Some? then
        counted.(objects := Push(s.objects, call.kind.of, CreateObjectEntry(call).value))
      else counted
  }

  function TrackAll(calls: seq<Call>): State {
    if calls == [] then INITIAL else Track(TrackAll(calls[..|calls| - 1]), calls[|calls| - 1])
  }

  lemma TrackOne(calls: seq<Call>, call: Call)
    ensures TrackAll(calls + [call]) == Track(TrackAll(calls), call)
  {
    assert (calls + [call])[..|calls|] == calls;
  }

  function Build(s: State, summary: Summary): Payload {
    Payload(summary.backupId, summary.mode, summary.createdAt, s.tracked + 1, s.counts, s.objects)
  }

  class ManifestBuilder {
    const summary: Summary
    var counts: Counts
    var attachments: seq<Entry>
    var transferQueue: seq<Entry>
    var remoteMedia: seq<Entry>
    var trackedRecordCount: int
    /** Every call so far, refused ones included. */
    ghost var calls: seq<Call>

    constructor (summary: Summary)
      ensures this.summary == summary && calls == [] && Valid()
    {
      this.summary := summary;
      counts := EMPTY_COUNTS;
      attachments, transferQueue, remoteMedia := [], [], [];
      trackedRecordCount := 0;
      calls := [];
    }

    ghost function Contents(): State
      reads this
    {
      State(counts, Objects(attachments, transferQueue, remoteMedia), trackedRecordCount)
    }

    /** The counters and lists are what the calls so far amount to. */
    ghost predicate Valid()
      reads this
    {
      Contents() == TrackAll(calls)
    }

    method TrackRecord(call: Call) returns (ok: bool)
      requires Valid()
      modifies this
      ensures Valid() && calls == old(calls) + [call]
      ensures ok == Accepted(call)
    {
      TrackOne(calls, call);
      ok := Count(call);
      calls := calls + [call];
    }

    method Count(call: Call) returns (ok: bool)
      modifies this
      ensures Contents() == Track(old(Contents()), call) && calls == old(calls)
      ensures ok == Accepted(call)
    {
      var items := if call.itemCount.Some? then call.itemCount.value else 0;
      if !IsNonNegativeSafeInteger(items) {
        return false;
      }
      trackedRecordCount := trackedRecordCount + 1;
      match call.kind {
        case Identity =>
        case PeerKeys => counts := counts.(peerKeys := counts.peerKeys + items);
        case Messages => counts := counts.(messages := counts.messages + items);
        case LinkPreviews => counts := counts.(linkPreviews := counts.linkPreviews + items);
        case Outbox => counts := counts.(outbox := counts.outbox + items);
        case Meta(family) =>
          counts := Bump(counts, call.kind, items);
          var entry := CreateObjectEntry(call);
          if entry == None {
            return false;
          }
          match family {
            case Attachments => attachments := attachments + [entry.value];
            case TransferQueue => transferQueue := transferQueue + [entry.value];
            case RemoteMedia => remoteMedia := remoteMedia + [entry.value];
          }
        case Chunk(_) => counts := Bump(counts, call.kind, items);
      }
      return true;
    }

    /** The manifest the validator accepts, for the number of records written, exactly when the calls are in balance. */
    method BuildPayload() returns (payload: Payload)
      requires Valid()
      ensures payload.backupId == summary.backupId && payload.mode == summary.mode
      ensures payload.createdAt == summary.createdAt
      ensures payload.totalRecordCount == CountedCalls(calls) + 1
      ensures forall family ::
                && ObjectCount(payload.counts, family) == MetaCalls(calls, family)
                && ChunkCount(payload.counts, family) == ChunkCalls(calls, family)
                && ChunkTotal(EntriesOf(payload.objects, family)) == DeclaredChunks(calls, family)
      ensures ValidSummary(summary) && SafeCounts(payload.counts) && IsPositiveSafeInteger(payload.totalRecordCount) ==>
                (ValidateManifestPayload(payload, summary.(totalRecordCount := payload.totalRecordCount)) <==>
                   FamilyBalanced(calls, Attachments) && FamilyBalanced(calls, TransferQueue) &&
                     FamilyBalanced(calls, RemoteMedia))
    {
      payload := Payload(summary.backupId, summary.mode, summary.createdAt, trackedRecordCount + 1, counts,
                         Objects(attachments, transferQueue, remoteMedia));
      TotalsTracked(calls);
      forall family
        ensures ObjectCount(payload.counts, family) == MetaCalls(calls, family)
        ensures ChunkCount(payload.counts, family) == ChunkCalls(calls, family)
        ensures ChunkTotal(EntriesOf(payload.objects, family)) == DeclaredChunks(calls, family)
      {
        FamilyTracked(calls, family);
      }
      if ValidSummary(summary) && SafeCounts(payload.counts) && IsPositiveSafeInteger(payload.totalRecordCount) {
        BuiltManifestAcceptedIff(calls, summary.(totalRecordCount := payload.totalRecordCount));
      }
    }
  }

  // ---- Validation ------------------------------------------------------------------------------------

  predicate SafeCounts(c: Counts) {
    && IsNonNegativeSafeInteger(c.peerKeys) && IsNonNegativeSafeInteger(c.messages)
    && IsNonNegativeSafeInteger(c.linkPreviews)
    && IsNonNegativeSafeInteger(c.outbox) && IsNonNegativeSafeInteger(c.attachments)
    && IsNonNegativeSafeInteger(c.attachmentChunks)
    && IsNonNegativeSafeInteger(c.transferQueue) && IsNonNegativeSafeInteger(c.transferQueueChunks)
    && IsNonNegativeSafeInteger(c.remoteMedia) && IsNonNegativeSafeInteger(c.remoteMediaChunks)
  }

  predicate ValidEntry(entry: Entry) {
    |entry.objectId| > 0 && IsNonNegativeSafeInteger(entry.size) && IsPositiveSafeInteger(entry.chunkCount)
  }

  predicate ValidEntries(entries: seq<Entry>) { forall i :: 0 <= i < |entries| ==> ValidEntry(entries[i]) }

  function ChunkTotal(entries: seq<Entry>): int {
    if entries == [] then 0 else ChunkTotal(entries[..|entries| - 1]) + entries[|entries| - 1].chunkCount
  }

  /** `validateManifestPayload` returns rather than throws. */
  predicate ValidateManifestPayload(p: Payload, summary: Summary) {
    && ValidMode(p.mode) && IsPositiveSafeInteger(p.totalRecordCount) && IsPositiveSafeInteger(p.createdAt)
    && |p.backupId| == BACKUP_ID_BYTES && SafeCounts(p.counts)
    && ValidEntries(p.objects.attachments) && ValidEntries(p.objects.transferQueue)
    && ValidEntries(p.objects.remoteMedia)
    && p.backupId == summary.backupId && p.mode == summary.mode && p.createdAt == summary.createdAt
    && p.totalRecordCount == summary.totalRecordCount
    && p.counts.attachments == |p.objects.attachments| && p.counts.transferQueue == |p.objects.transferQueue|
    && p.counts.remoteMedia == |p.objects.remoteMedia|
    && p.counts.attachmentChunks == ChunkTotal(p.objects.attachments)
    && p.counts.transferQueueChunks == ChunkTotal(p.objects.transferQueue)
    && p.counts.remoteMediaChunks == ChunkTotal(p.objects.remoteMedia)
  }

  // ---- What a run of calls amounts to ----------------------------------------------------------------

  /** Calls that reach the counting: their item count is not refused. */
  function CountedCalls(calls: seq<Call>): nat {
    if calls == [] then 0
    else CountedCalls(calls[..|calls| - 1]) + if CountAccepted(calls[|calls| - 1]) then 1 else 0
  }

  function ChunkCalls(calls: seq<Call>, family: Family): nat {
    if calls == [] then 0
    else
      var last := calls[|calls| - 1];
      ChunkCalls(calls[..|calls| - 1], family) + if CountAccepted(last) && last.kind == Chunk(family) then 1 else 0
  }

  predicate Declares(call: Call, family: Family) {
    CountAccepted(call) && call.kind == Meta(family) && CreateObjectEntry(call).Some?
  }

  /** The chunk counts declared by the accepted objects of a family. */
  function DeclaredChunks(calls: seq<Call>, family: Family): int {
    if calls == [] then 0
    else
      var last := calls[|calls| - 1];
      DeclaredChunks(calls[..|calls| - 1], family) + if Declares(last, family) then last.chunkCount.value else 0
  }

  function ItemTotal(calls: seq<Call>, kind: Kind): int {
    if calls == [] then 0
    else
      var last := calls[|calls| - 1];
      ItemTotal(calls[..|calls| - 1], kind) + if CountAccepted(last) && last.kind == kind then ItemCount(last) else 0
  }

  function MetaCalls(calls: seq<Call>, family: Family): nat {
    if calls == [] then 0
    else
      var last := calls[|calls| - 1];
      MetaCalls(calls[..|calls| - 1], family) + if CountAccepted(last) && last.kind == Meta(family) then 1 else 0
  }

  /** An object call refused after it was counted. */
  predicate HalfTracked(call: Call) { CountAccepted(call) && call.kind.Meta? && CreateObjectEntry(call) == None }

  ghost predicate NoneHalfTracked(calls: seq<Call>, family: Family) {
    forall i :: 0 <= i < |calls| ==> HalfTracked(calls[i]) ==> calls[i].kind != Meta(family)
  }

  function EntriesOf(o: Objects, family: Family): seq<Entry> {
    match family
    case Attachments => o.attachments
    case TransferQueue => o.transferQueue
    case RemoteMedia => o.remoteMedia
  }

  function ObjectCount(c: Counts, family: Family): int {
    match family
    case Attachments => c.attachments
    case TransferQueue => c.transferQueue
    case RemoteMedia => c.remoteMedia
  }

  function ChunkCount(c: Counts, family: Family): int {
    match family
    case Attachments => c.attachmentChunks
    case TransferQueue => c.transferQueueChunks
    case RemoteMedia => c.remoteMediaChunks
  }

  lemma ChunkTotalAppend(entries: seq<Entry>, entry: Entry)
    ensures ChunkTotal(entries + [entry]) == ChunkTotal(entries) + entry.chunkCount
  {
    assert (entries + [entry])[..|entries|] == entries;
  }

  /** One call's effect on a family: what it counts and what it lists. */
  lemma TrackStep(s: State, call: Call, family: Family)
    requires ValidEntries(EntriesOf(s.objects, family))
    ensures var t := Track(s, call);
            && ChunkCount(t.counts, family)
              == ChunkCount(s.counts, family) + (if CountAccepted(call) && call.kind == Chunk(family) then 1 else 0)
            && ObjectCount(t.counts, family)
              == ObjectCount(s.counts, family) + (if CountAccepted(call) && call.kind == Meta(family) then 1 else 0)
            && ChunkTotal(EntriesOf(t.objects, family))
            == ChunkTotal(EntriesOf(s.objects, family)) + (if Declares(call, family) then call.chunkCount.value else 0)
            && |EntriesOf(t.objects, family)|
              == |EntriesOf(s.objects, family)| + (if Declares(call, family) then 1 else 0)
            && ValidEntries(EntriesOf(t.objects, family))
  {
    if Declares(call, family) {
      ChunkTotalAppend(EntriesOf(s.objects, family), CreateObjectEntry(call).value);
      assert EntriesOf(Track(s, call).objects, family)
               == EntriesOf(s.objects, family) + [CreateObjectEntry(call).value];
    } else {
      assert EntriesOf(Track(s, call).objects, family) == EntriesOf(s.objects, family);
    }
  }

  /** What every family's lists and counters hold after any run of calls, refused ones included. */
  lemma {:induction false} FamilyTracked(calls: seq<Call>, family: Family)
    ensures var s := TrackAll(calls);
            && ChunkCount(s.counts, family) == ChunkCalls(calls, family)
            && ChunkTotal(EntriesOf(s.objects, family)) == DeclaredChunks(calls, family)
            && ObjectCount(s.counts, family) == MetaCalls(calls, family)
            && |EntriesOf(s.objects, family)| <= ObjectCount(s.counts, family)
            && (|EntriesOf(s.objects, family)| == ObjectCount(s.counts, family) <==> NoneHalfTracked(calls, family))
            && ValidEntries(EntriesOf(s.objects, family))
  {
    if calls == [] {
    } else {
      var before, last := calls[..|calls| - 1], calls[|calls| - 1];
      FamilyTracked(before, family);
      TrackStep(TrackAll(before), last, family);
      HalfTrackedStep(calls, family);
    }
  }

  lemma HalfTrackedStep(calls: seq<Call>, family: Family)
    requires calls != []
    ensures NoneHalfTracked(calls, family) <==>
            && NoneHalfTracked(calls[..|calls| - 1], family)
            && (HalfTracked(calls[|calls| - 1]) ==> calls[|calls| - 1].kind != Meta(family))
  {
    assert calls == calls[..|calls| - 1] + [calls[|calls| - 1]];
  }

  lemma {:induction false} TotalsTracked(calls: seq<Call>)
    ensures var s := TrackAll(calls);
            && s.tracked == CountedCalls(calls)
            && s.counts.peerKeys == ItemTotal(calls, PeerKeys) && s.counts.messages == ItemTotal(calls, Messages)
            && s.counts.linkPreviews == ItemTotal(calls, LinkPreviews) && s.counts.outbox == ItemTotal(calls, Outbox)
  {
    if calls == [] {
    } else {
      TotalsTracked(calls[..|calls| - 1]);
    }
  }

  ghost predicate FamilyBalanced(calls: seq<Call>, family: Family) {
    NoneHalfTracked(calls, family) && ChunkCalls(calls, family) == DeclaredChunks(calls, family)
  }

  predicate ValidSummary(summary: Summary) {
    ValidMode(summary.mode) && IsPositiveSafeInteger(summary.createdAt) && |summary.backupId| == BACKUP_ID_BYTES
  }

  /**
   * For every sequence of calls, refused ones included, the validator accepts the built manifest against
   * a record count exactly when that count is the counted calls plus the manifest itself and in every
   * family no object was refused after counting and the chunk records are as many as declared.
   */
  lemma BuiltManifestAcceptedIff(calls: seq<Call>, summary: Summary)
    requires ValidSummary(summary)
    requires SafeCounts(TrackAll(calls).counts) && IsPositiveSafeInteger(CountedCalls(calls) + 1)
    ensures ValidateManifestPayload(Build(TrackAll(calls), summary), summary) <==>
            && summary.totalRecordCount == CountedCalls(calls) + 1
            && FamilyBalanced(calls, Attachments) && FamilyBalanced(calls, TransferQueue)
            && FamilyBalanced(calls, RemoteMedia)
  {
    TotalsTracked(calls);
    FamilyTracked(calls, Attachments);
    FamilyTracked(calls, TransferQueue);
    FamilyTracked(calls, RemoteMedia);
  }

  lemma {:induction false} AllCounted(calls: seq<Call>)
    requires forall i :: 0 <= i < |calls| ==> Accepted(calls[i])
    ensures CountedCalls(calls) == |calls|
  {
    if calls == [] {
    } else {
      AllCounted(calls[..|calls| - 1]);
    }
  }

  /** When every call was accepted, only the chunk records and the total decide. */
  lemma AcceptedCallsManifest(calls: seq<Call>, summary: Summary)
    requires ValidSummary(summary) && forall i :: 0 <= i < |calls| ==> Accepted(calls[i])
    requires SafeCounts(TrackAll(calls).counts) && IsPositiveSafeInteger(|calls| + 1)
    ensures ValidateManifestPayload(Build(TrackAll(calls), summary), summary.(totalRecordCount := |calls| + 1)) <==>
            forall family :: ChunkCalls(calls, family) == DeclaredChunks(calls, family)
  {
    AllCounted(calls);
    NothingHalfTracked(calls, Attachments);
    NothingHalfTracked(calls, TransferQueue);
    NothingHalfTracked(calls, RemoteMedia);
    EveryFamily(calls);
    var counted := summary.(totalRecordCount := |calls| + 1);
    assert Build(TrackAll(calls), counted) == Build(TrackAll(calls), summary);
    BuiltManifestAcceptedIff(calls, counted);
  }

  lemma NothingHalfTracked(calls: seq<Call>, family: Family)
    requires forall i :: 0 <= i < |calls| ==> Accepted(calls[i])
    ensures NoneHalfTracked(calls, family)
  {
  }

  lemma EveryFamily(calls: seq<Call>)
    ensures (forall family :: ChunkCalls(calls, family) == DeclaredChunks(calls, family)) <==>
            && ChunkCalls(calls, Attachments) == DeclaredChunks(calls, Attachments)
            && ChunkCalls(calls, TransferQueue) == DeclaredChunks(calls, TransferQueue)
            && ChunkCalls(calls, RemoteMedia) == DeclaredChunks(calls, RemoteMedia)
  {
    if forall family :: family == Attachments || family == TransferQueue || family == RemoteMedia ==>
        ChunkCalls(calls, family) == DeclaredChunks(calls, family) {
      forall family
        ensures ChunkCalls(calls, family) == DeclaredChunks(calls, family)
      {
        assert family == Attachments || family == TransferQueue || family == RemoteMedia;
      }
    }
  }

  /** One refused object is enough: no later calls make the manifest acceptable again. */
  lemma RefusedObjectPoisonsBuilder(calls: seq<Call>, later: seq<Call>, summary: Summary, i: nat)
    requires i < |calls| && HalfTracked(calls[i])
    ensures !ValidateManifestPayload(Build(TrackAll(calls + later), summary), summary)
  {
    var all := calls + later;
    assert HalfTracked(all[i]);
    FamilyTracked(all, calls[i].kind.of);
  }

  // ---- What the exporter tracks -----------------------------------------------------------------------

  function ChunkRun(family: Family, n: nat): seq<Call> {
    seq(n, _ => Call(Chunk(family), None, None, None, None))
  }

  function MetaCall(family: Family, entry: Entry): Call {
    Call(Meta(family), None, Some(entry.objectId), Some(entry.chunkCount), Some(entry.size))
  }

  lemma {:induction false} TalliesAppend(a: seq<Call>, b: seq<Call>, family: Family)
    ensures ChunkCalls(a + b, family) == ChunkCalls(a, family) + ChunkCalls(b, family)
    ensures DeclaredChunks(a + b, family) == DeclaredChunks(a, family) + DeclaredChunks(b, family)
  {
    if b == [] {
      assert a + b == a;
    } else {
      TalliesAppend(a, b[..|b| - 1], family);
      assert (a + b)[..|a + b| - 1] == a + b[..|b| - 1];
    }
  }

  lemma {:induction false} ChunkRunTallies(family: Family, n: nat, other: Family)
    ensures ChunkCalls(ChunkRun(family, n), other) == if other == family then n else 0
    ensures DeclaredChunks(ChunkRun(family, n), other) == 0
  {
    if n == 0 {
    } else {
      ChunkRunTallies(family, n - 1, other);
      assert ChunkRun(family, n)[..n - 1] == ChunkRun(family, n - 1);
    }
  }

  lemma ObjectBalances(family: Family, entry: Entry, other: Family)
    requires ValidEntry(entry)
    ensures var calls := [MetaCall(family, entry)] + ChunkRun(family, entry.chunkCount);
            ChunkCalls(calls, other) == DeclaredChunks(calls, other)
  {
    var meta := [MetaCall(family, entry)];
    assert meta[..0] == [];
    ChunkRunTallies(family, entry.chunkCount, other);
    TalliesAppend(meta, ChunkRun(family, entry.chunkCount), other);
  }

  predicate IsBatch(call: Call) { CountAccepted(call) && !call.kind.Meta? && !call.kind.Chunk? }

  lemma {:induction false} BatchesBalance(batches: seq<Call>, family: Family)
    requires forall i :: 0 <= i < |batches| ==> IsBatch(batches[i])
    ensures ChunkCalls(batches, family) == 0 && DeclaredChunks(batches, family) == 0
  {
    if batches == [] {
    } else {
      BatchesBalance(batches[..|batches| - 1], family);
    }
  }

  // ---- Comparison with the restored records --------------------------------------------------------------

  /** The comparator of the object lists, over a string comparison such as `localeCompare`. */
  function CompareEntries(ids: (string, string) -> int, a: Entry, b: Entry): int {
    if a.objectId != b.objectId then ids(a.objectId, b.objectId)
    else if a.chunkCount != b.chunkCount then a.chunkCount - b.chunkCount
    else a.size - b.size
  }

  function EntryOrder(ids: (string, string) -> int): (Entry, Entry) -> bool {
    (a: Entry, b: Entry) => CompareEntries(ids, a, b) <= 0
  }

  predicate SameObjects(ids: (string, string) -> int, left: seq<Entry>, right: seq<Entry>) {
    |left| == |right| && StableSort(EntryOrder(ids), left) == StableSort(EntryOrder(ids), right)
  }

  method CompareManifestObjectEntries(
    ids: (string, string) -> int, left: seq<Entry>, right: seq<Entry>
  ) returns (same: bool)
    ensures same == SameObjects(ids, left, right)
  {
    if |left| != |right| {
      return false;
    }
    var sortedLeft, sortedRight := StableSort(EntryOrder(ids), left), StableSort(EntryOrder(ids), right);
    SortPermutes(EntryOrder(ids), left);
    SortPermutes(EntryOrder(ids), right);
    same := EveryEntryEqual(sortedLeft, sortedRight);
  }

  method EveryEntryEqual(left: seq<Entry>, right: seq<Entry>) returns (same: bool)
    requires |left| == |right|
    ensures same <==> left == right
  {
    var i := 0;
    while i < |left|
      invariant 0 <= i <= |left| && left[..i] == right[..i]
    {
      if left[i].objectId == right[i].objectId && left[i].chunkCount == right[i].chunkCount &&
        left[i].size == right[i].size {
        i := i + 1;
      } else {
        return false;
      }
    }
    return true;
  }

  method CompareBytes(left: Bytes, right: Bytes) returns (same: bool)
    ensures same <==> left == right
  {
    if |left| != |right| {
      return false;
    }
    var i := 0;
    while i < |left|
      invariant 0 <= i <= |left| && left[..i] == right[..i]
    {
      if left[i] != right[i] {
        return false;
      }
      i := i + 1;
    }
    return true;
  }

  /** Whatever the string comparison answers, lists are accepted only when equal as multisets. */
  lemma SameObjectsAreEqual(ids: (string, string) -> int, left: seq<Entry>, right: seq<Entry>)
    requires SameObjects(ids, left, right)
    ensures multiset(left) == multiset(right)
  {
    SortPermutes(EntryOrder(ids), left);
    SortPermutes(EntryOrder(ids), right);
  }

  ghost predicate OrdersIds(ids: (string, string) -> int) {
    && (forall a, b :: ids(a, b) <= 0 || ids(b, a) <= 0)
    && (forall a, b, c :: ids(a, b) <= 0 && ids(b, c) <= 0 ==> ids(a, c) <= 0)
  }

  ghost predicate NeverTies(ids: (string, string) -> int) {
    forall a, b :: ids(a, b) <= 0 && ids(b, a) <= 0 ==> a == b
  }

  lemma EntryOrderTotal(ids: (string, string) -> int)
    requires OrdersIds(ids) && NeverTies(ids)
    ensures TotalPreorder(EntryOrder(ids))
  {
    var le := EntryOrder(ids);
    forall x, y
      ensures le(x, y) || le(y, x)
    {
      assert ids(x.objectId, y.objectId) <= 0 || ids(y.objectId, x.objectId) <= 0;
    }
    forall x, y, z | le(x, y) && le(y, z)
      ensures le(x, z)
    {
      if x.objectId != y.objectId && y.objectId != z.objectId {
        assert ids(x.objectId, z.objectId) <= 0;
      }
    }
  }

  ghost predicate OrderIrrelevant(ids: (string, string) -> int) {
    forall left, right :: multiset(left) == multiset(right) ==> SameObjects(ids, left, right)
  }

  lemma EqualListsAccepted(ids: (string, string) -> int, left: seq<Entry>, right: seq<Entry>)
    requires OrdersIds(ids) && NeverTies(ids) && multiset(left) == multiset(right)
    ensures SameObjects(ids, left, right)
  {
    var le := EntryOrder(ids);
    EntryOrderTotal(ids);
    SortPermutes(le, left);
    SortPermutes(le, right);
    SortSorts(le, left);
    SortSorts(le, right);
    SameMembers(left, right);
    forall x, y | le(x, y) && le(y, x)
      ensures x == y
    {
      assert x.objectId != y.objectId ==> ids(x.objectId, y.objectId) <= 0 && ids(y.objectId, x.objectId) <= 0;
    }
    SortedIsUnique(le, StableSort(le, left), StableSort(le, right));
  }

  lemma TiedListsRefused(ids: (string, string) -> int, a: string, b: string)
    requires a != b && ids(a, b) <= 0 && ids(b, a) <= 0
    ensures var x, y := Entry(a, 1, 0), Entry(b, 1, 0);
            multiset([x, y]) == multiset([y, x]) && !SameObjects(ids, [x, y], [y, x])
  {
    var le, x, y := EntryOrder(ids), Entry(a, 1, 0), Entry(b, 1, 0);
    assert StableSort(le, [x]) == [x] && StableSort(le, [y]) == [y];
    assert [x, y][1..] == [y] && [y, x][1..] == [x];
    assert StableSort(le, [x, y]) == [x, y] && StableSort(le, [y, x]) == [y, x];
    assert [x, y][0] != [y, x][0];
  }

  /** Record order never affects the verdict exactly when the string comparison ties no two different ids. */
  lemma OrderIrrelevantIffNoTies(ids: (string, string) -> int)
    requires OrdersIds(ids)
    ensures OrderIrrelevant(ids) <==> NeverTies(ids)
  {
    if NeverTies(ids) {
      forall left, right | multiset(left) == multiset(right)
        ensures SameObjects(ids, left, right)
      {
        EqualListsAccepted(ids, left, right);
      }
    } else {
      var a, b :| ids(a, b) <= 0 && ids(b, a) <= 0 && a != b;
      TiedListsRefused(ids, a, b);
    }
  }

  /** `assertManifestMatchesExpected` returns rather than throws. */
  predicate MatchesExpected(ids: (string, string) -> int, p: Payload, expected: Payload) {
    && p.backupId == expected.backupId && p.mode == expected.mode && p.createdAt == expected.createdAt
    && p.totalRecordCount == expected.totalRecordCount && p.counts == expected.counts
    && SameObjects(ids, p.objects.attachments, expected.objects.attachments)
    && SameObjects(ids, p.objects.transferQueue, expected.objects.transferQueue)
    && SameObjects(ids, p.objects.remoteMedia, expected.objects.remoteMedia)
  }

  /** Equality of manifests, the object lists taken without their order. */
  ghost predicate SameUpToOrder(p: Payload, q: Payload) {
    && p == q.(objects := p.objects)
    && multiset(p.objects.attachments) == multiset(q.objects.attachments)
    && multiset(p.objects.transferQueue) == multiset(q.objects.transferQueue)
    && multiset(p.objects.remoteMedia) == multiset(q.objects.remoteMedia)
  }

  lemma MatchIsEqualityUpToOrder(ids: (string, string) -> int, p: Payload, expected: Payload)
    ensures MatchesExpected(ids, p, expected) ==> SameUpToOrder(p, expected)
    ensures OrdersIds(ids) && NeverTies(ids) ==> (MatchesExpected(ids, p, expected) <==> SameUpToOrder(p, expected))
  {
    if MatchesExpected(ids, p, expected) {
      SameObjectsAreEqual(ids, p.objects.attachments, expected.objects.attachments);
      SameObjectsAreEqual(ids, p.objects.transferQueue, expected.objects.transferQueue);
      SameObjectsAreEqual(ids, p.objects.remoteMedia, expected.objects.remoteMedia);
    }
    if OrdersIds(ids) && NeverTies(ids) && SameUpToOrder(p, expected) {
      EqualListsAccepted(ids, p.objects.attachments, expected.objects.attachments);
      EqualListsAccepted(ids, p.objects.transferQueue, expected.objects.transferQueue);
      EqualListsAccepted(ids, p.objects.remoteMedia, expected.objects.remoteMedia);
    }
  }
}
