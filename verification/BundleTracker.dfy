/** The in-flight bundles and the interleaving of the tasks that update them.

    The result handler checks that a bundle is tracked, may read its slot, and
    updates it later; the pruner collects expired bundles and updates them later;
    registrations come at any time. The consumer that registered a bundle may
    receive its record. Each locked section, and each receive, is one step here. */
module BundleTracking {
  import opened Primitives
  import opened Types

  const MAX_BUNDLE_AGE_MS := 120_000

  type BundleId = string

  datatype InclusionStatus =
    | Pending
    | Landed(slot: u64, bundleIndex: u64, validator: string)
    | Finalized(slot: u64, bundleIndex: u64)
    | Rejected(reason: string)
    | Dropped(reason: string)
    | Expired
  {
    predicate IsConfirmed() {
      Landed? || Finalized?
    }

    predicate IsTerminal() {
      !Pending?
    }

    /** The landing slot, or zero when there is none. */
    function SlotOrZero(): u64 {
      if Landed? || Finalized? then this.slot else 0
    }
  }

  /** `notify` is the sending half of the caller's channel, taken when it is used. */
  datatype BundleRecord = BundleRecord(
    bundleId: BundleId,
    region: string,
    mint: Pubkey,
    transactionSignature: string,
    submittedAt: nat,
    status: InclusionStatus,
    notify: Option<nat>)

  datatype LandedWrite = LandedWrite(bundleId: BundleId, region: string, mint: Pubkey, slot: u64, signature: string)

  /** The table, the inboxes of the channels handed out so far, and the landed rows
      the tracker itself wrote. `channelOf` remembers which channel was handed out
      with each tracked bundle. */
  datatype Tracker = Tracker(
    bundles: map<BundleId, BundleRecord>,
    inboxes: seq<seq<BundleRecord>>,
    landed: seq<LandedWrite>,
    channelOf: map<BundleId, nat>)

  const EMPTY_TRACKER := Tracker(map[], [], [], map[])

  /** Registration hands out a channel whether or not the bundle is new; only a new
      bundle keeps its sending half. */
  function Register(t: Tracker, r: BundleRecord): Tracker {
    var channel := |t.inboxes|;
    var t1 := t.(inboxes := t.inboxes + [[]]);
    if r.bundleId in t.bundles then t1
    else t1.(bundles := t.bundles[r.bundleId := r.(notify := Some(channel))],
             channelOf := t.channelOf[r.bundleId := channel])
  }

  function LandedRow(id: BundleId, r: BundleRecord, status: InclusionStatus): LandedWrite {
    LandedWrite(id, r.region, r.mint, status.SlotOrZero(), r.transactionSignature)
  }

  /** The one locked section that changes a status. A terminal status is never overwritten. */
  function Update(t: Tracker, id: BundleId, status: InclusionStatus): Tracker {
    if id !in t.bundles || t.bundles[id].status.IsTerminal() then t
    else
      var r := t.bundles[id];
      var stored := r.(status := status, notify := None);
      t.(bundles := t.bundles[id := stored],
         landed := if status.IsConfirmed() then t.landed + [LandedRow(id, r, status)] else t.landed,
         inboxes := if r.notify.Some? then Deliver(t.inboxes, r.notify.value, stored) else t.inboxes)
  }

  /** A send on a channel of capacity one; a full inbox refuses it silently. */
  function Deliver(inboxes: seq<seq<BundleRecord>>, channel: nat, r: BundleRecord): seq<seq<BundleRecord>> {
    if channel < |inboxes| && inboxes[channel] == [] then inboxes[channel := [r]] else inboxes
  }

  // ---- The tasks in flight --------------------------------------------------------

  /** A handler past its first check. A finalized result still has to read the slot. */
  datatype Job = ReadSlot(id: BundleId) | Apply(id: BundleId, status: InclusionStatus)

  datatype BundleResult =
    | ResultAccepted(slot: u64, validator: string)
    | ResultProcessed(slot: u64, bundleIndex: u64, validator: string)
    | ResultFinalized
    | ResultRejected(reason: string)
    | ResultDropped(reason: string)
    | ResultEmpty

  /** Besides the tracker and its tasks: the channels whose record a consumer has
      received, and the landed rows consumers wrote. */
  datatype World = World(tracker: Tracker, jobs: seq<Job>, received: set<nat>, consumerRows: seq<LandedWrite>)

  datatype Step =
    | RegisterBundle(record: BundleRecord)
    | ReceiveResult(id: BundleId, result: BundleResult)
    | ScanExpired(ids: seq<BundleId>, now: nat)
    | RunJob(index: nat)
    | Receive(channel: nat)

  function JobFor(id: BundleId, result: BundleResult): Option<Job> {
    match result
    case ResultAccepted(slot, validator) => Some(Apply(id, Landed(slot, 0, validator)))
    case ResultProcessed(slot, index, validator) => Some(Apply(id, Landed(slot, index, validator)))
    case ResultFinalized => Some(ReadSlot(id))
    case ResultRejected(reason) => Some(Apply(id, Rejected(reason)))
    case ResultDropped(reason) => Some(Apply(id, Dropped(reason)))
    case ResultEmpty => None
  }

  predicate IsExpired(t: Tracker, id: BundleId, now: nat) {
    id in t.bundles && !t.bundles[id].status.IsTerminal()
    && SaturatingSub(now, t.bundles[id].submittedAt) > MAX_BUNDLE_AGE_MS
  }

  function SlotOf(t: Tracker, id: BundleId): u64 {
    if id in t.bundles then t.bundles[id].status.SlotOrZero() else 0
  }

  /** The record waiting in a channel. */
  function Inbox(t: Tracker, channel: nat): Option<BundleRecord> {
    if channel < |t.inboxes| && t.inboxes[channel] != [] then Some(t.inboxes[channel][0]) else None
  }

  /** One locked section of some task, or one receive. A consumer writes a landed row
      for whatever record it receives. The pruner's scan may list the expired bundles in any order. */
  function Next(w: World, step: Step): World {
    match step
    case RegisterBundle(r) => w.(tracker := Register(w.tracker, r))
    case ReceiveResult(id, result) =>
      var job := JobFor(id, result);
      if id in w.tracker.bundles && job.Some? then w.(jobs := w.jobs + [job.value]) else w
    case ScanExpired(ids, now) =>
      if forall id :: id in ids ==> IsExpired(w.tracker, id, now)
      then w.(jobs := w.jobs + seq(|ids|, i requires 0 <= i < |ids| => Apply(ids[i], Expired)))
      else w
    case Receive(channel) =>
      if channel !in w.received && Inbox(w.tracker, channel).Some? then
        var r := Inbox(w.tracker, channel).value;
        w.(received := w.received + {channel}, consumerRows := w.consumerRows + [LandedRow(r.bundleId, r, r.status)])
      else w
    case RunJob(i) =>
      if i >= |w.jobs| then w
      else
        match w.jobs[i]
        case ReadSlot(id) => w.(jobs := w.jobs[i := Apply(id, Finalized(SlotOf(w.tracker, id), 0))])
        case Apply(id, status) => w.(tracker := Update(w.tracker, id, status), jobs := w.jobs[..i] + w.jobs[i + 1..])
  }

  /** The handler of one result run without interruption: its locked sections one after another. */
  function Uninterrupted(t: Tracker, id: BundleId, result: BundleResult): Tracker {
    var w := Next(World(t, [], {}, []), ReceiveResult(id, result));
    if w.jobs == [] then t
    else if w.jobs[0].ReadSlot? then Next(Next(w, RunJob(0)), RunJob(0)).tracker
    else Next(w, RunJob(0)).tracker
  }

  /** What each result makes of a bundle that is still pending: its new status, and the
      landed row of a confirmed one, at the slot of the result. Finalized finds no slot. */
  lemma ResultMeans(t: Tracker, id: BundleId, result: BundleResult)
    requires id in t.bundles && t.bundles[id].status.Pending?
    ensures var after, r := Uninterrupted(t, id, result), t.bundles[id];
            && after.bundles.Keys == t.bundles.Keys
            && (forall other :: other in t.bundles && other != id ==> after.bundles[other] == t.bundles[other])
            && match result
               case ResultAccepted(slot, validator) =>
                 && after.bundles[id].status == Landed(slot, 0, validator)
                 && after.landed == t.landed + [LandedWrite(id, r.region, r.mint, slot, r.transactionSignature)]
               case ResultProcessed(slot, index, validator) =>
                 && after.bundles[id].status == Landed(slot, index, validator)
                 && after.landed == t.landed + [LandedWrite(id, r.region, r.mint, slot, r.transactionSignature)]
               case ResultFinalized =>
                 && after.bundles[id].status == Finalized(0, 0)
                 && after.landed == t.landed + [LandedWrite(id, r.region, r.mint, 0, r.transactionSignature)]
               case ResultRejected(reason) =>
                 after.bundles[id].status == Rejected(reason) && after.landed == t.landed
               case ResultDropped(reason) =>
                 after.bundles[id].status == Dropped(reason) && after.landed == t.landed
               case ResultEmpty => after == t
  {
  }

  function Run(steps: seq<Step>): World {
    if steps == [] then World(EMPTY_TRACKER, [], {}, []) else Next(Run(steps[..|steps| - 1]), steps[|steps| - 1])
  }

  /** The consumer registers bundles as Pending. */
  predicate RegistersPending(steps: seq<Step>) {
    forall i :: 0 <= i < |steps| && steps[i].RegisterBundle? ==> steps[i].record.status.Pending?
  }

  // ---- Invariants -------------------------------------------------------------------

  /** A tracked bundle and its channel: an empty inbox while pending; afterwards
      exactly the stored record. */
  ghost predicate ChannelOk(t: Tracker, id: BundleId)
    requires id in t.bundles
  {
    && id in t.channelOf && t.channelOf[id] < |t.inboxes|
    && t.bundles[id].bundleId == id
    && var inbox := t.inboxes[t.channelOf[id]];
       if t.bundles[id].status.Pending? then t.bundles[id].notify == Some(t.channelOf[id]) && inbox == []
       else t.bundles[id].notify == None && inbox == [t.bundles[id]]
  }

  ghost predicate ChannelsOk(t: Tracker) {
    && t.channelOf.Keys == t.bundles.Keys
    && (forall id :: id in t.bundles ==> ChannelOk(t, id))
    && (forall a, b :: a in t.channelOf && b in t.channelOf && a != b ==> t.channelOf[a] != t.channelOf[b])
  }

  /** An inbox that belongs to no tracked bundle stays empty. */
  ghost predicate StrangersEmpty(t: Tracker) {
    forall c: nat :: c < |t.inboxes| && !Owned(t, c) ==> t.inboxes[c] == []
  }

  ghost predicate Owned(t: Tracker, channel: nat) {
    exists id :: id in t.channelOf && t.channelOf[id] == channel
  }

  /** Each landed row belongs to a confirmed bundle and says what is stored, and no bundle has two. */
  ghost predicate LandedOk(t: Tracker) {
    && (forall k :: 0 <= k < |t.landed| ==>
          var id := t.landed[k].bundleId;
          && id in t.bundles && t.bundles[id].status.IsConfirmed()
          && t.landed[k] == LandedRow(id, t.bundles[id], t.bundles[id].status))
    && (forall j, k :: 0 <= j < k < |t.landed| ==> t.landed[j].bundleId != t.landed[k].bundleId)
    && (forall id :: id in t.bundles && t.bundles[id].status.IsConfirmed() ==> HasRow(t, id))
  }

  ghost predicate HasRow(t: Tracker, id: BundleId) {
    exists k :: 0 <= k < |t.landed| && t.landed[k].bundleId == id
  }

  /** A finalized update in flight carries slot zero, unless its bundle is already
      terminal and the update will be ignored. Every update in flight is terminal. */
  ghost predicate JobOk(t: Tracker, job: Job) {
    && job.id in t.bundles
    && (job.Apply? ==> job.status.IsTerminal())
    && (job.Apply? && job.status.Finalized? && job.status.slot != 0 ==> t.bundles[job.id].status.IsTerminal())
  }

  /** The rows consumers wrote: one for each received record, which was terminal and
      is still the stored one. */
  ghost predicate ConsumerRowsOk(w: World) {
    && (forall c :: c in w.received ==> Inbox(w.tracker, c).Some?)
    && (forall k :: 0 <= k < |w.consumerRows| ==> ConsumerRowOk(w, w.consumerRows[k]))
    && (forall id :: id in w.tracker.channelOf && w.tracker.channelOf[id] in w.received ==> HasConsumerRow(w, id))
  }

  ghost predicate ConsumerRowOk(w: World, row: LandedWrite) {
    var t, id := w.tracker, row.bundleId;
    && id in t.bundles && id in t.channelOf && t.channelOf[id] in w.received
    && t.bundles[id].status.IsTerminal() && row == LandedRow(id, t.bundles[id], t.bundles[id].status)
  }

  ghost predicate HasConsumerRow(w: World, id: BundleId) {
    exists k :: 0 <= k < |w.consumerRows| && w.consumerRows[k].bundleId == id
  }

  ghost predicate FinalizedHasNoSlot(t: Tracker) {
    forall id :: id in t.bundles && t.bundles[id].status.Finalized? ==> t.bundles[id].status.slot == 0
  }

  ghost predicate Consistent(w: World) {
    && ChannelsOk(w.tracker) && StrangersEmpty(w.tracker) && LandedOk(w.tracker) && FinalizedHasNoSlot(w.tracker)
    && ConsumerRowsOk(w)
    && forall i :: 0 <= i < |w.jobs| ==> JobOk(w.tracker, w.jobs[i])
  }

  // ---- Registration keeps them -----------------------------------------------------

  lemma RegisterKeepsEachChannel(t: Tracker, r: BundleRecord)
    requires ChannelsOk(t) && r.status.Pending?
    ensures ChannelsOk(Register(t, r))
  {
    var u := Register(t, r);
    forall id | id in u.bundles
      ensures ChannelOk(u, id)
    {
      if id in t.bundles { assert ChannelOk(t, id); }
    }
    forall id | id in t.channelOf
      ensures t.channelOf[id] < |t.inboxes|
    {
      assert ChannelOk(t, id);
    }
  }

  lemma RegisterKeepsStrangers(t: Tracker, r: BundleRecord)
    requires StrangersEmpty(t) && t.channelOf.Keys == t.bundles.Keys
    ensures StrangersEmpty(Register(t, r))
  {
    var u := Register(t, r);
    forall c: nat | Owned(t, c)
      ensures Owned(u, c)
    {
      var id :| id in t.channelOf && t.channelOf[id] == c;
      assert id in u.channelOf && u.channelOf[id] == c;
    }
  }

  lemma RegisterKeepsChannels(t: Tracker, r: BundleRecord)
    requires ChannelsOk(t) && StrangersEmpty(t) && r.status.Pending?
    ensures ChannelsOk(Register(t, r)) && StrangersEmpty(Register(t, r))
  {
    RegisterKeepsEachChannel(t, r);
    RegisterKeepsStrangers(t, r);
  }

  lemma RegisterKeepsLanded(t: Tracker, r: BundleRecord)
    requires LandedOk(t) && FinalizedHasNoSlot(t) && r.status.Pending?
    ensures LandedOk(Register(t, r)) && FinalizedHasNoSlot(Register(t, r))
  {
    var u := Register(t, r);
    forall id | id in u.bundles && u.bundles[id].status.IsConfirmed()
      ensures HasRow(u, id)
    {
      assert HasRow(t, id);
    }
  }

  // ---- An effective update keeps them -------------------------------------------------

  predicate Effective(t: Tracker, id: BundleId) {
    id in t.bundles && t.bundles[id].status.Pending?
  }

  lemma UpdateKeepsChannels(t: Tracker, id: BundleId, status: InclusionStatus)
    requires ChannelsOk(t) && StrangersEmpty(t) && Effective(t, id) && status.IsTerminal()
    ensures ChannelsOk(Update(t, id, status)) && StrangersEmpty(Update(t, id, status))
  {
    var u := Update(t, id, status);
    assert ChannelOk(t, id);
    assert u.inboxes == t.inboxes[t.channelOf[id] := [u.bundles[id]]];
    forall other | other in u.bundles
      ensures ChannelOk(u, other)
    {
      assert ChannelOk(t, other);
    }
    assert u.bundles.Keys == t.bundles.Keys;
  }

  lemma UpdateKeepsLanded(t: Tracker, id: BundleId, status: InclusionStatus)
    requires LandedOk(t) && Effective(t, id) && status.IsTerminal()
    ensures LandedOk(Update(t, id, status))
  {
    var u := Update(t, id, status);
    forall other | other in u.bundles && u.bundles[other].status.IsConfirmed()
      ensures HasRow(u, other)
    {
      if other == id {
        assert u.landed[|t.landed|].bundleId == id;
      } else {
        assert HasRow(t, other);
        var k :| 0 <= k < |t.landed| && t.landed[k].bundleId == other;
        assert u.landed[k].bundleId == other;
      }
    }
  }

  lemma UpdateKeepsJobs(t: Tracker, id: BundleId, status: InclusionStatus, job: Job)
    requires JobOk(t, job) && status.IsTerminal()
    ensures JobOk(Update(t, id, status), job)
  {
  }

  // ---- Consumer rows ---------------------------------------------------------------------

  lemma RegisterKeepsRows(w: World, r: BundleRecord)
    requires ConsumerRowsOk(w) && ChannelsOk(w.tracker) && r.status.Pending?
    ensures ConsumerRowsOk(w.(tracker := Register(w.tracker, r)))
  {
    var v := w.(tracker := Register(w.tracker, r));
    forall id | id in v.tracker.channelOf && v.tracker.channelOf[id] in v.received
      ensures HasConsumerRow(v, id)
    {
      assert Inbox(w.tracker, v.tracker.channelOf[id]).Some?;
      assert HasConsumerRow(w, id);
    }
    forall k | 0 <= k < |v.consumerRows|
      ensures ConsumerRowOk(v, v.consumerRows[k])
    {
      assert ConsumerRowOk(w, w.consumerRows[k]);
    }
  }

  lemma UpdateKeepsRows(w: World, id: BundleId, status: InclusionStatus)
    requires ConsumerRowsOk(w) && ChannelsOk(w.tracker) && Effective(w.tracker, id) && status.IsTerminal()
    ensures ConsumerRowsOk(w.(tracker := Update(w.tracker, id, status)))
  {
    var v := w.(tracker := Update(w.tracker, id, status));
    assert ChannelOk(w.tracker, id);
    forall k | 0 <= k < |v.consumerRows|
      ensures ConsumerRowOk(v, v.consumerRows[k])
    {
      assert ConsumerRowOk(w, w.consumerRows[k]);
    }
    forall other | other in v.tracker.channelOf && v.tracker.channelOf[other] in v.received
      ensures HasConsumerRow(v, other)
    {
      assert HasConsumerRow(w, other);
    }
  }

  lemma ReceiveKeeps(w: World, channel: nat)
    requires Consistent(w)
    ensures Consistent(Next(w, Receive(channel)))
  {
    var v := Next(w, Receive(channel));
    if v != w {
      assert Owned(w.tracker, channel);
      var owner :| owner in w.tracker.channelOf && w.tracker.channelOf[owner] == channel;
      assert ChannelOk(w.tracker, owner);
      assert v.consumerRows[|w.consumerRows|].bundleId == owner;
      forall k | 0 <= k < |v.consumerRows|
        ensures ConsumerRowOk(v, v.consumerRows[k])
      {
        if k < |w.consumerRows| { assert ConsumerRowOk(w, w.consumerRows[k]); }
      }
      forall id | id in v.tracker.channelOf && v.tracker.channelOf[id] in v.received
        ensures HasConsumerRow(v, id)
      {
        if id != owner {
          assert HasConsumerRow(w, id);
          var k :| 0 <= k < |w.consumerRows| && w.consumerRows[k].bundleId == id;
          assert v.consumerRows[k].bundleId == id;
        }
      }
    }
  }

  lemma UpdateKeepsTracker(w: World, id: BundleId, status: InclusionStatus)
    requires ChannelsOk(w.tracker) && StrangersEmpty(w.tracker) && LandedOk(w.tracker) && ConsumerRowsOk(w)
    requires status.IsTerminal()
    ensures var v := w.(tracker := Update(w.tracker, id, status));
            ChannelsOk(v.tracker) && StrangersEmpty(v.tracker) && LandedOk(v.tracker) && ConsumerRowsOk(v)
  {
    if Effective(w.tracker, id) {
      UpdateKeepsChannels(w.tracker, id, status);
      UpdateKeepsLanded(w.tracker, id, status);
      UpdateKeepsRows(w, id, status);
    } else {
      assert w.(tracker := Update(w.tracker, id, status)) == w;
    }
  }

  lemma ApplyKeepsJobs(w: World, i: nat)
    requires i < |w.jobs| && w.jobs[i].Apply? && forall k :: 0 <= k < |w.jobs| ==> JobOk(w.tracker, w.jobs[k])
    ensures var v := Next(w, RunJob(i)); forall k :: 0 <= k < |v.jobs| ==> JobOk(v.tracker, v.jobs[k])
  {
    var v := Next(w, RunJob(i));
    assert JobOk(w.tracker, w.jobs[i]);
    forall k | 0 <= k < |v.jobs|
      ensures JobOk(v.tracker, v.jobs[k])
    {
      var job := if k < i then w.jobs[k] else w.jobs[k + 1];
      assert v.jobs[k] == job;
      UpdateKeepsJobs(w.tracker, w.jobs[i].id, w.jobs[i].status, job);
    }
  }

  lemma FinalizedKeepsNoSlot(t: Tracker, id: BundleId, status: InclusionStatus)
    requires FinalizedHasNoSlot(t) && JobOk(t, Apply(id, status))
    ensures FinalizedHasNoSlot(Update(t, id, status))
  {
  }

  /** Only the tracker of the world matters to the jobs. */
  lemma ReadSlotKeeps(w: World, i: nat)
    requires i < |w.jobs| && w.jobs[i].ReadSlot? && FinalizedHasNoSlot(w.tracker)
    requires forall k :: 0 <= k < |w.jobs| ==> JobOk(w.tracker, w.jobs[k])
    ensures var v := Next(w, RunJob(i));
            v == w.(jobs := v.jobs) && forall k :: 0 <= k < |v.jobs| ==> JobOk(v.tracker, v.jobs[k])
  {
    assert JobOk(w.tracker, w.jobs[i]);
  }

  lemma RunJobKeeps(w: World, i: nat)
    requires Consistent(w) && i < |w.jobs|
    ensures Consistent(Next(w, RunJob(i)))
  {
    assert JobOk(w.tracker, w.jobs[i]);
    match w.jobs[i]
    case ReadSlot(id) => ReadSlotKeeps(w, i);
    case Apply(id, status) =>
      UpdateKeepsTracker(w, id, status);
      FinalizedKeepsNoSlot(w.tracker, id, status);
      ApplyKeepsJobs(w, i);
  }

  lemma RegisterKeeps(w: World, r: BundleRecord)
    requires Consistent(w) && r.status.Pending?
    ensures Consistent(Next(w, RegisterBundle(r)))
  {
    RegisterKeepsChannels(w.tracker, r);
    RegisterKeepsLanded(w.tracker, r);
    RegisterKeepsRows(w, r);
    forall i | 0 <= i < |w.jobs|
      ensures JobOk(Next(w, RegisterBundle(r)).tracker, w.jobs[i])
    {
      assert JobOk(w.tracker, w.jobs[i]);
    }
  }

  lemma ScanKeeps(w: World, ids: seq<BundleId>, now: nat)
    requires Consistent(w)
    ensures Consistent(Next(w, ScanExpired(ids, now)))
  {
    var v := Next(w, ScanExpired(ids, now));
    forall k | 0 <= k < |v.jobs|
      ensures JobOk(v.tracker, v.jobs[k])
    {
      if k >= |w.jobs| {
        assert ids[k - |w.jobs|] in ids;
        assert v.jobs[k] == Apply(ids[k - |w.jobs|], Expired);
      }
    }
  }

  lemma ResultKeeps(w: World, id: BundleId, result: BundleResult)
    requires Consistent(w)
    ensures Consistent(Next(w, ReceiveResult(id, result)))
  {
    var v := Next(w, ReceiveResult(id, result));
    forall k | 0 <= k < |v.jobs|
      ensures JobOk(v.tracker, v.jobs[k])
    {
      if k < |w.jobs| {
        assert JobOk(w.tracker, w.jobs[k]);
      }
    }
  }

  lemma NextKeeps(w: World, step: Step)
    requires Consistent(w) && (step.RegisterBundle? ==> step.record.status.Pending?)
    ensures Consistent(Next(w, step))
  {
    match step
    case RegisterBundle(r) => RegisterKeeps(w, r);
    case ReceiveResult(id, result) => ResultKeeps(w, id, result);
    case ScanExpired(ids, now) => ScanKeeps(w, ids, now);
    case RunJob(i) => if i < |w.jobs| { RunJobKeeps(w, i); }
    case Receive(channel) => ReceiveKeeps(w, channel);
  }

  /** In every interleaving: each caller's channel holds nothing while its bundle is
      pending and exactly the stored record afterwards; the tracker writes exactly one
      landed row for each confirmed bundle, with the stored slot, and for no other; a
      stored Finalized status always has slot zero. */
  lemma {:induction false} EveryInterleavingIsConsistent(steps: seq<Step>)
    requires RegistersPending(steps)
    ensures Consistent(Run(steps))
  {
    if steps != [] {
      EveryInterleavingIsConsistent(steps[..|steps| - 1]);
      NextKeeps(Run(steps[..|steps| - 1]), steps[|steps| - 1]);
    }
  }

  // ---- The table of landed bundles -----------------------------------------------------

  /** The row is written by the tracker or by a consumer. */
  ghost predicate Written(w: World, row: LandedWrite) {
    row in w.tracker.landed || row in w.consumerRows
  }

  ghost predicate HasLandedRow(w: World, id: BundleId) {
    exists row :: Written(w, row) && row.bundleId == id
  }

  /** In every interleaving a bundle has a landed row exactly when it is confirmed or
      its consumer received its record, whatever the record says. All rows written
      for one bundle agree, so the order of the upserts does not matter. */
  lemma LandedRowsExactly(steps: seq<Step>, id: BundleId)
    requires RegistersPending(steps)
    ensures var w := Run(steps);
            && (HasLandedRow(w, id)
                <==> && id in w.tracker.bundles && id in w.tracker.channelOf
                     && (w.tracker.bundles[id].status.IsConfirmed() || w.tracker.channelOf[id] in w.received))
            && (forall row :: Written(w, row) && row.bundleId == id ==>
                  id in w.tracker.bundles && row == LandedRow(id, w.tracker.bundles[id], w.tracker.bundles[id].status))
  {
    EveryInterleavingIsConsistent(steps);
    var w := Run(steps);
    forall row | Written(w, row) && row.bundleId == id
      ensures id in w.tracker.bundles && row == LandedRow(id, w.tracker.bundles[id], w.tracker.bundles[id].status)
      ensures id in w.tracker.channelOf
              && (w.tracker.bundles[id].status.IsConfirmed() || w.tracker.channelOf[id] in w.received)
    {
      if row in w.consumerRows {
        assert ConsumerRowOk(w, row);
      } else {
        var k :| 0 <= k < |w.tracker.landed| && w.tracker.landed[k] == row;
      }
    }
    if id in w.tracker.bundles && id in w.tracker.channelOf {
      if w.tracker.bundles[id].status.IsConfirmed() {
        assert HasRow(w.tracker, id);
        var k :| 0 <= k < |w.tracker.landed| && w.tracker.landed[k].bundleId == id;
        assert Written(w, w.tracker.landed[k]);
      } else if w.tracker.channelOf[id] in w.received {
        assert HasConsumerRow(w, id);
        var k :| 0 <= k < |w.consumerRows| && w.consumerRows[k].bundleId == id;
        assert Written(w, w.consumerRows[k]);
      }
    }
  }

  /** A rejected bundle whose consumer was still waiting stands in the table as landed, at slot zero. */
  lemma RejectedBundleHasLandedRow(r: BundleRecord, reason: string) returns (steps: seq<Step>)
    requires r.status.Pending?
    ensures RegistersPending(steps)
    ensures var w := Run(steps);
            && r.bundleId in w.tracker.bundles && w.tracker.bundles[r.bundleId].status == Rejected(reason)
            && Written(w, LandedWrite(r.bundleId, r.region, r.mint, 0, r.transactionSignature))
  {
    var s1 := [RegisterBundle(r)];
    var s2 := s1 + [ReceiveResult(r.bundleId, ResultRejected(reason))];
    var s3 := s2 + [RunJob(0)];
    steps := s3 + [Receive(0)];
    RunStep([], RegisterBundle(r));
    RunStep(s1, ReceiveResult(r.bundleId, ResultRejected(reason)));
    RunStep(s2, RunJob(0));
    RunStep(s3, Receive(0));
    assert [] + [RegisterBundle(r)] == s1;
    assert Run(s2).jobs == [Apply(r.bundleId, Rejected(reason))];
    var w := Run(steps);
    assert w.consumerRows[0] == LandedWrite(r.bundleId, r.region, r.mint, 0, r.transactionSignature);
  }

  lemma RunStep(steps: seq<Step>, step: Step)
    ensures Run(steps + [step]) == Next(Run(steps), step)
  {
    assert (steps + [step])[..|steps|] == steps;
  }

  /** What no step undoes: a tracked bundle stays tracked, and once its status is
      not Pending neither the record, nor any inbox it was sent to, changes again. */
  ghost predicate Settled(before: Tracker, after: Tracker, id: BundleId)
    requires id in before.bundles && id in before.channelOf && before.channelOf[id] < |before.inboxes|
  {
    && id in after.bundles && id in after.channelOf && after.channelOf[id] == before.channelOf[id] < |after.inboxes|
    && (before.bundles[id].status.IsTerminal()
        ==> after.bundles[id] == before.bundles[id]
            && after.inboxes[before.channelOf[id]] == before.inboxes[before.channelOf[id]])
  }

  lemma UpdateSettles(t: Tracker, other: BundleId, status: InclusionStatus, id: BundleId)
    requires ChannelsOk(t) && id in t.bundles
    ensures ChannelOk(t, id) && Settled(t, Update(t, other, status), id)
  {
    assert ChannelOk(t, id);
    if other in t.bundles { assert ChannelOk(t, other); }
  }

  lemma RegisterSettles(t: Tracker, r: BundleRecord, id: BundleId)
    requires ChannelsOk(t) && id in t.bundles
    ensures ChannelOk(t, id) && Settled(t, Register(t, r), id)
  {
    assert ChannelOk(t, id);
  }

  lemma NextSettles(w: World, step: Step, id: BundleId)
    requires ChannelsOk(w.tracker) && id in w.tracker.bundles
    ensures ChannelOk(w.tracker, id) && Settled(w.tracker, Next(w, step).tracker, id)
  {
    assert ChannelOk(w.tracker, id);
    match step
    case RegisterBundle(r) => RegisterSettles(w.tracker, r, id);
    case RunJob(i) =>
      if i < |w.jobs| && w.jobs[i].Apply? {
        UpdateSettles(w.tracker, w.jobs[i].id, w.jobs[i].status, id);
      }
    case _ =>
  }

  /** Across any stretch of a run, each bundle leaves Pending at most once and then
      never changes: later results, late slot reads and the pruner have no effect on it. */
  lemma {:induction false} StatusSettlesOnce(steps: seq<Step>, n: nat, id: BundleId)
    requires RegistersPending(steps) && n <= |steps| && id in Run(steps[..n]).tracker.bundles
    ensures ChannelOk(Run(steps[..n]).tracker, id)
    ensures Settled(Run(steps[..n]).tracker, Run(steps).tracker, id)
    decreases |steps|
  {
    EveryInterleavingIsConsistent(steps[..n]);
    assert ChannelOk(Run(steps[..n]).tracker, id);
    if n == |steps| {
      assert steps[..n] == steps;
    } else {
      var before := steps[..|steps| - 1];
      assert before[..n] == steps[..n];
      StatusSettlesOnce(before, n, id);
      EveryInterleavingIsConsistent(before);
      NextSettles(Run(before), steps[|steps| - 1], id);
    }
  }
}

/** The tracker as the code holds it: a shared table changed in place. */
module BundleTrackerModule {
  import opened Primitives
  import opened Types
  import opened BundleTracking

  class BundleTracker {
    var bundles: map<BundleId, BundleRecord>
    var inboxes: seq<seq<BundleRecord>>
    var landed: seq<LandedWrite>
    ghost var channelOf: map<BundleId, nat>

    ghost function View(): Tracker
      reads this
    {
      Tracker(bundles, inboxes, landed, channelOf)
    }

    constructor ()
      ensures View() == EMPTY_TRACKER
    {
      bundles, inboxes, landed, channelOf := map[], [], [], map[];
    }

    method RegisterBundle(record: BundleRecord) returns (channel: nat)
      modifies this
      ensures View() == Register(old(View()), record)
      ensures channel == |old(inboxes)|
    {
      channel := |inboxes|;
      inboxes := inboxes + [[]];
      if record.bundleId !in bundles {
        bundles := bundles[record.bundleId := record.(notify := Some(channel))];
        channelOf := channelOf[record.bundleId := channel];
      }
    }

    method UpdateStatus(id: BundleId, status: InclusionStatus)
      modifies this
      ensures View() == Update(old(View()), id, status)
    {
      if id !in bundles {
        return;
      }
      var record := bundles[id];
      if record.status.IsTerminal() {
        return;
      }
      record := record.(status := status);
      if status.IsConfirmed() {
        landed := landed + [LandedWrite(id, record.region, record.mint, status.SlotOrZero(),
                                        record.transactionSignature)];
      }
      var notify := record.notify;
      record := record.(notify := None);
      if notify.Some? && notify.value < |inboxes| && inboxes[notify.value] == [] {
        inboxes := inboxes[notify.value := [record]];
      }
      bundles := bundles[id := record];
    }

    /** The handler run without interruption: its locked sections one after another. */
    method ProcessBundleResult(id: BundleId, result: BundleResult)
      modifies this
      ensures View() == Uninterrupted(old(View()), id, result)
    {
      if id !in bundles {
        return;
      }
      match result {
        case ResultAccepted(slot, validator) => UpdateStatus(id, Landed(slot, 0, validator));
        case ResultProcessed(slot, index, validator) => UpdateStatus(id, Landed(slot, index, validator));
        case ResultFinalized =>
          var slot := bundles[id].status.SlotOrZero();
          UpdateStatus(id, Finalized(slot, 0));
        case ResultRejected(reason) => UpdateStatus(id, Rejected(reason));
        case ResultDropped(reason) => UpdateStatus(id, Dropped(reason));
        case ResultEmpty =>
      }
    }

    /** The consumer's wait: a record that arrives in time is written as a landed row,
        whatever its status; a timeout or a closed channel writes nothing. */
    method AwaitLanding(channel: nat, inTime: bool) returns (row: Option<LandedWrite>)
      ensures inTime ==>
                Next(World(View(), [], {}, []), Receive(channel)).consumerRows == if row.Some? then [row.value] else []
      ensures !inTime ==> row.None?
    {
      if inTime && channel < |inboxes| && inboxes[channel] != [] {
        var record := inboxes[channel][0];
        return Some(LandedWrite(record.bundleId, record.region, record.mint, record.status.SlotOrZero(),
                                record.transactionSignature));
      }
      row := None;
    }

    /** The pruner run without interruption: every bundle that was pending and too
        old is Expired afterwards, and every other bundle is as before. */
    method PruneExpired(now: nat)
      modifies this
      ensures bundles.Keys == old(bundles).Keys && landed == old(landed)
      ensures forall id :: id in bundles ==>
                bundles[id] == if old(bundles)[id].status.Pending? && now > old(bundles)[id].submittedAt + 120_000
                               then old(bundles)[id].(status := Expired, notify := None)
                               else old(bundles)[id]
    {
      ghost var before := View();
      var expired := set id | id in bundles && !bundles[id].status.IsTerminal()
                              && SaturatingSub(now, bundles[id].submittedAt) > MAX_BUNDLE_AGE_MS;
      var rest := expired;
      while rest != {}
        invariant rest <= expired && expired == set id | id in old(bundles) && IsExpired(before, id, now)
        invariant bundles.Keys == old(bundles).Keys && landed == old(landed)
        invariant forall id :: id in bundles ==>
                    bundles[id] == if id in expired && id !in rest
                                   then old(bundles)[id].(status := Expired, notify := None)
                                   else old(bundles)[id]
        decreases |rest|
      {
        var id :| id in rest;
        UpdateStatus(id, Expired);
        rest := rest - {id};
      }
    }
  }
}
