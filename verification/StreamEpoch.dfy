/** The ingestion queue and the epoch stamped on each delivered event. */
module StreamEpoch {
  import opened Primitives
  import opened Types

  /** One listener, one bounded queue. `sent` is everything the queue accepted so
      far, with the epoch stamped on it; `gaps` counts reconnects and full-queue drops. */
  datatype Listener = Listener(
    capacity: nat,
    queued: nat,
    epoch: nat,
    sent: seq<(SwapEvent, nat)>,
    decoded: nat,
    filterDrops: nat,
    queueFullDrops: nat,
    decodeFailures: nat)

  function NewListener(capacity: nat, epoch: nat): Listener {
    Listener(capacity, 0, epoch, [], 0, 0, 0, 0)
  }

  /** What happens next: a reconnect, a decoded swap (with the verdict of the target
      and size filters), a notification that does not decode, or a consumer taking
      one event off the queue. */
  datatype Input =
    | Reconnected
    | DecodedSwap(event: SwapEvent, passesFilter: bool)
    | Undecodable
    | Taken

  function Enqueue(s: Listener, event: SwapEvent, passesFilter: bool): Listener {
    var s1 := s.(decoded := s.decoded + 1);
    if !passesFilter then s1.(filterDrops := s.filterDrops + 1)
    else if s.queued < s.capacity then s1.(queued := s.queued + 1, sent := s.sent + [(event, s.epoch)])
    else s1.(queueFullDrops := s.queueFullDrops + 1, epoch := s.epoch + 1)
  }

  function Step(s: Listener, input: Input): Listener {
    match input
    case Reconnected => s.(epoch := s.epoch + 1)
    case DecodedSwap(event, passesFilter) => Enqueue(s, event, passesFilter)
    case Undecodable => s.(decodeFailures := s.decodeFailures + 1)
    case Taken => if s.queued > 0 then s.(queued := s.queued - 1) else s
  }

  function Run(s: Listener, inputs: seq<Input>): Listener {
    if inputs == [] then s else Step(Run(s, inputs[..|inputs| - 1]), inputs[|inputs| - 1])
  }

  /** The input at i loses the stream's continuity: a reconnect, or an event the full queue refused. */
  predicate IsGap(s: Listener, inputs: seq<Input>, i: nat)
    requires i < |inputs|
  {
    var before := Run(s, inputs[..i]);
    inputs[i].Reconnected? || (inputs[i].DecodedSwap? && inputs[i].passesFilter && before.queued >= before.capacity)
  }

  predicate Delivers(s: Listener, inputs: seq<Input>, i: nat)
    requires i < |inputs|
  {
    var before := Run(s, inputs[..i]);
    inputs[i].DecodedSwap? && inputs[i].passesFilter && before.queued < before.capacity
  }

  /** The epoch an event delivered at i is stamped with. */
  function StampAt(s: Listener, inputs: seq<Input>, i: nat): nat
    requires i < |inputs|
  {
    Run(s, inputs[..i]).epoch
  }

  lemma {:induction false} EpochsGrow(s: Listener, inputs: seq<Input>, i: nat, j: nat)
    requires i <= j <= |inputs|
    ensures Run(s, inputs[..i]).epoch <= Run(s, inputs[..j]).epoch
    ensures Run(s, inputs[..i]).epoch == Run(s, inputs[..j]).epoch <==> forall k :: i <= k < j ==> !IsGap(s, inputs, k)
  {
    if i < j {
      EpochsGrow(s, inputs, i, j - 1);
      assert inputs[..j][..j - 1] == inputs[..j - 1];
      assert Run(s, inputs[..j]).epoch == Run(s, inputs[..j - 1]).epoch + if IsGap(s, inputs, j - 1) then 1 else 0;
      if Run(s, inputs[..i]).epoch == Run(s, inputs[..j]).epoch {
        forall k | i <= k < j
          ensures !IsGap(s, inputs, k)
        {
        }
      }
    }
  }

  /** Delivery appends the event with its stamp, so the stamps below are those consumers see. */
  lemma DeliveredWithStamp(s: Listener, inputs: seq<Input>, i: nat)
    requires i < |inputs|
    ensures var before, after := Run(s, inputs[..i]), Run(s, inputs[..i + 1]);
            if Delivers(s, inputs, i) then after.sent == before.sent + [(inputs[i].event, StampAt(s, inputs, i))]
            else after.sent == before.sent
  {
    assert inputs[..i + 1][..i] == inputs[..i];
  }

  /** Delivered events carry nondecreasing epochs, and two of them carry the same
      epoch exactly when no reconnect and no full-queue drop fell between them. */
  lemma EqualEpochsMeanNoGap(s: Listener, inputs: seq<Input>, i: nat, j: nat)
    requires i < j < |inputs| && Delivers(s, inputs, i) && Delivers(s, inputs, j)
    ensures StampAt(s, inputs, i) <= StampAt(s, inputs, j)
    ensures StampAt(s, inputs, i) == StampAt(s, inputs, j) <==> forall k :: i < k < j ==> !IsGap(s, inputs, k)
  {
    EpochsGrow(s, inputs, i, j);
    assert !IsGap(s, inputs, i);
  }

  /** The input loses something: a gap, or a notification that does not decode. */
  predicate Loses(s: Listener, inputs: seq<Input>, i: nat)
    requires i < |inputs|
  {
    inputs[i].Undecodable? || IsGap(s, inputs, i)
  }

  /** The failure counter between two points of a run. */
  lemma {:induction false} FailuresCounted(s: Listener, inputs: seq<Input>, i: nat, j: nat)
    requires i <= j <= |inputs|
    ensures var a, b := Run(s, inputs[..i]), Run(s, inputs[..j]);
            && a.decodeFailures <= b.decodeFailures
            && (a.decodeFailures == b.decodeFailures <==> forall k :: i <= k < j ==> !inputs[k].Undecodable?)
  {
    if i < j {
      FailuresCounted(s, inputs, i, j - 1);
      assert inputs[..j][..j - 1] == inputs[..j - 1];
      assert Run(s, inputs[..j]) == Step(Run(s, inputs[..j - 1]), inputs[j - 1]);
    }
  }

  lemma {:induction false} NoGapNoDrop(s: Listener, inputs: seq<Input>, i: nat, j: nat)
    requires i <= j <= |inputs| && forall k :: i <= k < j ==> !IsGap(s, inputs, k)
    ensures Run(s, inputs[..i]).queueFullDrops == Run(s, inputs[..j]).queueFullDrops
  {
    if i < j {
      NoGapNoDrop(s, inputs, i, j - 1);
      assert inputs[..j][..j - 1] == inputs[..j - 1];
      assert !IsGap(s, inputs, j - 1);
    }
  }

  /** Between two deliveries with equal epochs nothing was lost exactly when every
      notification between them decoded, that is when the failure counter stood
      still; the queue itself dropped nothing. */
  lemma EqualEpochsLoseExactly(s: Listener, inputs: seq<Input>, i: nat, j: nat)
    requires i < j < |inputs| && Delivers(s, inputs, i) && Delivers(s, inputs, j)
    requires StampAt(s, inputs, i) == StampAt(s, inputs, j)
    ensures (forall k :: i < k < j ==> !Loses(s, inputs, k)) <==> (forall k :: i < k < j ==> !inputs[k].Undecodable?)
    ensures Run(s, inputs[..i]).decodeFailures == Run(s, inputs[..j]).decodeFailures
            <==> forall k :: i < k < j ==> !inputs[k].Undecodable?
    ensures Run(s, inputs[..i]).queueFullDrops == Run(s, inputs[..j]).queueFullDrops
  {
    EqualEpochsMeanNoGap(s, inputs, i, j);
    FailuresCounted(s, inputs, i, j);
    assert !IsGap(s, inputs, i) && !inputs[i].Undecodable?;
    NoGapNoDrop(s, inputs, i, j);
    forall k | i < k < j
      ensures Loses(s, inputs, k) <==> inputs[k].Undecodable?
    {
      assert !IsGap(s, inputs, k);
    }
  }

  /** Equal epochs do not mean that nothing was lost: an undecodable notification
      between two deliveries leaves no mark on the epoch. */
  lemma DecodeFailureLeavesNoMark(s: Listener, a: SwapEvent, b: SwapEvent)
    requires s.queued + 2 <= s.capacity
    ensures var inputs := [DecodedSwap(a, true), Undecodable, DecodedSwap(b, true)];
            && Delivers(s, inputs, 0) && Delivers(s, inputs, 2)
            && StampAt(s, inputs, 0) == StampAt(s, inputs, 2)
            && Run(s, inputs).decodeFailures == s.decodeFailures + 1
  {
    var inputs := [DecodedSwap(a, true), Undecodable, DecodedSwap(b, true)];
    DeliveredWithStamp(s, inputs, 0);
    DeliveredWithStamp(s, inputs, 1);
    assert inputs[..0] == [] && inputs[..3] == inputs;
    assert inputs[..3][..2] == inputs[..2] && inputs[..2][..1] == inputs[..1] && inputs[..1][..0] == inputs[..0];
  }

  /** The counters, the epoch and the sending side of the queue. */
  class SwapListener {
    const capacity: nat
    var queued: nat
    var epoch: nat
    var sent: seq<(SwapEvent, nat)>
    var decoded: nat
    var filterDrops: nat
    var queueFullDrops: nat
    var decodeFailures: nat

    function View(): Listener
      reads this
    {
      Listener(capacity, queued, epoch, sent, decoded, filterDrops, queueFullDrops, decodeFailures)
    }

    constructor (capacity: nat, epoch: nat)
      ensures View() == NewListener(capacity, epoch)
    {
      this.capacity, this.epoch, queued, sent := capacity, epoch, 0, [];
      decoded, filterDrops, queueFullDrops, decodeFailures := 0, 0, 0, 0;
    }

    method Reconnect()
      modifies this
      ensures View() == Step(old(View()), Reconnected)
    {
      epoch := epoch + 1;
    }

    /** A dropped event still counts as decoded, and a full queue opens a new epoch. */
    method EnqueueDecodedSwap(event: SwapEvent, targetMatches: bool, minSwapLamports: u64)
      modifies this
      ensures View() == Step(old(View()), DecodedSwap(event, targetMatches && event.quoteAmount >= minSwapLamports))
    {
      decoded := decoded + 1;
      if !targetMatches || (minSwapLamports > 0 && event.quoteAmount < minSwapLamports) {
        filterDrops := filterDrops + 1;
        return;
      }
      var streamEpoch := epoch;
      if queued < capacity {
        queued := queued + 1;
        sent := sent + [(event, streamEpoch)];
      } else {
        queueFullDrops := queueFullDrops + 1;
        epoch := epoch + 1;
      }
    }
  }
}
