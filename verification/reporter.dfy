/**
 The throttled status reporter (src/olmo_eval/common/beaker_status.py): callers hand
 messages to one background sender through a lock and a single overwritable slot.

 Each lock section is a function on the fields it guards; the class below runs them, and
 the machine interleaves them with everything that happens outside the lock.
 */
module Reporter {
  import opened Collections

  /** The fields guarded by the lock. Before the first update, `lastUpdate` is minus infinity. */
  datatype Fields<M> = Fields(updateInFlight: bool, pendingMessage: Option<M>, lastUpdate: Option<real>)

  predicate Throttled<M>(f: Fields<M>, force: bool, now: real, minInterval: real) {
    !force && f.lastUpdate.Some? && now - f.lastUpdate.value < minInterval
  }

  /** A call takes the slot of the one update in flight exactly when it is free and not throttled. */
  predicate Claims<M>(f: Fields<M>, force: bool, now: real, minInterval: real) {
    !f.updateInFlight && !Throttled(f, force, now, minInterval)
  }

  function AfterCall<M>(f: Fields<M>, message: M, force: bool, now: real, minInterval: real): Fields<M> {
    if Claims(f, force, now, minInterval) then Fields(true, f.pendingMessage, Some(now))
    else if f.updateInFlight && force then f.(pendingMessage := Some(message))
    else f
  }

  function AfterSend<M>(f: Fields<M>): Fields<M> {
    Fields(f.updateInFlight && f.pendingMessage.Some?, None, f.lastUpdate)
  }

  function AfterFailure<M>(f: Fields<M>): Fields<M> {
    Fields(false, None, f.lastUpdate)
  }

  class BeakerStatusReporter {
    const minInterval: real
    var updateInFlight: bool
    var pendingMessage: Option<string>
    var lastUpdate: Option<real>

    function Guarded(): Fields<string>
      reads this
    {
      Fields(updateInFlight, pendingMessage, lastUpdate)
    }

    constructor (minInterval: real)
      ensures this.minInterval == minInterval && Guarded() == Fields(false, None, None)
    {
      this.minInterval := minInterval;
      updateInFlight, pendingMessage, lastUpdate := false, None, None;
    }

    /** The lock section of `update`; true when this call goes on to start a sender. */
    method Update(fullMessage: string, force: bool, now: real) returns (claimed: bool)
      modifies this
      ensures claimed == old(Claims(Guarded(), force, now, minInterval))
      ensures Guarded() == old(AfterCall(Guarded(), fullMessage, force, now, minInterval))
    {
      if updateInFlight {
        if force {
          pendingMessage := Some(fullMessage);
        }
        return false;
      }
      if !force && lastUpdate.Some? && now - lastUpdate.value < minInterval {
        return false;
      }
      updateInFlight := true;
      lastUpdate := Some(now);
      return true;
    }

    /** The lock section after a successful send: what to send next, if anything. */
    method TakePending() returns (pending: Option<string>)
      modifies this
      ensures pending == old(pendingMessage)
      ensures Guarded() == old(AfterSend(Guarded()))
    {
      pending := pendingMessage;
      pendingMessage := None;
      if pending.None? {
        updateInFlight := false;
      }
    }

    /** The lock section after a failed send, or a thread that did not start. */
    method Release()
      modifies this
      ensures Guarded() == old(AfterFailure(Guarded()))
    {
      pendingMessage := None;
      updateInFlight := false;
    }
  }

  // ------------------------------------------------------------------ all interleavings

  /** A thread inside `update`. Calls are named by the order in which they took the lock. */
  datatype Caller =
    | Entered(force: bool)               // past the check that reporting is enabled
    | Claimed(call: nat)                 // out of the lock section, having claimed the slot
    | Captured(call: nat, live: bool)    // has read the client, which may be gone by now
    | StartFailed                        // the sender thread did not start
    | StartReleased                      // has released the slot, and will disable reporting

  /** A sender thread. `live` tells whether the client it captured exists. */
  datatype Sender =
    | Sending(call: nat, live: bool)     // inside the request
    | Delivered(call: nat, live: bool)   // the request returned
    | SendFailed                         // the request raised
    | SendDisabled                       // has disabled reporting, and will release the slot

  /** What is recorded of a call that took the lock: `free` tells whether it met a free slot. */
  datatype Call = Call(now: real, force: bool, free: bool, claimed: bool)

  /**
   `calls` records the calls in lock order; `sent` the calls whose message reached the
   server, in order; `failed` whether anything has failed yet.
   */
  datatype World = World(
    fields: Fields<nat>,
    client: bool,
    callers: map<nat, Caller>,
    senders: map<nat, Sender>,
    calls: seq<Call>,
    sent: seq<nat>,
    failed: bool)

  datatype Step =
    | Enter(t: nat, force: bool)
    | Lock(t: nat, now: real)
    | Capture(t: nat)
    | Start(t: nat, s: nat)
    | FailStart(t: nat)
    | ReleaseStart(t: nat)
    | DisableStart(t: nat)
    | Deliver(s: nat)
    | FailSend(s: nat, delivered: bool)
    | Continue(s: nat)
    | DisableSend(s: nat)
    | ReleaseSend(s: nat)

  predicate Enabled(w: World, step: Step) {
    match step
    case Enter(t, _) => t !in w.callers && w.client
    case Lock(t, _) => t in w.callers && w.callers[t].Entered?
    case Capture(t) => t in w.callers && w.callers[t].Claimed?
    case Start(t, s) => t in w.callers && w.callers[t].Captured? && s !in w.senders
    case FailStart(t) => t in w.callers && w.callers[t].Captured?
    case ReleaseStart(t) => t in w.callers && w.callers[t].StartFailed?
    case DisableStart(t) => t in w.callers && w.callers[t].StartReleased?
    case Deliver(s) => s in w.senders && w.senders[s].Sending? && w.senders[s].live
    case FailSend(s, delivered) => s in w.senders && w.senders[s].Sending? && (delivered ==> w.senders[s].live)
    case Continue(s) => s in w.senders && w.senders[s].Delivered?
    case DisableSend(s) => s in w.senders && w.senders[s].SendFailed?
    case ReleaseSend(s) => s in w.senders && w.senders[s].SendDisabled?
  }

  function Apply(minInterval: real, w: World, step: Step): World
    requires Enabled(w, step)
  {
    match step
    case Enter(t, force) => w.(callers := w.callers[t := Entered(force)])
    case Lock(t, now) =>
      var force, call := w.callers[t].force, |w.calls|;
      var claimed := Claims(w.fields, force, now, minInterval);
      w.(fields := AfterCall(w.fields, call, force, now, minInterval),
         calls := w.calls + [Call(now, force, !w.fields.updateInFlight, claimed)],
         callers := if claimed then w.callers[t := Claimed(call)] else w.callers - {t})
    case Capture(t) => w.(callers := w.callers[t := Captured(w.callers[t].call, w.client)])
    case Start(t, s) =>
      w.(callers := w.callers - {t}, senders := w.senders[s := Sending(w.callers[t].call, w.callers[t].live)])
    case FailStart(t) => w.(callers := w.callers[t := StartFailed], failed := true)
    case ReleaseStart(t) => w.(callers := w.callers[t := StartReleased], fields := AfterFailure(w.fields))
    case DisableStart(t) => w.(callers := w.callers - {t}, client := false)
    case Deliver(s) =>
      w.(senders := w.senders[s := Delivered(w.senders[s].call, true)], sent := w.sent + [w.senders[s].call])
    case FailSend(s, delivered) =>
      w.(senders := w.senders[s := SendFailed],
         sent := if delivered then w.sent + [w.senders[s].call] else w.sent,
         failed := true)
    case Continue(s) =>
      w.(fields := AfterSend(w.fields),
         senders := if w.fields.pendingMessage.Some?
                    then w.senders[s := Sending(w.fields.pendingMessage.value, w.senders[s].live)]
                    else w.senders - {s})
    case DisableSend(s) => w.(senders := w.senders[s := SendDisabled], client := false)
    case ReleaseSend(s) => w.(senders := w.senders - {s}, fields := AfterFailure(w.fields))
  }

  const Fresh := World(Fields(false, None, None), true, map[], map[], [], [], false)

  /** The world after these steps, if each was possible when it came. */
  function After(minInterval: real, steps: seq<Step>): Option<World> {
    if steps == [] then Some(Fresh)
    else
      var before, step := After(minInterval, steps[..|steps| - 1]), steps[|steps| - 1];
      if before.Some? && Enabled(before.value, step) then Some(Apply(minInterval, before.value, step)) else None
  }

  // ------------------------------------------------------------------ what every reachable world keeps

  /** The one thread that holds the slot, and the call it is working for while that is unsent. */
  datatype Holder = Nobody | ACaller(t: nat) | ASender(s: nat)

  predicate Holds(caller: Caller) {
    caller.Claimed? || caller.Captured? || caller.StartFailed?
  }

  /** Exactly the threads past the claim and before the release hold the slot, and there is at most one. */
  ghost predicate OneHolder(w: World, h: Holder) {
    && (forall t :: t in w.callers && Holds(w.callers[t]) <==> h == ACaller(t))
    && (forall s :: s in w.senders <==> h == ASender(s))
    && (w.fields.updateInFlight <==> h != Nobody)
    && (w.fields.pendingMessage.Some? ==> w.fields.updateInFlight)
  }

  /** The call the holder has yet to deliver. */
  function InHand(w: World, h: Holder): Option<nat> {
    match h
    case Nobody => None
    case ACaller(t) =>
      if t !in w.callers then None
      else (match w.callers[t]
            case Claimed(call) => Some(call)
            case Captured(call, _) => Some(call)
            case _ => None)
    case ASender(s) =>
      if s in w.senders && w.senders[s].Sending? then Some(w.senders[s].call) else None
  }

  /** Sent, then in hand, then pending: strictly later calls each time. */
  ghost predicate InLockOrder(w: World, h: Holder) {
    && Rising(w.sent)
    && (forall i :: 0 <= i < |w.sent| ==> w.sent[i] < |w.calls|)
    && (InHand(w, h).Some? ==>
          InHand(w, h).value < |w.calls| && forall i :: 0 <= i < |w.sent| ==> w.sent[i] < InHand(w, h).value)
    && (w.fields.pendingMessage.Some? ==>
          && w.fields.pendingMessage.value < |w.calls|
          && w.calls[w.fields.pendingMessage.value].force
          && (forall i :: 0 <= i < |w.sent| ==> w.sent[i] < w.fields.pendingMessage.value)
          && (InHand(w, h).Some? ==> InHand(w, h).value < w.fields.pendingMessage.value))
  }

  predicate LatestForced(calls: seq<Call>, f: nat) {
    f < |calls| && calls[f].force && forall g :: f < g < |calls| ==> !calls[g].force
  }

  /** Call j is the last before i that claimed the slot. */
  ghost predicate LastClaim(calls: seq<Call>, i: nat, j: nat) {
    j < i <= |calls| && calls[j].claimed && forall k :: j < k < i ==> !calls[k].claimed
  }

  /**
   Whether call i claims: not if it meets a taken slot; if it meets a free one, exactly if it
   is forced or at least `minInterval` after the last claim.
   */
  ghost predicate ClaimsRightly(minInterval: real, calls: seq<Call>, i: nat)
    requires i < |calls|
  {
    calls[i].claimed <==>
      && calls[i].free
      && (calls[i].force || forall j: nat :: LastClaim(calls, i, j) ==> calls[i].now - calls[j].now >= minInterval)
  }

  ghost predicate Spaced(minInterval: real, calls: seq<Call>) {
    forall i :: 0 <= i < |calls| ==> ClaimsRightly(minInterval, calls, i)
  }

  /** The time kept is that of the last claim, if there is one. */
  ghost predicate KeepsLastClaim(w: World) {
    if w.fields.lastUpdate.None? then forall k :: 0 <= k < |w.calls| ==> !w.calls[k].claimed
    else exists j: nat :: LastClaim(w.calls, |w.calls|, j) && w.calls[j].now == w.fields.lastUpdate.value
  }

  ghost predicate ThrottleOk(minInterval: real, w: World) {
    Spaced(minInterval, w.calls) && KeepsLastClaim(w)
  }

  /** Until something fails, the latest forced call has been sent, is being sent, or is next. */
  ghost predicate NothingLost(w: World, h: Holder) {
    !w.failed ==>
      && w.client
      && (forall t :: t in w.callers ==> !w.callers[t].StartFailed? && !w.callers[t].StartReleased?)
      && (forall t :: t in w.callers && w.callers[t].Captured? ==> w.callers[t].live)
      && (forall s :: s in w.senders ==> (w.senders[s].Sending? || w.senders[s].Delivered?) && w.senders[s].live)
      && forall f: nat :: LatestForced(w.calls, f) ==>
           f in w.sent || InHand(w, h) == Some(f) || w.fields.pendingMessage == Some(f)
  }

  ghost predicate Inv(w: World, h: Holder) {
    OneHolder(w, h) && InLockOrder(w, h) && NothingLost(w, h)
  }

  function NextHolder(minInterval: real, w: World, h: Holder, step: Step): Holder
    requires Enabled(w, step)
  {
    match step
    case Lock(t, now) => if Claims(w.fields, w.callers[t].force, now, minInterval) then ACaller(t) else h
    case Start(_, s) => ASender(s)
    case ReleaseStart(_) => Nobody
    case Continue(s) => if w.fields.pendingMessage.Some? then h else Nobody
    case ReleaseSend(_) => Nobody
    case _ => h
  }

  lemma StepKeepsHolder(minInterval: real, w: World, h: Holder, step: Step)
    requires OneHolder(w, h) && Enabled(w, step)
    ensures OneHolder(Apply(minInterval, w, step), NextHolder(minInterval, w, h, step))
  {
  }

  lemma StepKeepsOrder(minInterval: real, w: World, h: Holder, step: Step)
    requires OneHolder(w, h) && InLockOrder(w, h) && Enabled(w, step)
    ensures InLockOrder(Apply(minInterval, w, step), NextHolder(minInterval, w, h, step))
  {
    hide *;
    if step.Deliver? || (step.FailSend? && step.delivered) {
      DeliveryKeepsOrder(minInterval, w, h, step);
    } else if step.Lock? {
      LockKeepsOrder(minInterval, w, h, step);
    } else if step.Continue? {
      ContinueKeepsOrder(minInterval, w, h, step);
    } else {
      QuietKeepsOrder(minInterval, w, h, step);
    }
  }

  /** A lock section in `update` puts a later call in hand, or in the pending slot. */
  lemma LockKeepsOrder(minInterval: real, w: World, h: Holder, step: Step)
    requires OneHolder(w, h) && InLockOrder(w, h) && Enabled(w, step) && step.Lock?
    ensures InLockOrder(Apply(minInterval, w, step), NextHolder(minInterval, w, h, step))
  {
    hide Throttled;
    var w' := Apply(minInterval, w, step);
    assert w'.sent == w.sent;
  }

  /** A sender that goes on takes the pending call in hand. */
  lemma ContinueKeepsOrder(minInterval: real, w: World, h: Holder, step: Step)
    requires OneHolder(w, h) && InLockOrder(w, h) && Enabled(w, step) && step.Continue?
    ensures InLockOrder(Apply(minInterval, w, step), NextHolder(minInterval, w, h, step))
  {
    var w' := Apply(minInterval, w, step);
    assert w'.sent == w.sent && w'.calls == w.calls;
  }

  lemma QuietKeepsOrder(minInterval: real, w: World, h: Holder, step: Step)
    requires OneHolder(w, h) && InLockOrder(w, h) && Enabled(w, step)
    requires !step.Deliver? && !(step.FailSend? && step.delivered) && !step.Lock? && !step.Continue?
    ensures InLockOrder(Apply(minInterval, w, step), NextHolder(minInterval, w, h, step))
  {
    var w' := Apply(minInterval, w, step);
    assert w'.sent == w.sent && w'.calls == w.calls;
  }

  lemma DeliveryKeepsOrder(minInterval: real, w: World, h: Holder, step: Step)
    requires OneHolder(w, h) && InLockOrder(w, h) && Enabled(w, step)
    requires step.Deliver? || (step.FailSend? && step.delivered)
    ensures InLockOrder(Apply(minInterval, w, step), NextHolder(minInterval, w, h, step))
  {
    assert h == ASender(step.s) && InHand(w, h) == Some(w.senders[step.s].call);
    assert InHand(Apply(minInterval, w, step), NextHolder(minInterval, w, h, step)) == None;
  }

  lemma StepKeepsForced(minInterval: real, w: World, h: Holder, step: Step)
    requires OneHolder(w, h) && NothingLost(w, h) && Enabled(w, step)
    ensures NothingLost(Apply(minInterval, w, step), NextHolder(minInterval, w, h, step))
  {
    var w', h' := Apply(minInterval, w, step), NextHolder(minInterval, w, h, step);
    if !w'.failed {
      forall f: nat | LatestForced(w'.calls, f)
        ensures f in w'.sent || InHand(w', h') == Some(f) || w'.fields.pendingMessage == Some(f)
      {
        if step.Lock? {
          LockKeepsForced(minInterval, w, h, step, f);
        } else {
          assert LatestForced(w.calls, f);
        }
      }
    }
  }

  lemma LockKeepsForced(minInterval: real, w: World, h: Holder, step: Step, f: nat)
    requires OneHolder(w, h) && NothingLost(w, h) && Enabled(w, step) && step.Lock? && !w.failed
    requires LatestForced(Apply(minInterval, w, step).calls, f)
    ensures var w', h' := Apply(minInterval, w, step), NextHolder(minInterval, w, h, step);
      f in w'.sent || InHand(w', h') == Some(f) || w'.fields.pendingMessage == Some(f)
  {
    var w' := Apply(minInterval, w, step);
    if f < |w.calls| {
      assert !w.callers[step.t].force by { assert !w'.calls[|w.calls|].force; }
      assert LatestForced(w.calls, f) by {
        assert forall g :: 0 <= g < |w.calls| ==> w'.calls[g] == w.calls[g];
      }
    } else {
      assert w'.calls[f].force == w.callers[step.t].force;
    }
  }

  lemma StepKeeps(minInterval: real, w: World, h: Holder, step: Step)
    requires Inv(w, h) && Enabled(w, step)
    ensures Inv(Apply(minInterval, w, step), NextHolder(minInterval, w, h, step))
  {
    hide OneHolder, InLockOrder, NothingLost;
    StepKeepsHolder(minInterval, w, h, step);
    StepKeepsOrder(minInterval, w, h, step);
    StepKeepsForced(minInterval, w, h, step);
  }

  lemma {:induction false} RunKeeps(minInterval: real, steps: seq<Step>) returns (h: Holder)
    requires After(minInterval, steps).Some?
    ensures Inv(After(minInterval, steps).value, h)
  {
    if steps == [] {
      h := Nobody;
    } else {
      var before := After(minInterval, steps[..|steps| - 1]).value;
      var h0 := RunKeeps(minInterval, steps[..|steps| - 1]);
      StepKeeps(minInterval, before, h0, steps[|steps| - 1]);
      h := NextHolder(minInterval, before, h0, steps[|steps| - 1]);
    }
  }

  /** At most one thread is ever inside a send, whatever has failed before. */
  lemma OneSender(minInterval: real, steps: seq<Step>, s1: nat, s2: nat)
    requires After(minInterval, steps).Some?
    requires s1 in After(minInterval, steps).value.senders && s2 in After(minInterval, steps).value.senders
    ensures s1 == s2
    ensures After(minInterval, steps).value.fields.updateInFlight
  {
    var h := RunKeeps(minInterval, steps);
  }

  /** A waiting message always has an update in flight, and an update in flight always has a thread to finish it. */
  lemma PendingIsServed(minInterval: real, steps: seq<Step>)
    requires After(minInterval, steps).Some?
    ensures var w := After(minInterval, steps).value;
      && (w.fields.pendingMessage.Some? ==> w.fields.updateInFlight)
      && (w.fields.updateInFlight ==>
            || (exists t :: t in w.callers && Holds(w.callers[t]))
            || (exists s :: s in w.senders))
      && (!w.fields.updateInFlight ==> w.senders == map[] && forall t :: t in w.callers ==> !Holds(w.callers[t]))
  {
    var h := RunKeeps(minInterval, steps);
  }

  /** Messages reach the server in lock order, none of them twice. */
  lemma SentInLockOrder(minInterval: real, steps: seq<Step>)
    requires After(minInterval, steps).Some?
    ensures var w := After(minInterval, steps).value;
      Rising(w.sent) && forall i :: 0 <= i < |w.sent| ==> w.sent[i] < |w.calls|
  {
    var h := RunKeeps(minInterval, steps);
  }

  /**
   Whenever nothing is in flight in a run without failures, the latest forced message has
   been sent, and whatever was sent after it came from a later call.
   */
  lemma IdleHasLatest(minInterval: real, steps: seq<Step>, f: nat)
    requires After(minInterval, steps).Some?
    requires var w := After(minInterval, steps).value;
      !w.failed && !w.fields.updateInFlight && LatestForced(w.calls, f)
    ensures var w := After(minInterval, steps).value;
      exists i :: 0 <= i < |w.sent| && w.sent[i] == f && forall j :: i < j < |w.sent| ==> w.sent[j] > f
  {
    var h := RunKeeps(minInterval, steps);
    var w := After(minInterval, steps).value;
    assert f in w.sent;
    var i :| 0 <= i < |w.sent| && w.sent[i] == f;
  }

  // ------------------------------------------------------------------ the throttle

  lemma LastClaimWithin(calls: seq<Call>, call: Call, i: nat, j: nat)
    requires i <= |calls|
    ensures LastClaim(calls + [call], i, j) <==> LastClaim(calls, i, j)
  {
    assert forall k :: 0 <= k < i ==> (calls + [call])[k] == calls[k];
  }

  lemma ClaimsWithin(minInterval: real, calls: seq<Call>, call: Call, i: nat)
    requires i < |calls| && ClaimsRightly(minInterval, calls, i)
    ensures ClaimsRightly(minInterval, calls + [call], i)
  {
    forall j: nat ensures LastClaim(calls + [call], i, j) <==> LastClaim(calls, i, j) {
      LastClaimWithin(calls, call, i, j);
    }
  }

  lemma OnlyOneLast(calls: seq<Call>, i: nat, j: nat, k: nat)
    requires LastClaim(calls, i, j) && LastClaim(calls, i, k)
    ensures j == k
  {
  }

  /** One more call keeps the spacing, if it claims as it should. */
  lemma SpacedNext(minInterval: real, calls: seq<Call>, call: Call)
    requires Spaced(minInterval, calls)
    requires call.claimed <==>
      && call.free
      && (call.force || forall j: nat :: LastClaim(calls, |calls|, j) ==> call.now - calls[j].now >= minInterval)
    ensures Spaced(minInterval, calls + [call])
  {
    forall i | 0 <= i < |calls + [call]| ensures ClaimsRightly(minInterval, calls + [call], i) {
      if i < |calls| {
        ClaimsWithin(minInterval, calls, call, i);
      } else {
        forall j: nat ensures LastClaim(calls + [call], i, j) <==> LastClaim(calls, i, j) {
          LastClaimWithin(calls, call, i, j);
        }
      }
    }
  }

  lemma LockKeepsThrottle(minInterval: real, w: World, step: Step)
    requires ThrottleOk(minInterval, w) && Enabled(w, step) && step.Lock?
    ensures ThrottleOk(minInterval, Apply(minInterval, w, step))
  {
    var w' := Apply(minInterval, w, step);
    var call := w'.calls[|w.calls|];
    if w.fields.lastUpdate.Some? {
      var last: nat :| LastClaim(w.calls, |w.calls|, last) && w.calls[last].now == w.fields.lastUpdate.value;
      forall j: nat | LastClaim(w.calls, |w.calls|, j) ensures j == last {
        OnlyOneLast(w.calls, |w.calls|, j, last);
      }
      assert !call.claimed ==> LastClaim(w'.calls, |w'.calls|, last);
    }
    assert call.claimed ==> LastClaim(w'.calls, |w'.calls|, |w.calls|);
    SpacedNext(minInterval, w.calls, call);
  }

  /** Only calls claim the slot, so every other step keeps the calls and the time. */
  lemma OthersKeepThrottle(minInterval: real, w: World, step: Step)
    requires Enabled(w, step) && !step.Lock?
    ensures var w' := Apply(minInterval, w, step);
      w'.calls == w.calls && w'.fields.lastUpdate == w.fields.lastUpdate
  {
  }

  /** In every run, exactly the calls claim the slot that meet it free and are forced or late enough. */
  lemma {:induction false} ClaimsAreSpaced(minInterval: real, steps: seq<Step>)
    requires After(minInterval, steps).Some?
    ensures Spaced(minInterval, After(minInterval, steps).value.calls)
    ensures KeepsLastClaim(After(minInterval, steps).value)
  {
    hide Spaced, Apply, Enabled;
    if steps == [] {
      NothingSpaced(minInterval);
    } else {
      var before, step := After(minInterval, steps[..|steps| - 1]).value, steps[|steps| - 1];
      ClaimsAreSpaced(minInterval, steps[..|steps| - 1]);
      if step.Lock? {
        LockKeepsThrottle(minInterval, before, step);
      } else {
        OthersKeepThrottle(minInterval, before, step);
      }
    }
  }

  lemma NothingSpaced(minInterval: real)
    ensures Spaced(minInterval, [])
  {
  }
}
