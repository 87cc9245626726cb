/**
  The register handshake that brings a controller up (NVMe 1.3, sections 3.1.5 and 7.6.1), against
  a controller that changes its status register on its own.
 */
module Controllers {
  import opened NvmeTypes
  import opened Ring

  /** What the driver reads of CSTS. */
  datatype Csts = Csts(rdy: bool, cfs: bool, shst: nat)

  const SHST_COMPLETED: nat := 2

  /** A register write, with the state of the controller at that moment. */
  datatype Write =
    | WriteCc(en: bool, shn: nat, wasEn: bool, rdy: bool)
    | WriteAdminQueue(asqs: nat, acqs: nat, asq: nat, acq: nat, wasEn: bool, rdy: bool)

  /**
    A controller.  `behaviour(t, en, csts)` is the status register at the `t`-th look at it, given CC.EN and
    the status before; every function is a controller, so a property proved for all of them holds
    against every controller.
   */
  class Controller {
    const behaviour: (nat, bool, Csts) -> Csts
    var clock: nat
    var en: bool
    var shn: nat
    var csts: Csts
    var samples: seq<Csts>   // what the driver has read
    var writes: seq<Write>   // what the driver has written

    constructor (behaviour: (nat, bool, Csts) -> Csts, en: bool, csts: Csts)
      ensures this.behaviour == behaviour && this.en == en && this.csts == csts
      ensures clock == 0 && samples == [] && writes == []
    {
      this.behaviour, this.en, this.csts := behaviour, en, csts;
      clock, shn, samples, writes := 0, 0, [], [];
    }

    /** From look `look` on the ready state is `rdy` as long as CC.EN is `en`. */
    ghost predicate SettledFrom(look: nat, en: bool, rdy: bool)
    {
      forall t: nat, csts: Csts {:trigger behaviour(t, en, csts)} :: look <= t ==> Ready(behaviour(t, en, csts)) == rdy
    }

    /** From look `look` on the shutdown is over. */
    ghost predicate ShutDownFrom(look: nat, en: bool)
    {
      forall t: nat, csts: Csts {:trigger behaviour(t, en, csts)} ::
        look <= t ==> behaviour(t, en, csts).shst == SHST_COMPLETED
    }

    /** The ready state follows CC.EN at once. */
    ghost predicate Follows()
    {
      SettledFrom(0, true, true) && SettledFrom(0, false, false)
    }

    /** RDY stays or moves to EN, and no fatal status comes up. */
    ghost predicate WellBehaved()
    {
      forall t: nat, en: bool, csts: Csts {:trigger behaviour(t, en, csts)} ::
        var next := behaviour(t, en, csts);
        (next.rdy == csts.rdy || next.rdy == en) && (csts.cfs || !next.cfs)
    }

    method ReadCsts() returns (r: Csts)
      modifies this`clock, this`csts, this`samples
      ensures clock == old(clock) + 1
      ensures r == csts == behaviour(old(clock), en, old(csts))
      ensures samples == old(samples) + [r]
    {
      csts := behaviour(clock, en, csts);
      clock := clock + 1;
      samples := samples + [csts];
      r := csts;
    }

    /** The controller may move before a write arrives. */
    method SetCc(en: bool, shn: nat)
      modifies this`clock, this`csts, this`en, this`shn, this`writes
      ensures csts == behaviour(old(clock), old(this.en), old(csts))
      ensures this.en == en && this.shn == shn
      ensures writes == old(writes) + [WriteCc(en, shn, old(this.en), csts.rdy)]
    {
      csts := behaviour(clock, this.en, csts);
      clock := clock + 1;
      writes := writes + [WriteCc(en, shn, this.en, csts.rdy)];
      this.en, this.shn := en, shn;
    }

    method SetAdminQueue(asqs: nat, acqs: nat, asq: nat, acq: nat)
      modifies this`clock, this`csts, this`writes
      ensures csts == behaviour(old(clock), en, old(csts))
      ensures writes == old(writes) + [WriteAdminQueue(asqs, acqs, asq, acq, en, csts.rdy)]
    {
      csts := behaviour(clock, en, csts);
      clock := clock + 1;
      writes := writes + [WriteAdminQueue(asqs, acqs, asq, acq, en, csts.rdy)];
    }
  }

  /**
    A write section 3.1 of NVMe 1.3 allows: queue attributes and the rise of EN only on a controller that is off, and
    the fall of EN only on one that is ready.
   */
  predicate Allowed(w: Write) {
    match w
    case WriteCc(en, _, wasEn, rdy) => (en && !wasEn ==> !rdy) && (!en && wasEn ==> rdy)
    case WriteAdminQueue(_, _, _, _, wasEn, rdy) => !wasEn && !rdy
  }

  predicate IsCcWrite(w: Write, en: bool, shn: nat) {
    w.WriteCc? && w.en == en && w.shn == shn
  }

  predicate AllAllowed(writes: seq<Write>) {
    forall i :: 0 <= i < |writes| ==> Allowed(writes[i])
  }

  /** The register side of CNvmeDevice. */
  class RegisterAccess {
    const ctrl: Controller
    const stallDelay: uint32
    const deviceTimeout: uint32
    var stalls: nat        // calls of StorPortStallExecution

    constructor (ctrl: Controller, stallDelay: uint32, deviceTimeout: uint32)
      requires 0 < stallDelay && deviceTimeout + stallDelay < TWO_TO_THE_32
      ensures this.ctrl == ctrl && this.stallDelay == stallDelay && this.deviceTimeout == deviceTimeout
      ensures Valid() && stalls == 0
    {
      this.ctrl, this.stallDelay, this.deviceTimeout := ctrl, stallDelay, deviceTimeout;
      stalls := 0;
    }

    /** The elapsed time of a poll loop fits its 32-bit counter. */
    predicate Valid() {
      0 < stallDelay && deviceTimeout + stallDelay < TWO_TO_THE_32
    }

    method StallExecution()
      modifies this`stalls
      ensures stalls == old(stalls) + 1
    {
      stalls := stalls + 1;
    }

    method IsControllerReady() returns (ready: bool)
      modifies ctrl`clock, ctrl`csts, ctrl`samples
      ensures ctrl.samples == old(ctrl.samples) + [ctrl.csts] && ctrl.clock == old(ctrl.clock) + 1
      ensures ctrl.csts == ctrl.behaviour(old(ctrl.clock), ctrl.en, old(ctrl.csts))
      ensures ready == Ready(ctrl.csts)
      ensures ctrl.WellBehaved() ==> Settling(old(ctrl.csts), ctrl.csts, ctrl.en)
    {
      var csts := ctrl.ReadCsts();
      return csts.rdy && !csts.cfs;
    }

    /** Poll until the ready state is `rdy`, for at most `time` microseconds. */
    method WaitForReady(time: uint32, rdy: bool) returns (ok: bool)
      requires Valid() && time + stallDelay < TWO_TO_THE_32
      modifies this`stalls, ctrl`clock, ctrl`csts, ctrl`samples
      ensures stalls >= old(stalls) && Polled(stalls - old(stalls), stallDelay, time, ok)
      ensures Sampled(old(ctrl.samples), ctrl.samples, ctrl.csts, stalls - old(stalls), ok)
      ensures Rejected(ctrl.samples, |old(ctrl.samples)|, stalls - old(stalls), rdy)
      ensures ok ==> Ready(ctrl.csts) == rdy
      ensures ctrl.clock == old(ctrl.clock) + (|ctrl.samples| - |old(ctrl.samples)|)
      ensures Looks(ctrl, ctrl.en, old(ctrl.clock), old(ctrl.csts), old(ctrl.samples), ctrl.samples, ctrl.csts)
      ensures ctrl.SettledFrom(old(ctrl.clock), ctrl.en, rdy) ==> ok
      ensures ctrl.WellBehaved() ==> Settling(old(ctrl.csts), ctrl.csts, ctrl.en)
    {
      ghost var start := Start(ctrl.clock, ctrl.csts, ctrl.samples);
      var elapsed: uint32 := 0;
      var ready := IsControllerReady();
      PollBegins(ctrl, ctrl.en, start, ctrl.csts, rdy, true);
      while ready != rdy
        invariant stalls >= old(stalls) && elapsed == Times(stalls - old(stalls), stallDelay) <= time
        invariant Polling(ctrl, ctrl.en, start, ctrl.clock, ctrl.samples, ctrl.csts, stalls - old(stalls), rdy, true)
        invariant ready == Ready(ctrl.csts)
        invariant ctrl.WellBehaved() ==> Settling(old(ctrl.csts), ctrl.csts, ctrl.en)
        decreases time - elapsed
      {
        ghost var clock, samples, was, k := ctrl.clock, ctrl.samples, ctrl.csts, stalls - old(stalls);
        StallExecution();
        elapsed := elapsed + stallDelay;
        if elapsed > time {
          PollEnds(ctrl, ctrl.en, start, clock, samples, was, k, stallDelay, time, rdy, true);
          return false;
        }
        ready := IsControllerReady();
        PollGoesOn(ctrl, ctrl.en, start, clock, samples, was, ctrl.csts, k, rdy, true);
      }
      return true;
    }

    /** Poll until the ready state is `rdy` and CC.EN is `en`. */
    method WaitForReadyAndEnable(time: uint32, rdy: bool, en: bool) returns (ok: bool)
      requires Valid() && time + stallDelay < TWO_TO_THE_32
      modifies this`stalls, ctrl`clock, ctrl`csts, ctrl`samples
      ensures stalls >= old(stalls) && Polled(stalls - old(stalls), stallDelay, time, ok)
      ensures Sampled(old(ctrl.samples), ctrl.samples, ctrl.csts, stalls - old(stalls), ok)
      ensures ctrl.en == en ==> Rejected(ctrl.samples, |old(ctrl.samples)|, stalls - old(stalls), rdy)
      ensures ok ==> Ready(ctrl.csts) == rdy && ctrl.en == en
      ensures ctrl.clock == old(ctrl.clock) + (|ctrl.samples| - |old(ctrl.samples)|)
      ensures Looks(ctrl, ctrl.en, old(ctrl.clock), old(ctrl.csts), old(ctrl.samples), ctrl.samples, ctrl.csts)
      ensures ctrl.en == en && ctrl.SettledFrom(old(ctrl.clock), en, rdy) ==> ok
      ensures ctrl.WellBehaved() ==> Settling(old(ctrl.csts), ctrl.csts, ctrl.en)
    {
      ghost var start, asked := Start(ctrl.clock, ctrl.csts, ctrl.samples), ctrl.en == en;
      var elapsed: uint32 := 0;
      var enabled := ctrl.en;
      var ready := IsControllerReady();
      PollBegins(ctrl, ctrl.en, start, ctrl.csts, rdy, asked);
      while ready != rdy || enabled != en
        invariant stalls >= old(stalls) && elapsed == Times(stalls - old(stalls), stallDelay) <= time
        invariant Polling(ctrl, ctrl.en, start, ctrl.clock, ctrl.samples, ctrl.csts, stalls - old(stalls), rdy, asked)
        invariant ready == Ready(ctrl.csts) && enabled == ctrl.en
        invariant ctrl.WellBehaved() ==> Settling(old(ctrl.csts), ctrl.csts, ctrl.en)
        decreases time - elapsed
      {
        ghost var clock, samples, was, k := ctrl.clock, ctrl.samples, ctrl.csts, stalls - old(stalls);
        StallExecution();
        elapsed := elapsed + stallDelay;
        if elapsed > time {
          PollEnds(ctrl, ctrl.en, start, clock, samples, was, k, stallDelay, time, rdy, asked);
          return false;
        }
        enabled := ctrl.en;
        ready := IsControllerReady();
        PollGoesOn(ctrl, ctrl.en, start, clock, samples, was, ctrl.csts, k, rdy, asked);
      }
      return true;
    }

    /** Poll for the end of a shutdown. */
    method WaitForShutdown(time: uint32) returns (ok: bool)
      requires Valid() && time + stallDelay < TWO_TO_THE_32
      modifies this`stalls, ctrl`clock, ctrl`csts, ctrl`samples
      ensures stalls >= old(stalls) && Polled(stalls - old(stalls), stallDelay, time, ok)
      ensures Sampled(old(ctrl.samples), ctrl.samples, ctrl.csts, stalls - old(stalls), ok)
      ensures NotShutDown(ctrl.samples, |old(ctrl.samples)|, stalls - old(stalls))
      ensures ok ==> ctrl.csts.shst == SHST_COMPLETED
      ensures ctrl.ShutDownFrom(old(ctrl.clock), ctrl.en) ==> ok
      ensures ctrl.clock == old(ctrl.clock) + (|ctrl.samples| - |old(ctrl.samples)|)
      ensures Looks(ctrl, ctrl.en, old(ctrl.clock), old(ctrl.csts), old(ctrl.samples), ctrl.samples, ctrl.csts)
    {
      var elapsed: uint32 := 0;
      var done := false;
      while !done
        invariant stalls >= old(stalls) && elapsed == Times(stalls - old(stalls), stallDelay) <= time
        invariant Sampled(old(ctrl.samples), ctrl.samples, ctrl.csts, stalls - old(stalls), done)
        invariant ctrl.clock == old(ctrl.clock) + (|ctrl.samples| - |old(ctrl.samples)|)
        invariant Looks(ctrl, ctrl.en, old(ctrl.clock), old(ctrl.csts), old(ctrl.samples), ctrl.samples, ctrl.csts)
        invariant NotShutDown(ctrl.samples, |old(ctrl.samples)|, stalls - old(stalls))
        invariant done ==> ctrl.csts.shst == SHST_COMPLETED
        decreases !done, time - elapsed
      {
        ghost var samples, was := ctrl.samples, ctrl.csts;
        var csts := ctrl.ReadCsts();
        LooksMore(ctrl, ctrl.en, old(ctrl.clock), old(ctrl.csts), old(ctrl.samples), samples, was, csts);
        if csts.shst == SHST_COMPLETED {
          done := true;
        } else {
          StallExecution();
          elapsed := elapsed + stallDelay;
          if elapsed > time {
            return false;
          }
        }
      }
      return true;
    }

    method EnableController() returns (status: NtStatus)
      requires Valid()
      modifies this`stalls, ctrl
      ensures old(ctrl.samples) <= ctrl.samples && old(ctrl.writes) <= ctrl.writes
      ensures |ctrl.samples| > |old(ctrl.samples)|
      ensures status == StatusSuccess ==> Ready(ctrl.csts)
      ensures Ready(ctrl.samples[|old(ctrl.samples)|]) ==>
                status == StatusSuccess && ctrl.writes == old(ctrl.writes) && ctrl.en == old(ctrl.en)
      ensures !Ready(ctrl.samples[|old(ctrl.samples)|]) ==>
                && (status == StatusSuccess ==> On(ctrl.en, ctrl.csts))
                && (old(ctrl.en) ==> status == StatusInvalidDeviceState && ctrl.writes == old(ctrl.writes))
      ensures ctrl.WellBehaved() && !old(ctrl.csts).cfs ==> AllAllowed(ctrl.writes[|old(ctrl.writes)|..])
      ensures ctrl.WellBehaved() && Off(old(ctrl.en), old(ctrl.csts)) ==>
                !Ready(ctrl.samples[|old(ctrl.samples)|])
      ensures ctrl.Follows() ==> status == StatusSuccess && On(ctrl.en, ctrl.csts)
      ensures status == StatusSuccess && !Ready(ctrl.samples[|old(ctrl.samples)|]) ==>
                && |ctrl.writes| == |old(ctrl.writes)| + 2
                && IsCcWrite(ctrl.writes[|old(ctrl.writes)|], false, 0)
                && IsCcWrite(ctrl.writes[|old(ctrl.writes)| + 1], true, 0)
    {
      var ready := IsControllerReady();
      if ready {
        return StatusSuccess;
      }
      var ok := WaitForReadyAndEnable(deviceTimeout, false, false);
      if !ok {
        return StatusInvalidDeviceState;
      }
      ctrl.SetCc(false, 0);
      StallExecution();
      ctrl.SetCc(true, 0);
      ok := WaitForReady(deviceTimeout, true);
      if !ok {
        return StatusInternalError;
      }
      return StatusSuccess;
    }

    method DisableController() returns (status: NtStatus)
      requires Valid()
      modifies this`stalls, ctrl
      ensures |ctrl.samples| > |old(ctrl.samples)|
      ensures old(ctrl.samples) <= ctrl.samples && old(ctrl.writes) <= ctrl.writes
      ensures ctrl.samples[|old(ctrl.samples)|] == ctrl.behaviour(old(ctrl.clock), old(ctrl.en), old(ctrl.csts))
      ensures ctrl.Follows() ==> status == StatusSuccess && !ctrl.en && !Ready(ctrl.csts)
      ensures status == StatusSuccess && Ready(ctrl.samples[|old(ctrl.samples)|]) ==>
                && old(ctrl.en) && !ctrl.en
                && |ctrl.writes| == |old(ctrl.writes)| + 1
                && IsCcWrite(ctrl.writes[|old(ctrl.writes)|], false, old(ctrl.shn))
      ensures ctrl.WellBehaved() && !old(ctrl.csts).cfs ==>
                && !ctrl.csts.cfs
                && AllAllowed(ctrl.writes[|old(ctrl.writes)|..])
                && (status == StatusSuccess && Ready(ctrl.samples[|old(ctrl.samples)|]) ==> Off(ctrl.en, ctrl.csts))
      ensures !Ready(ctrl.samples[|old(ctrl.samples)|]) ==>
                && status == StatusSuccess
                && ctrl.writes == old(ctrl.writes) && ctrl.en == old(ctrl.en)
                && ctrl.clock == old(ctrl.clock) + 1 && |ctrl.samples| == |old(ctrl.samples)| + 1
                && ctrl.csts == ctrl.samples[|old(ctrl.samples)|]
                && (ctrl.WellBehaved() ==> Settling(old(ctrl.csts), ctrl.csts, ctrl.en))
    {
      var ready := IsControllerReady();
      assert ctrl.samples[|old(ctrl.samples)|] == ctrl.csts;
      assert ctrl.writes[|old(ctrl.writes)|..] == [];
      if !ready {
        return StatusSuccess;
      }
      var ok := WaitForReadyAndEnable(deviceTimeout, true, true);
      if !ok {
        return StatusInvalidDeviceState;
      }
      ctrl.SetCc(false, ctrl.shn);
      StallExecution();
      ok := WaitForReady(deviceTimeout, false);
      if !ok {
        return StatusInternalError;
      }
      return StatusSuccess;
    }

    /** `queues` are the physical addresses of the admin rings, if there is an admin queue. */
    method RegisterAdmQ(queues: Option<(nat, nat)>, depth: nat) returns (outcome: Outcome<NtStatus>)
      requires Valid()
      requires 0 < depth
      modifies ctrl`clock, ctrl`csts, ctrl`samples, ctrl`writes
      ensures old(ctrl.samples) <= ctrl.samples
      ensures ctrl.WellBehaved() ==> Settling(old(ctrl.csts), ctrl.csts, ctrl.en)
      ensures outcome == Returned(StatusSuccess) ==>
                && queues.Some? && queues.value.0 != 0 && queues.value.1 != 0
                && |ctrl.writes| == |old(ctrl.writes)| + 1
                && old(ctrl.writes) <= ctrl.writes
                && ctrl.writes[|old(ctrl.writes)|] ==
                   WriteAdminQueue(depth - 1, depth - 1, queues.value.0, queues.value.1, ctrl.en, ctrl.csts.rdy)
      ensures outcome != Returned(StatusSuccess) ==> ctrl.writes == old(ctrl.writes)
      ensures |ctrl.samples| == |old(ctrl.samples)| + 1
      ensures ctrl.samples[|old(ctrl.samples)|] == ctrl.behaviour(old(ctrl.clock), ctrl.en, old(ctrl.csts))
      ensures outcome == if Ready(ctrl.samples[|old(ctrl.samples)|]) || queues.None? then BugCheck
                         else if queues.value.0 == 0 || queues.value.1 == 0 then Returned(StatusMemoryNotAllocated)
                         else Returned(StatusSuccess)
      ensures outcome == BugCheck && queues.Some? ==> Ready(ctrl.csts)
    {
      var ready := IsControllerReady();
      if ready || queues.None? {
        return BugCheck;
      }
      var (subq, cplq) := queues.value;
      if subq == 0 || cplq == 0 {
        return Returned(StatusMemoryNotAllocated);
      }
      ctrl.SetAdminQueue(depth - 1, depth - 1, subq, cplq);
      return Returned(StatusSuccess);
    }
  }

  /** How a function that can stop the machine ends. */
  datatype Outcome<+T> = Returned(status: T) | BugCheck

  predicate Off(en: bool, csts: Csts) {
    !en && !csts.rdy && !csts.cfs
  }

  predicate On(en: bool, csts: Csts) {
    en && csts.rdy && !csts.cfs
  }

  predicate Ready(csts: Csts) {
    csts.rdy && !csts.cfs
  }

  /** `stalls` delays. */
  function Times(stalls: nat, delay: nat): nat {
    if stalls == 0 then 0 else Times(stalls - 1, delay) + delay
  }

  /** The loop gives up after the first stall that takes it beyond `time`, and not before. */
  predicate Polled(stalls: nat, delay: nat, time: nat, ok: bool) {
    if ok then Times(stalls, delay) <= time
    else stalls > 0 && Times(stalls - 1, delay) <= time < Times(stalls, delay)
  }

  /** One look at the status before each stall, and when the loop succeeds one more that ends it. */
  predicate Sampled(before: seq<Csts>, after: seq<Csts>, csts: Csts, stalls: nat, ok: bool) {
    && before <= after
    && |after| == |before| + stalls + (if ok then 1 else 0)
    && (ok ==> after[|after| - 1] == csts)
  }

  /** The status after `n` looks, when CC.EN stays as it is and the first of them is look `clock`. */
  ghost function StatusAfter(ctrl: Controller, en: bool, clock: nat, csts: Csts, n: nat): Csts
  {
    if n == 0 then csts else ctrl.behaviour(clock + n - 1, en, StatusAfter(ctrl, en, clock, csts, n - 1))
  }

  /** Look by look, what the driver has read since `before` is what the controller does on its own. */
  ghost predicate Looks(ctrl: Controller, en: bool, clock: nat, csts: Csts, before: seq<Csts>, samples: seq<Csts>,
                        now: Csts)
  {
    var n := |samples| - |before|;
    && before <= samples
    && now == StatusAfter(ctrl, en, clock, csts, n)
    && forall i :: |before| <= i < |samples| ==> samples[i] == StatusAfter(ctrl, en, clock, csts, i + 1 - |before|)
  }

  lemma LooksMore(ctrl: Controller, en: bool, clock: nat, csts: Csts, before: seq<Csts>, samples: seq<Csts>, was: Csts,
                  now: Csts)
    requires Looks(ctrl, en, clock, csts, before, samples, was)
    requires now == ctrl.behaviour(clock + (|samples| - |before|), en, was)
    ensures Looks(ctrl, en, clock, csts, before, samples + [now], now)
  {
    var n := |samples| - |before|;
    assert StatusAfter(ctrl, en, clock, csts, n + 1) == ctrl.behaviour(clock + n, en, was);
  }

  lemma SettledLook(ctrl: Controller, en: bool, clock: nat, csts: Csts, before: seq<Csts>, samples: seq<Csts>,
                    now: Csts, rdy: bool, m: nat)
    requires Looks(ctrl, en, clock, csts, before, samples, now) && |before| + m < |samples|
    ensures ctrl.SettledFrom(clock + m, en, rdy) ==> Ready(samples[|before| + m]) == rdy
  {
    var was := StatusAfter(ctrl, en, clock, csts, m);
    assert StatusAfter(ctrl, en, clock, csts, m + 1) == ctrl.behaviour(clock + m, en, was);
  }

  /** A controller that has settled by look `m`, with the time for `m` stalls, is not given up. */
  lemma SettledIsSeen(ctrl: Controller, en: bool, clock: nat, csts: Csts, before: seq<Csts>, samples: seq<Csts>,
                      now: Csts, stalls: nat, delay: nat, time: nat, rdy: bool, ok: bool, m: nat)
    requires Looks(ctrl, en, clock, csts, before, samples, now) && Rejected(samples, |before|, stalls, rdy)
    requires Polled(stalls, delay, time, ok)
    ensures ctrl.SettledFrom(clock + m, en, rdy) && Times(m, delay) <= time ==> ok && stalls <= m
  {
    if m < stalls {
      SettledLook(ctrl, en, clock, csts, before, samples, now, rdy, m);
    } else if !ok {
      TimesGrow(stalls, m, delay);
    }
  }

  /** The controller as a poll loop finds it. */
  datatype Start = Start(clock: nat, csts: Csts, samples: seq<Csts>)

  /**
    In the loop, after `stalls` stalls and a look more.  When the loop asks for what a look can show (`asked`), the
    looks before the last one did not show it.
   */
  ghost predicate Polling(ctrl: Controller, en: bool, start: Start, clock: nat, samples: seq<Csts>, now: Csts,
                          stalls: nat, rdy: bool, asked: bool)
  {
    && Sampled(start.samples, samples, now, stalls, true)
    && clock == start.clock + (|samples| - |start.samples|)
    && Looks(ctrl, en, start.clock, start.csts, start.samples, samples, now)
    && (asked ==> Rejected(samples, |start.samples|, stalls, rdy))
  }

  lemma PollBegins(ctrl: Controller, en: bool, start: Start, now: Csts, rdy: bool, asked: bool)
    requires now == ctrl.behaviour(start.clock, en, start.csts)
    ensures Polling(ctrl, en, start, start.clock + 1, start.samples + [now], now, 0, rdy, asked)
  {
    LooksMore(ctrl, en, start.clock, start.csts, start.samples, start.samples, start.csts, now);
  }

  lemma PollGoesOn(ctrl: Controller, en: bool, start: Start, clock: nat, samples: seq<Csts>, was: Csts, now: Csts,
                   stalls: nat, rdy: bool, asked: bool)
    requires Polling(ctrl, en, start, clock, samples, was, stalls, rdy, asked)
    requires now == ctrl.behaviour(clock, en, was) && (asked ==> Ready(was) != rdy)
    ensures Polling(ctrl, en, start, clock + 1, samples + [now], now, stalls + 1, rdy, asked)
  {
    LooksMore(ctrl, en, start.clock, start.csts, start.samples, samples, was, now);
  }

  /** Giving up after one stall more, which was the first beyond the time. */
  lemma PollEnds(ctrl: Controller, en: bool, start: Start, clock: nat, samples: seq<Csts>, was: Csts, stalls: nat,
                 delay: nat, time: nat, rdy: bool, asked: bool)
    requires Polling(ctrl, en, start, clock, samples, was, stalls, rdy, asked) && (asked ==> Ready(was) != rdy)
    requires Polled(stalls + 1, delay, time, false)
    ensures Sampled(start.samples, samples, was, stalls + 1, false)
    ensures asked ==> Rejected(samples, |start.samples|, stalls + 1, rdy)
    ensures asked ==> !ctrl.SettledFrom(start.clock, en, rdy)
  {
    if asked {
      SettledIsSeen(ctrl, en, start.clock, start.csts, start.samples, samples, was, stalls + 1, delay, time, rdy,
                    false, 0);
    }
  }

  lemma {:induction false} TimesGrow(a: nat, b: nat, delay: nat)
    requires a <= b
    ensures Times(a, delay) <= Times(b, delay)
  {
    if a < b {
      TimesGrow(a, b - 1, delay);
    }
  }

  /** The looks before the last stall did not see what the loop waits for. */
  predicate Rejected(samples: seq<Csts>, from: nat, stalls: nat, rdy: bool) {
    from + stalls <= |samples| && forall i :: from <= i < from + stalls ==> Ready(samples[i]) != rdy
  }

  /** The looks before the last stall did not see the end of the shutdown. */
  predicate NotShutDown(samples: seq<Csts>, from: nat, stalls: nat) {
    from + stalls <= |samples| && forall i :: from <= i < from + stalls ==> samples[i].shst != SHST_COMPLETED
  }

  lemma {:induction false} TimesIsProduct(stalls: nat, delay: nat)
    ensures Times(stalls, delay) == stalls * delay
  {
    if stalls > 0 {
      TimesIsProduct(stalls - 1, delay);
    }
  }

  /** Against every controller a poll loop stalls at most floor(time / delay) + 1 times. */
  lemma PollBound(stalls: nat, delay: nat, time: nat, ok: bool)
    requires 0 < delay && Polled(stalls, delay, time, ok)
    ensures stalls <= time / delay + 1
    ensures !ok ==> stalls == time / delay + 1
  {
    TimesIsProduct(stalls, delay);
    if stalls > 0 {
      TimesIsProduct(stalls - 1, delay);
      QuotientBound(stalls - 1, delay, time);
      if !ok {
        QuotientTight(stalls, delay, time);
      }
    }
  }

  lemma QuotientBound(k: nat, delay: nat, time: nat)
    requires 0 < delay && k * delay <= time
    ensures k <= time / delay
  {
    var q := time / delay;
    assert time == q * delay + time % delay;
    assert (k - q) * delay <= time % delay;
    Multiple(k - q, delay);
  }

  lemma QuotientTight(k: nat, delay: nat, time: nat)
    requires 0 < delay && time < k * delay
    ensures time / delay < k
  {
    var q := time / delay;
    assert time == q * delay + time % delay;
    assert (k - q) * delay > 0;
    Multiple(k - q, delay);
  }

  /** What a well-behaved controller can make of its status while CC.EN stays `en`. */
  predicate Settling(before: Csts, after: Csts, en: bool) {
    (after.rdy == before.rdy || after.rdy == en) && (before.cfs || !after.cfs)
  }
}
