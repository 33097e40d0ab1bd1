/**
 * The foreign libevent library, seen only through the calls the crate makes
 * into it. What libevent does inside those calls (polling, timers, running
 * callbacks) is not modelled: its results are inputs chosen by the
 * environment, and the object records, in a ghost log, every call it
 * received and with which arguments.
 */
module LibeventSys {
  import opened Wrappers
  import opened Ints
  import opened Flags
  import opened Time

  /** A user closure (`Box<dyn FnMut(EventFlags)>`), known only by identity. */
  datatype Closure = Closure(id: nat)

  /** A C callback address (`EventCallbackFn`). */
  datatype CallbackFn =
    | WrappedCallback        // the crate's own trampoline, `handle_wrapped_callback`
    | ExternCallback(id: nat) // any other `extern "C"` function

  /** The opaque `void *` context libevent hands back to the callback. */
  datatype Ctx =
    | Null
    | Raw(addr: nat)          // a caller-supplied pointer the crate does not interpret
    | Boxed(wrapped: Closure) // a leaked `Box<EventCallbackWrapper>` around a closure

  /** One `event` libevent allocated, by identity. */
  type EventId = nat

  /** How one `event_base_loop` call ended, as the two queries after it see it. */
  datatype LoopOutcome = LoopOutcome(exitCode: i32, gotExit: bool, gotBreak: bool)

  /** A call into libevent, with the arguments as libevent receives them. */
  datatype Call =
    | BaseLoop(flags: Word)
    | BaseLoopExit(tv: Timeval)
    | BaseLoopBreak
    | BaseLoopContinue
    | BaseGotExit
    | BaseGotBreak
    | EventNew(ev: EventId, fd: i32, events: ShortWord, callback: CallbackFn, ctx: Ctx)
    | EventAssign(ev: EventId, fd: i32, events: ShortWord, callback: CallbackFn, ctx: Ctx)
    | EventAdd(ev: EventId, timeout: Option<Timeval>)

  /**
   * What the calls so far ask libevent to hold for one event: how it was
   * set up by its last `event_new` or `event_assign`, and `added` once an
   * `event_add` followed, with the timeout it was given (`None`: none).
   */
  datatype Registration = Registration(
    fd: i32, events: ShortWord, callback: CallbackFn, ctx: Ctx, added: Option<Option<Timeval>>)

  /** The effect of one call on the registrations. */
  ghost function Step(regs: map<EventId, Registration>, call: Call): map<EventId, Registration>
  {
    match call
    case EventNew(ev, fd, events, callback, ctx) => regs[ev := Registration(fd, events, callback, ctx, None)]
    case EventAssign(ev, fd, events, callback, ctx) => regs[ev := Registration(fd, events, callback, ctx, None)]
    case EventAdd(ev, timeout) => if ev in regs then regs[ev := regs[ev].(added := Some(timeout))] else regs
    case _ => regs
  }

  /** The registrations a log of calls leaves behind, replaying it oldest first. */
  ghost function Registrations(log: seq<Call>): map<EventId, Registration>
  {
    if log == [] then map[] else Step(Registrations(log[..|log| - 1]), log[|log| - 1])
  }

  /** Appending a call to the log applies its `Step` to the registrations so far. */
  lemma RegistrationsAppend(log: seq<Call>, call: Call)
    ensures Registrations(log + [call]) == Step(Registrations(log), call)
  {
  }

  /** The calls that steer or query the loop rather than set up events. */
  predicate IsLoopControl(call: Call)
  {
    call.BaseLoop? || call.BaseLoopExit? || call.BaseLoopBreak? || call.BaseLoopContinue? ||
    call.BaseGotExit? || call.BaseGotBreak?
  }

  /** The calls that set an event up: `event_new` and `event_assign`. */
  predicate SetsUp(call: Call)
  {
    call.EventNew? || call.EventAssign?
  }

  /**
   * Only events some call has set up have registrations: when every
   * `event_new` and `event_assign` in the log names an identity below `n`,
   * so does every registration.
   */
  lemma {:induction false} RegisteredBelow(log: seq<Call>, n: nat)
    requires forall k :: 0 <= k < |log| && SetsUp(log[k]) ==> log[k].ev < n
    ensures forall ev :: ev in Registrations(log) ==> ev < n
  {
    if log != [] {
      var front := log[..|log| - 1];
      assert forall k :: 0 <= k < |front| ==> front[k] == log[k];
      RegisteredBelow(front, n);
    }
  }

  /** However many loop-control calls are made, no event is set up, changed or armed. */
  lemma {:induction false} LoopControlKeepsRegistrations(log: seq<Call>, calls: seq<Call>)
    requires forall i :: 0 <= i < |calls| ==> IsLoopControl(calls[i])
    ensures Registrations(log + calls) == Registrations(log)
    decreases |calls|
  {
    if calls != [] {
      var front := calls[..|calls| - 1];
      assert log + calls == (log + front) + [calls[|calls| - 1]];
      LoopControlKeepsRegistrations(log, front);
      RegistrationsAppend(log + front, calls[|calls| - 1]);
    } else {
      assert log + calls == log;
    }
  }

  /** One loop-control call leaves every registration as it was. */
  lemma LoopControlCallKeepsRegistrations(log: seq<Call>, call: Call)
    requires IsLoopControl(call)
    ensures Registrations(log + [call]) == Registrations(log)
  {
  }

  /** A libevent `event_base`. */
  class EventBase {
    /** The `EV_*` and `EVLOOP_*` values of the linked build. */
    const sys: SysConstants
    /** Every call made into this base, oldest first. */
    ghost var log: seq<Call>
    /** What `event_base_got_exit` reports. */
    var gotExit: bool
    /** What `event_base_got_break` reports. */
    var gotBreak: bool
    /** The identity the next `event_new` hands out. */
    var nextEvent: EventId

    /** What the calls so far ask this base to hold, per event. */
    ghost function Registered(): map<EventId, Registration>
      reads this`log
    {
      Registrations(log)
    }

    /** Every event set up so far, by `event_new` or `event_assign`, has an identity below `nextEvent`. */
    ghost predicate Valid()
      reads this
    {
      forall k :: 0 <= k < |log| && SetsUp(log[k]) ==> log[k].ev < nextEvent
    }

    constructor (sys: SysConstants)
      ensures this.sys == sys && Valid()
      ensures log == [] && !gotExit && !gotBreak && nextEvent == 0
    {
      this.sys := sys;
      log := [];
      gotExit, gotBreak := false, false;
      nextEvent := 0;
    }

    /** `event_base_loop`: runs the loop; `outcome` is how it ended. */
    method Loop(flags: Word, outcome: LoopOutcome) returns (code: i32)
      requires Valid()
      modifies this`log, this`gotExit, this`gotBreak
      ensures Valid()
      ensures code == outcome.exitCode
      ensures gotExit == outcome.gotExit && gotBreak == outcome.gotBreak
      ensures log == old(log) + [BaseLoop(flags)]
      ensures Registered() == old(Registered())
    {
      gotExit, gotBreak := outcome.gotExit, outcome.gotBreak;
      code := outcome.exitCode;
      LoopControlCallKeepsRegistrations(log, BaseLoop(flags));
      log := log + [BaseLoop(flags)];
    }

    /** `event_base_got_exit`: non-zero exactly when the last loop ended on a scheduled exit. */
    method GotExit() returns (r: i32)
      requires Valid()
      modifies this`log
      ensures Valid()
      ensures r != 0 <==> gotExit
      ensures log == old(log) + [BaseGotExit]
      ensures Registered() == old(Registered())
    {
      r := if gotExit then 1 else 0;
      LoopControlCallKeepsRegistrations(log, BaseGotExit);
      log := log + [BaseGotExit];
    }

    /** `event_base_got_break`: non-zero exactly when the last loop ended on a break request. */
    method GotBreak() returns (r: i32)
      requires Valid()
      modifies this`log
      ensures Valid()
      ensures r != 0 <==> gotBreak
      ensures log == old(log) + [BaseGotBreak]
      ensures Registered() == old(Registered())
    {
      r := if gotBreak then 1 else 0;
      LoopControlCallKeepsRegistrations(log, BaseGotBreak);
      log := log + [BaseGotBreak];
    }

    /** `event_base_loopexit`; `status` is what libevent reports. */
    method LoopExit(tv: Timeval, status: i32) returns (r: i32)
      requires Valid()
      modifies this`log
      ensures Valid() && r == status
      ensures log == old(log) + [BaseLoopExit(tv)]
      ensures Registered() == old(Registered())
    {
      LoopControlCallKeepsRegistrations(log, BaseLoopExit(tv));
      log := log + [BaseLoopExit(tv)];
      r := status;
    }

    /** `event_base_loopbreak`; `status` is what libevent reports. */
    method LoopBreak(status: i32) returns (r: i32)
      requires Valid()
      modifies this`log
      ensures Valid() && r == status
      ensures log == old(log) + [BaseLoopBreak]
      ensures Registered() == old(Registered())
    {
      LoopControlCallKeepsRegistrations(log, BaseLoopBreak);
      log := log + [BaseLoopBreak];
      r := status;
    }

    /** `event_base_loopcontinue`; `status` is what libevent reports. */
    method LoopContinue(status: i32) returns (r: i32)
      requires Valid()
      modifies this`log
      ensures Valid() && r == status
      ensures log == old(log) + [BaseLoopContinue]
      ensures Registered() == old(Registered())
    {
      LoopControlCallKeepsRegistrations(log, BaseLoopContinue);
      log := log + [BaseLoopContinue];
      r := status;
    }

    /**
     * `event_new`: allocates an event whose identity no event set up so far
     * has, whether by `event_new` or by `event_assign`.
     */
    method NewEvent(fd: i32, events: ShortWord, callback: CallbackFn, ctx: Ctx) returns (ev: EventId)
      requires Valid()
      modifies this`log, this`nextEvent
      ensures Valid()
      ensures ev == old(nextEvent) && nextEvent == ev + 1
      ensures forall k :: 0 <= k < |old(log)| && SetsUp(old(log)[k]) ==> old(log)[k].ev != ev
      ensures ev !in old(Registered())
      ensures log == old(log) + [EventNew(ev, fd, events, callback, ctx)]
      ensures Registered() == old(Registered())[ev := Registration(fd, events, callback, ctx, None)]
    {
      RegisteredBelow(log, nextEvent);
      RegistrationsAppend(log, EventNew(nextEvent, fd, events, callback, ctx));
      ev := nextEvent;
      ghost var log0 := log;
      log := log + [EventNew(ev, fd, events, callback, ctx)];
      assert forall k :: 0 <= k < |log| ==> log[k] == if k < |log0| then log0[k] else EventNew(ev, fd, events, callback, ctx);
      nextEvent := nextEvent + 1;
    }

    /**
     * `event_assign`: re-initialises an event in place; `status` is what
     * libevent reports. Its identity is caller-owned storage, which `event_new`
     * never hands out while it is in use, so `nextEvent` moves above it.
     */
    method AssignEvent(ev: EventId, fd: i32, events: ShortWord, callback: CallbackFn, ctx: Ctx, status: i32)
      returns (r: i32)
      requires Valid()
      modifies this`log, this`nextEvent
      ensures Valid() && r == status
      ensures nextEvent == if ev < old(nextEvent) then old(nextEvent) else ev + 1
      ensures log == old(log) + [EventAssign(ev, fd, events, callback, ctx)]
      ensures Registered() == old(Registered())[ev := Registration(fd, events, callback, ctx, None)]
    {
      RegistrationsAppend(log, EventAssign(ev, fd, events, callback, ctx));
      ghost var log0 := log;
      log := log + [EventAssign(ev, fd, events, callback, ctx)];
      assert forall k :: 0 <= k < |log| ==> log[k] == if k < |log0| then log0[k] else EventAssign(ev, fd, events, callback, ctx);
      if nextEvent <= ev {
        nextEvent := ev + 1;
      }
      r := status;
    }

    /** `event_add`: arms an event, with no timeout for `None`; `status` is what libevent reports. */
    method AddEvent(ev: EventId, timeout: Option<Timeval>, status: i32) returns (r: i32)
      requires Valid()
      modifies this`log
      ensures Valid() && r == status
      ensures log == old(log) + [EventAdd(ev, timeout)]
      ensures Registered() == if ev in old(Registered())
                              then old(Registered())[ev := old(Registered())[ev].(added := Some(timeout))]
                              else old(Registered())
    {
      RegistrationsAppend(log, EventAdd(ev, timeout));
      log := log + [EventAdd(ev, timeout)];
      r := status;
    }
  }
}
