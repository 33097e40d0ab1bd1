/**
 * `Base`, the crate's wrapper around a libevent `event_base`: the
 * classification of why the loop stopped, the conversion of optional
 * descriptors and contexts into what libevent expects, and the calls that
 * forward to libevent.
 */
module Reactor {
  import opened Wrappers
  import opened Ints
  import opened Flags
  import opened Time
  import opened LibeventSys

  /** Why one run of the event loop stopped. */
  datatype ExitReason =
    | GotExit
    | GotBreak
    | Error
    | NoPendingEvents
    | Unknown(flags: LoopFlags, exitCode: i32)

  /** The `event_base_loop` exit code each reason stands for. */
  function ExitCodeOf(r: ExitReason): i32
  {
    match r
    case GotExit | GotBreak => 0
    case Error => -1
    case NoPendingEvents => 1
    case Unknown(_, code) => code
  }

  /**
   * The decision `loop_` takes once `event_base_loop` has returned: the
   * exit code first, then, for code 0 only, "got exit" before "got break".
   * Each reason is reached from exactly the inputs listed; an unrecognised
   * combination keeps the caller's flags and the code, so no exit code is
   * lost or mistaken for another.
   */
  function ClassifyExit(flags: LoopFlags, exitCode: i32, gotExit: bool, gotBreak: bool): (r: ExitReason)
    ensures r == GotExit <==> exitCode == 0 && gotExit
    ensures r == GotBreak <==> exitCode == 0 && !gotExit && gotBreak
    ensures r == Error <==> exitCode == -1
    ensures r == NoPendingEvents <==> exitCode == 1
    ensures r.Unknown? <==> exitCode !in {-1, 0, 1} || (exitCode == 0 && !gotExit && !gotBreak)
    ensures r.Unknown? ==> r.flags == flags
    ensures ExitCodeOf(r) == exitCode
  {
    match exitCode
    case 0 =>
      if gotExit then GotExit
      else if gotBreak then GotBreak
      else Unknown(flags, exitCode)
    case -1 => Error
    case 1 => NoPendingEvents
    case _ => Unknown(flags, exitCode)
  }

  /**
   * The calls `loop_` makes for one run of the loop that ends with
   * `outcome`: the loop itself; then, for exit code 0 only, "got exit"; then,
   * only when that answer is clear, "got break".
   */
  ghost function LoopCalls(flags: Word, outcome: LoopOutcome): seq<Call>
  {
    [BaseLoop(flags)] +
    if outcome.exitCode != 0 then []
    else if outcome.gotExit then [BaseGotExit]
    else [BaseGotExit, BaseGotBreak]
  }

  /** libevent's descriptor for "no descriptor": the event is a pure timer. */
  const TimerFd: i32 := -1

  /**
   * The descriptor handed to `event_new` and `event_assign`: a given
   * descriptor as it is, none as the timer sentinel. An explicit `Some(-1)`
   * is indistinguishable from `None` to libevent.
   */
  function RawFd(fd: Option<i32>): (raw: i32)
    ensures fd.Some? ==> raw == fd.value
    ensures fd.None? ==> raw == TimerFd
    ensures raw == TimerFd <==> fd == None || fd == Some(TimerFd)
  {
    if fd.Some? then fd.value else TimerFd
  }

  /**
   * The context handed to `event_new` and `event_assign`: a given context as
   * it is, none as the null pointer. An explicit null is indistinguishable
   * from `None` to libevent.
   */
  function RawCtx(ctx: Option<Ctx>): (raw: Ctx)
    ensures ctx.Some? ==> raw == ctx.value
    ensures ctx.None? ==> raw == Null
    ensures raw == Null <==> ctx == None || ctx == Some(Null)
  {
    if ctx.Some? then ctx.value else Null
  }

  /**
   * The timeout `event_add` receives: the converted duration, or a null
   * pointer for none. A given timeout reaches libevent as a normal `timeval`
   * exactly when its seconds fit `time_t`, and then as the duration cut to
   * whole microseconds.
   */
  function TimeoutArg(timeout: Option<Duration>): (tv: Option<Timeval>)
    ensures tv.Some? <==> timeout.Some?
    ensures tv.Some? ==> (NormalTimeval(tv.value) <==> FitsTimeT(timeout.value))
    ensures tv.Some? && FitsTimeT(timeout.value) ==>
              TotalNanos(timeout.value) - NanosPerMicro < TotalMicros(tv.value) * NanosPerMicro <= TotalNanos(timeout.value)
  {
    if timeout.Some? then Some(ToTimeval(timeout.value)) else None
  }

  /** The `event` an `EventHandle` refers to. */
  datatype EventHandle = EventHandle(ev: EventId)

  datatype ErrorKind = Other

  /** A `std::io::Error`. */
  datatype IoError = IoError(kind: ErrorKind, message: string)

  /** The error `Base::new` reports when libevent cannot create a base. */
  const CreateFailed: IoError := IoError(Other, "Failed to create libevent base")

  /** A `Base`: owns one non-null `event_base`. */
  class Base {
    const raw: EventBase

    /** `Base::from_raw`: wraps an `event_base` the caller vouches for. */
    constructor FromRaw(raw: EventBase)
      ensures this.raw == raw
    {
      this.raw := raw;
    }

    /**
     * `Base::new`. `created` is what `event_base_new` returned: null when
     * libevent could not create a base.
     */
    static method New(created: EventBase?) returns (r: Result<Base, IoError>)
      requires created != null ==> created.Valid()
      ensures r.Ok? <==> created != null
      ensures r.Ok? ==> fresh(r.value) && r.value.raw == created && r.value.raw.Valid()
      ensures r.Err? ==> r.error == CreateFailed
    {
      if created != null {
        var base := new Base.FromRaw(created);
        r := Ok(base);
      } else {
        r := Err(CreateFailed);
      }
    }

    /**
     * `loop_`: runs `event_base_loop` with the flags' bits, then classifies
     * its exit code, asking libevent for "got exit" and "got break" only
     * when the code is 0.
     */
    method Loop(flags: LoopFlags, outcome: LoopOutcome) returns (reason: ExitReason)
      requires raw.Valid()
      modifies raw`log, raw`gotExit, raw`gotBreak
      ensures raw.Valid()
      ensures reason == ClassifyExit(flags, outcome.exitCode, outcome.gotExit, outcome.gotBreak)
      ensures raw.gotExit == outcome.gotExit && raw.gotBreak == outcome.gotBreak
      ensures raw.log == old(raw.log) + LoopCalls(flags.bits, outcome)
      ensures raw.Registered() == old(raw.Registered())
    {
      var exitCode := raw.Loop(flags.bits, outcome);
      if exitCode == 0 {
        var gotExit := raw.GotExit();
        if gotExit != 0 {
          reason := GotExit;
        } else {
          var gotBreak := raw.GotBreak();
          if gotBreak != 0 {
            reason := GotBreak;
          } else {
            reason := Unknown(flags, exitCode);
          }
        }
      } else if exitCode == -1 {
        reason := Error;
      } else if exitCode == 1 {
        reason := NoPendingEvents;
      } else {
        reason := Unknown(flags, exitCode);
      }
    }

    /** `loopexit`: asks libevent to stop the loop once `timeout` has passed. */
    method LoopExit(timeout: Duration, status: i32) returns (r: i32)
      requires raw.Valid()
      modifies raw`log
      ensures raw.Valid() && r == status
      ensures raw.log == old(raw.log) + [BaseLoopExit(ToTimeval(timeout))]
      ensures raw.Registered() == old(raw.Registered())
    {
      var tv := ToTimeval(timeout);
      r := raw.LoopExit(tv, status);
    }

    /** `loopbreak`: asks libevent to stop the loop at once. */
    method LoopBreak(status: i32) returns (r: i32)
      requires raw.Valid()
      modifies raw`log
      ensures raw.Valid() && r == status
      ensures raw.log == old(raw.log) + [BaseLoopBreak]
      ensures raw.Registered() == old(raw.Registered())
    {
      r := raw.LoopBreak(status);
    }

    /** `loopcontinue`: asks libevent to resume looking for active events. */
    method LoopContinue(status: i32) returns (r: i32)
      requires raw.Valid()
      modifies raw`log
      ensures raw.Valid() && r == status
      ensures raw.log == old(raw.log) + [BaseLoopContinue]
      ensures raw.Registered() == old(raw.Registered())
    {
      r := raw.LoopContinue(status);
    }

    /**
     * `event_new`: allocates an event for this base; a missing descriptor
     * becomes the timer sentinel, a missing context the null pointer, and the
     * flags go over as their bits cast to a C `short`.
     */
    method NewEvent(fd: Option<i32>, flags: EventFlags, callback: CallbackFn, ctx: Option<Ctx>)
      returns (h: EventHandle)
      requires raw.Valid()
      modifies raw`log, raw`nextEvent
      ensures raw.Valid()
      ensures h.ev == old(raw.nextEvent) && raw.nextEvent == h.ev + 1
      ensures h.ev !in old(raw.Registered())
      ensures raw.log == old(raw.log) + [EventNew(h.ev, RawFd(fd), ToCShort(flags.bits), callback, RawCtx(ctx))]
      ensures raw.Registered() == old(raw.Registered())[h.ev := Registration(RawFd(fd), ToCShort(flags.bits), callback, RawCtx(ctx), None)]
    {
      var rawFd := RawFd(fd);
      var rawCtx := RawCtx(ctx);
      var ev := raw.NewEvent(rawFd, ToCShort(flags.bits), callback, rawCtx);
      h := EventHandle(ev);
    }

    /**
     * `event_assign`: re-initialises the handle's event in place, with the
     * same conversions as `NewEvent`, and returns libevent's status.
     */
    method AssignEvent(h: EventHandle, fd: Option<i32>, flags: EventFlags, callback: CallbackFn,
                       ctx: Option<Ctx>, status: i32)
      returns (r: i32)
      requires raw.Valid()
      modifies raw`log, raw`nextEvent
      ensures raw.Valid() && r == status
      ensures raw.nextEvent == if h.ev < old(raw.nextEvent) then old(raw.nextEvent) else h.ev + 1
      ensures raw.log == old(raw.log) + [EventAssign(h.ev, RawFd(fd), ToCShort(flags.bits), callback, RawCtx(ctx))]
      ensures raw.Registered() == old(raw.Registered())[h.ev := Registration(RawFd(fd), ToCShort(flags.bits), callback, RawCtx(ctx), None)]
    {
      var rawFd := RawFd(fd);
      var rawCtx := RawCtx(ctx);
      r := raw.AssignEvent(h.ev, rawFd, ToCShort(flags.bits), callback, rawCtx, status);
    }

    /**
     * `event_add`: arms the handle's event, with the timeout converted by
     * `to_timeval`, or with a null timeout (none) for `None`.
     */
    method AddEvent(h: EventHandle, timeout: Option<Duration>, status: i32) returns (r: i32)
      requires raw.Valid()
      modifies raw`log
      ensures raw.Valid() && r == status
      ensures raw.log == old(raw.log) + [EventAdd(h.ev, TimeoutArg(timeout))]
      ensures raw.Registered() == if h.ev in old(raw.Registered())
                                  then old(raw.Registered())[h.ev := old(raw.Registered())[h.ev].(added := Some(TimeoutArg(timeout)))]
                                  else old(raw.Registered())
    {
      if timeout.Some? {
        r := raw.AddEvent(h.ev, Some(ToTimeval(timeout.value)), status);
      } else {
        r := raw.AddEvent(h.ev, None, status);
      }
    }
  }
}
