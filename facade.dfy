/**
 * `Libevent`, the convenience facade: the callback trampoline that turns
 * libevent's raw callback back into a call of the user's closure, and the
 * one-line loop drivers and interval timer built on `Base`.
 */
module Facade {
  import opened Wrappers
  import opened Ints
  import opened Flags
  import opened Time
  import opened LibeventSys
  import opened Reactor

  /** What the trampoline does: call this closure with these flags. */
  datatype Invocation = Invocation(closure: Closure, flags: EventFlags)

  /**
   * `handle_wrapped_callback`: libevent calls it with the descriptor, the
   * fired conditions as a C `short` and the context. The context must be a
   * boxed closure (the trampoline is only ever registered with one); the
   * flags reach the closure widened to `u32` by sign extension and then
   * truncated to the known event bits.
   */
  function HandleWrappedCallback(sys: SysConstants, fd: i32, event: ShortWord, ctx: Ctx): (inv: Invocation)
    requires ctx.Boxed?
    ensures inv.closure == ctx.wrapped
    ensures inv.flags.bits <= AllEvents(sys)
    ensures forall k :: k in AllEvents(sys) && k < 16 ==> (k in inv.flags.bits <==> k in event)
    ensures forall k :: k in AllEvents(sys) && k >= 16 ==> (k in inv.flags.bits <==> SignBit in event)
  {
    var flags := FromBitsTruncate(sys, SignExtend(event));
    Invocation(ctx.wrapped, flags)
  }

  /**
   * An event registered through the trampoline, with flags that fit a C
   * `short`, hands the closure exactly the known flags libevent reports for
   * it: what was registered comes back unchanged.
   */
  lemma TrampolineSeesRegisteredFlags(sys: SysConstants, fd: i32, f: EventFlags, cb: Closure)
    requires forall k :: k in AllEvents(sys) ==> k < 16
    requires f.bits <= AllEvents(sys)
    ensures HandleWrappedCallback(sys, fd, ToCShort(f.bits), Boxed(cb)) == Invocation(cb, f)
  {
  }

  /** The facade: owns one `Base`. */
  class Libevent {
    const base: Base

    constructor (base: Base)
      ensures this.base == base
    {
      this.base := base;
    }

    /** `Libevent::new`: succeeds exactly when `Base::new` does, with its error otherwise. */
    static method New(created: EventBase?) returns (r: Result<Libevent, IoError>)
      requires created != null ==> created.Valid()
      ensures r.Ok? <==> created != null
      ensures r.Ok? ==> fresh(r.value) && fresh(r.value.base) && r.value.base.raw == created && r.value.Valid()
      ensures r.Err? ==> r.error == CreateFailed
    {
      var b := Base.New(created);
      match b
      case Ok(base) =>
        var ev := new Libevent(base);
        r := Ok(ev);
      case Err(e) =>
        r := Err(e);
    }

    ghost predicate Valid()
      reads this, base, base.raw
    {
      base.raw.Valid()
    }

    /** `turn`: one non-blocking pass of the loop; always reports `true`. */
    method Turn(outcome: LoopOutcome) returns (ok: bool)
      requires Valid()
      modifies base.raw`log, base.raw`gotExit, base.raw`gotBreak
      ensures Valid() && ok
      ensures base.raw.gotExit == outcome.gotExit && base.raw.gotBreak == outcome.gotBreak
      ensures base.raw.log == old(base.raw.log) + LoopCalls(NonBlock(base.raw.sys).bits, outcome)
      ensures base.raw.Registered() == old(base.raw.Registered()) && base.raw.nextEvent == old(base.raw.nextEvent)
    {
      var _ := base.Loop(NonBlock(base.raw.sys), outcome);
      ok := true;
    }

    /**
     * `run_timeout`: schedules the loop's exit after `timeout`, then runs the
     * loop with no flags; always reports `true`, whatever libevent reports.
     */
    method RunTimeout(timeout: Duration, exitStatus: i32, outcome: LoopOutcome) returns (ok: bool)
      requires Valid()
      modifies base.raw`log, base.raw`gotExit, base.raw`gotBreak
      ensures Valid() && ok
      ensures base.raw.gotExit == outcome.gotExit && base.raw.gotBreak == outcome.gotBreak
      ensures base.raw.log == old(base.raw.log) + [BaseLoopExit(ToTimeval(timeout))] + LoopCalls(NoLoopFlags().bits, outcome)
      ensures base.raw.Registered() == old(base.raw.Registered()) && base.raw.nextEvent == old(base.raw.nextEvent)
    {
      var _ := base.LoopExit(timeout, exitStatus);
      var _ := base.Loop(NoLoopFlags(), outcome);
      ok := true;
    }

    /** `run_until_event`: runs the loop until an event is handled; always reports `true`. */
    method RunUntilEvent(outcome: LoopOutcome) returns (ok: bool)
      requires Valid()
      modifies base.raw`log, base.raw`gotExit, base.raw`gotBreak
      ensures Valid() && ok
      ensures base.raw.gotExit == outcome.gotExit && base.raw.gotBreak == outcome.gotBreak
      ensures base.raw.log == old(base.raw.log) + LoopCalls(Once(base.raw.sys).bits, outcome)
      ensures base.raw.Registered() == old(base.raw.Registered()) && base.raw.nextEvent == old(base.raw.nextEvent)
    {
      var _ := base.Loop(Once(base.raw.sys), outcome);
      ok := true;
    }

    /** `run`: runs the loop with no flags until it stops; always reports `true`. */
    method Run(outcome: LoopOutcome) returns (ok: bool)
      requires Valid()
      modifies base.raw`log, base.raw`gotExit, base.raw`gotBreak
      ensures Valid() && ok
      ensures base.raw.gotExit == outcome.gotExit && base.raw.gotBreak == outcome.gotBreak
      ensures base.raw.log == old(base.raw.log) + LoopCalls(NoLoopFlags().bits, outcome)
      ensures base.raw.Registered() == old(base.raw.Registered()) && base.raw.nextEvent == old(base.raw.nextEvent)
    {
      var _ := base.Loop(NoLoopFlags(), outcome);
      ok := true;
    }

    /**
     * `add_interval`: boxes the closure, registers a persistent timer event
     * (no descriptor) whose callback is the trampoline and whose context is
     * the box, then adds that same event with `interval` as its timeout.
     * The status of the add is ignored: the result is always `Ok`.
     */
    method AddInterval(interval: Duration, cb: Closure, addStatus: i32) returns (r: Result<EventHandle, IoError>)
      requires Valid()
      modifies base.raw`log, base.raw`nextEvent
      ensures Valid() && r.Ok?
      ensures r.value.ev == old(base.raw.nextEvent) && base.raw.nextEvent == r.value.ev + 1
      ensures r.value.ev !in old(base.raw.Registered())
      ensures base.raw.log == old(base.raw.log) + [
                EventNew(r.value.ev, TimerFd, ToCShort(Persist(base.raw.sys).bits), WrappedCallback, Boxed(cb)),
                EventAdd(r.value.ev, Some(ToTimeval(interval)))]
      ensures base.raw.Registered() == old(base.raw.Registered())[r.value.ev :=
                Registration(TimerFd, ToCShort(Persist(base.raw.sys).bits), WrappedCallback, Boxed(cb),
                             Some(Some(ToTimeval(interval))))]
    {
      var ev := base.NewEvent(None, Persist(base.raw.sys), WrappedCallback, Some(Boxed(cb)));
      var _ := base.AddEvent(ev, Some(interval), addStatus);
      r := Ok(ev);
    }
  }
}
