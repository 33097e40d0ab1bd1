# libevent-rs: a Dafny model of the Rust wrapper logic

libevent-rs wraps the libevent C library. The event loop itself, readiness
detection, timers and callback dispatch all happen inside libevent. What the
Rust side adds is a layer of decisions and conversions. This project models
that layer and proves what it promises:

- **`Base::loop_`** (`reactor.dfy`). It classifies the exit code of
  `event_base_loop`, together with libevent's "got exit" and "got break"
  answers, into an `ExitReason`.
  - The exit code is checked first.
  - For code 0 only, "got exit" is checked before "got break".
  - Anything unrecognised becomes `Unknown`, carrying the caller's flags and
    the code.
- **Argument conversion before each libevent call.**
  - `to_timeval` (`time.dfy`) turns a `Duration` into a `timeval`.
  - A missing descriptor becomes the timer sentinel `-1`, and a missing
    context becomes the null pointer (`reactor.dfy`).
  - Event flags are cast to a C `short` (`ints.dfy`).
- **The `Libevent` facade** (`facade.dfy`).
  - The callback trampoline decodes libevent's flags with
    `from_bits_truncate`.
  - The drivers `turn`, `run`, `run_timeout` and `run_until_event` each
    choose a fixed loop mode and always return `true`.
  - `add_interval` registers a persistent timer that calls the trampoline.

The modules follow the crate's files. `Reactor` (`reactor.dfy`) mirrors
`src/base.rs` and its `Base` type. `Facade` (`facade.dfy`) mirrors
`src/lib.rs` and its `Libevent` type. `Flags` holds the two bitflags sets of
`src/base.rs`, and `Time` holds its `to_timeval`.

libevent itself is the class `LibeventSys.EventBase` (`libevent_sys.dfy`).
Its state is what the crate can observe:
- a ghost log of every call made into it, with the arguments as libevent
  receives them, including the `event_base_got_exit` and
  `event_base_got_break` queries;
- the two answers to those queries;
- a bound above every event identity set up so far, by `event_new` or by
  `event_assign`. `event_new` hands that bound out, so it never reuses the
  storage of an event still in use.

A ghost function, `Registrations`, replays the log into the setup each event
has been given. That setup is the descriptor, flags, callback and context of
its last `event_new` or `event_assign`, plus whether it has since been added,
and with which timeout. It states what the calls ask of libevent, not what
libevent does with them.

Whatever libevent decides is an input chosen by the environment, not
something the model computes. That covers the exit code and the two flags a
loop ends with, the status codes of `event_base_loopexit`, `event_add` and
the other calls, and whether `event_base_new` succeeded. Each operation's
postcondition gives the exact sequence of libevent calls it makes.

**Representation choices.**
- Integers of fixed width are newtypes (`i32`, `i64`, `u64`).
- The `as` casts the source relies on are written out: the wrap of
  `u64 as i64` for `tv_sec`, the truncation `u32 as c_short`, and the sign
  extension `c_short as u32`. The exception is `flags.bits() as i32` for
  `event_base_loop` (src/base.rs:80), which reinterprets the same 32 bits;
  the log records the bit pattern.
- A bit pattern is represented by the set of positions of its one bits.
  Bitwise `&` is set intersection.
- The `EV_*` and `EVLOOP_*` values come from the C headers and are not
  written in the source. So they are not fixed here. Each is one bit,
  identified by its position in a `SysConstants` value.
- `SysConstants.Valid()` states that no two flags of the same set share a
  bit.

**Facts about the code that the model keeps:**
- `loop_` asks "got exit" before "got break" (src/base.rs:89-92), so
  `GotExit` wins when both are set.
- All four drivers return `true` unconditionally (src/lib.rs:67-96).
- `as_secs() as _` wraps: a duration of 2^63 seconds or more gives a
  negative `tv_sec`. `ToTimeval` states this wrap, and the lemmas about
  truncation assume `FitsTimeT`.
- Nothing in the crate checks an `event_add` on an event with no descriptor
  and no timeout, or an `event_assign` on an event that is already added.
  Both go to libevent unchecked, and only libevent's status code reports
  anything.
- `src/lib.rs` calls `event_add(&ev, interval)` with a bare `Duration`,
  although `src/base.rs:201` takes an `Option<Duration>`. The type `lib.rs`
  uses comes from a file of `src/event/` that is not part of this model. The
  model reads the call as `Some(interval)`, which is what the arguments mean.
- `lib.rs` also calls `EventBase::new`, which is defined in a file of
  `src/event/` that is not part of this model. The model uses `Base` from `src/base.rs` in its place.

## Model

| member | source | states |
|---|---|---|
| `Time.ToTimeval` | src/base.rs:24-29 | `tv_usec` is the sub-second nanoseconds divided by 1000, so it is in [0, 1_000_000). `tv_sec` has the same 64-bit pattern as the whole seconds. `tv_sec` is non-negative exactly when the seconds fit a signed `time_t`. |
| `Time.TimevalTruncates` | src/base.rs:24-29 | When the seconds fit, the `timeval` is the duration truncated, never rounded up, to whole microseconds: micros·1000 ≤ nanos < micros·1000 + 1000. |
| `Time.ToTimevalMonotone` | src/base.rs:24-29 | When the seconds of both durations fit `time_t`, a longer duration never converts to a shorter `timeval`. |
| `Time.TimevalRoundTrip` | src/base.rs:24-29 | Every normal `timeval` (seconds ≥ 0, microseconds below one million) is what `to_timeval` gives for the duration it stands for. |
| `Time.DurationRoundTrip` | src/base.rs:24-29 | When the seconds fit `time_t`, the `timeval` is normal, and the duration comes back unchanged from it exactly when it has no sub-microsecond part. |
| `Ints.U64ToI64` | src/base.rs:26 | The `as _` cast of `as_secs()` keeps the 64-bit pattern. The result is non-negative exactly when the value is below 2^63. |
| `Reactor.ClassifyExit` | src/base.rs:83-101 | Each reason holds for exactly these inputs, in both directions. `Error` iff the code is -1. `NoPendingEvents` iff the code is 1, whatever the booleans. `GotExit` iff the code is 0 and "got exit" is set, even when "got break" is also set. `GotBreak` iff the code is 0, "got exit" is clear and "got break" is set. `Unknown` iff the code is outside {-1, 0, 1}, or it is 0 with neither boolean set. `Unknown` carries the caller's flags, and every reason gives back the exit code it came from. |
| `Reactor.Base.Loop` | src/base.rs:78-102 | Makes one `event_base_loop` call with the flags' bits. It then asks "got exit" only when the exit code is 0, and "got break" only when that answer is also clear; those are the only calls. The reason returned is `ClassifyExit` of libevent's exit code and its got-exit and got-break answers. Afterwards the base's got-exit and got-break answers are those of this run. No event is allocated, set up or armed. |
| `Reactor.RawFd` | src/base.rs:136-142 | `Some(fd)` passes through unchanged and `None` becomes `-1`. The result is `-1` exactly for `None` or `Some(-1)`. |
| `Reactor.RawCtx` | src/base.rs:144-148 | `Some(ctx)` passes through unchanged and `None` becomes null. The result is null exactly for `None` or `Some(null)`. |
| `Reactor.Base.New` | src/base.rs:40-51 | Succeeds exactly when `event_base_new` returned a non-null base, and wraps that base, which stays valid. Otherwise it fails with the "Failed to create libevent base" error of kind `Other`. |
| `Reactor.Base.FromRaw` | src/base.rs:61-63 | Wraps the given `event_base` as is. |
| `Reactor.Base.LoopExit` | src/base.rs:107-113 | Makes one `event_base_loopexit` call with `to_timeval(timeout)`. Returns libevent's status. Every event's setup stays as it was. |
| `Reactor.Base.LoopBreak` | src/base.rs:117-119 | Makes one `event_base_loopbreak` call. Returns libevent's status. Every event's setup stays as it was. |
| `Reactor.Base.LoopContinue` | src/base.rs:123-125 | Makes one `event_base_loopcontinue` call. Returns libevent's status. Every event's setup stays as it was. |
| `Reactor.Base.NewEvent` | src/base.rs:129-161 | Makes one `event_new` call and returns a handle to the newly allocated event, one that no event set up so far has. The call gets the converted descriptor, the flags' bits as a C `short`, the callback, and the converted context. That event is set up with exactly these and is not yet added. No other event changes. |
| `Reactor.Base.AssignEvent` | src/base.rs:165-197 | Makes one `event_assign` call on the handle's event, with the same conversions as `NewEvent`. That event is set up afresh and is no longer marked added. No other event changes, and later `event_new` calls will not hand out this event's identity. Returns libevent's status. |
| `Reactor.TimeoutArg` | src/base.rs:204-209 | `event_add` gets a timeout exactly when one was given. A given timeout arrives as a normal `timeval` (seconds ≥ 0, microseconds below one million) exactly when its seconds fit `time_t`. It then stands for the duration cut to whole microseconds, less than one microsecond short. |
| `Reactor.Base.AddEvent` | src/base.rs:201-211 | Makes one `event_add` call on the handle's event, with the converted timeout. That event, if set up, is marked added with that timeout. Nothing else changes. Returns libevent's status. |
| `LibeventSys.EventBase.constructor` | src/base.rs:41 | A base fresh from `event_base_new` has received no calls, has neither flag set, and has allocated no event. |
| `LibeventSys.EventBase.Loop` | src/base.rs:80 | `event_base_loop` is logged with its flags and returns the environment's exit code. The got-exit and got-break answers become the environment's. |
| `LibeventSys.EventBase.GotExit` | src/base.rs:89 | `event_base_got_exit` is logged, and is non-zero exactly when the last loop ended on a scheduled exit. |
| `LibeventSys.EventBase.GotBreak` | src/base.rs:91 | `event_base_got_break` is logged, and is non-zero exactly when the last loop ended on a break. |
| `LibeventSys.EventBase.LoopExit` | src/base.rs:111 | `event_base_loopexit` is logged with its `timeval`. |
| `LibeventSys.EventBase.LoopBreak` | src/base.rs:118 | `event_base_loopbreak` is logged. |
| `LibeventSys.EventBase.LoopContinue` | src/base.rs:124 | `event_base_loopcontinue` is logged. |
| `LibeventSys.EventBase.NewEvent` | src/base.rs:151-157 | `event_new` hands out an identity that no earlier `event_new` or `event_assign` used and that no event set up so far has. It is logged with its arguments. |
| `LibeventSys.RegisteredBelow` | src/base.rs:151-157 | Only events some `event_new` or `event_assign` set up have a setup: a bound on the identities those calls used bounds every registered event. |
| `LibeventSys.LoopControlKeepsRegistrations` | src/lib.rs:67-96 | Any number of loop, loop-exit, loop-break, loop-continue, got-exit and got-break calls leave every event's setup exactly as it was. |
| `LibeventSys.EventBase.AssignEvent` | src/base.rs:188-195 | `event_assign` is logged with its arguments. The bound for new identities moves above the assigned event. |
| `LibeventSys.EventBase.AddEvent` | src/base.rs:204-209 | `event_add` is logged with its event and optional timeout. |
| `Ints.ToCShort` | src/base.rs:154 | `bits() as c_short` keeps every bit of the low half, and the dropped upper half restores the original. |
| `Ints.SignExtend` | src/lib.rs:24 | `event as u32` keeps the short's 16 bits. Every bit of the upper half is a copy of the short's sign bit. |
| `Ints.ShortRoundTrip` | src/base.rs:154 | A word cast to a C `short` and widened back agrees with the original on every bit below 16. |
| `Flags.AllEventsCount` | src/base.rs:239-248 | With distinct constants, `EventFlags::all()` holds eight different flags, one per declared constant. |
| `Flags.Persist` | src/base.rs:244 | `EventFlags::PERSIST` is a single known event flag. |
| `Flags.Once` | src/base.rs:229 | `LoopFlags::ONCE` is a single known loop flag. |
| `Flags.NonBlock` | src/base.rs:230 | `LoopFlags::NONBLOCK` is a single known loop flag. |
| `Flags.NoLoopFlags` | src/lib.rs:77 | `LoopFlags::empty()` holds no flag. |
| `Flags.FromBitsTruncate` | src/lib.rs:24 | The decoded flags hold no unknown bit. Each known bit is present exactly when the incoming word has it. |
| `Flags.TruncateIdempotent` | src/lib.rs:24 | Truncating an already truncated value gives the same value. |
| `Flags.ShortCastKeepsEventFlags` | src/lib.rs:24 | Assume the known event bits fit in a C `short`. Then flags sent as `bits() as c_short` and read back through `as u32` and `from_bits_truncate` decode to the known flags that were sent. |
| `Flags.LoopModesDistinct` | src/base.rs:228-232 | With distinct constants, `NONBLOCK`, `ONCE` and the empty set are three different loop modes. |
| `Facade.HandleWrappedCallback` | src/lib.rs:17-26 | The trampoline calls the closure boxed in the context. The flags it passes hold only known bits. A known bit below 16 is present exactly when the incoming short has it; a known bit above is present exactly when the short's sign bit is set. |
| `Facade.TrampolineSeesRegisteredFlags` | src/lib.rs:24 | Assume the known bits fit a `short`. Then, when libevent reports back the flags an event was registered with, the trampoline calls the boxed closure with exactly those flags. |
| `Facade.Libevent.constructor` | src/lib.rs:35 | Wraps the given base. |
| `Facade.Libevent.New` | src/lib.rs:33-36 | Succeeds exactly when `Base::new` succeeds, with a valid facade ready for the drivers, and otherwise returns its error unchanged. |
| `Facade.Libevent.Turn` | src/lib.rs:67-71 | Makes exactly one loop call, with exactly `NONBLOCK`, followed only by the queries `loop_` makes. Returns `true` whatever the loop reports. Registers and arms nothing. |
| `Facade.Libevent.RunTimeout` | src/lib.rs:75-80 | Schedules the exit with `to_timeval(timeout)` strictly before one loop call with no flags. Those, and the queries `loop_` makes, are the only calls. Returns `true` whatever either call reports. Registers and arms nothing. |
| `Facade.Libevent.RunUntilEvent` | src/lib.rs:84-88 | Makes exactly one loop call, with exactly `ONCE`, followed only by the queries `loop_` makes. Returns `true` whatever the loop reports. Registers and arms nothing. |
| `Facade.Libevent.Run` | src/lib.rs:92-96 | Makes exactly one loop call, with no flags, followed only by the queries `loop_` makes. Returns `true` whatever the loop reports. Registers and arms nothing. |
| `Facade.Libevent.AddInterval` | src/lib.rs:98-115 | Makes `event_new` then `event_add`, and nothing else. `event_new` gets the timer descriptor `-1`, exactly `PERSIST`, the trampoline, and the boxed closure as context. `event_add` adds that same new event with `to_timeval(interval)` as its timeout. Always returns `Ok` with that event's handle, whatever `event_add` reports. Afterwards, the new event, which no earlier event shares, is a persistent pure timer: it calls the trampoline with the box and is added with the interval. Every other event is unchanged, and the loop's got-exit and got-break answers stay as they were. |

## Left out

- Everything libevent does inside its calls: the dispatch loop, readiness
  detection, timer expiry, and invoking callbacks. The model sees only the
  results libevent returns, which are parameters of the methods.
- Raw pointers, `NonNull`, `unsafe`, and the `transmute` of the boxed
  closure into the context pointer. The box is a `Ctx.Boxed` value. The
  model does not track its ownership, or the fact that the box is never
  freed.
- What a user closure does when it is called. The trampoline's result says
  which closure is called, with which flags.
- `as_raw`, `with_base`, `base` and `base_mut`. They only hand out the raw
  handle and have no behaviour of their own.
- `unsafe impl Send for Base`, and the mutex inside `EventHandle`. These are
  about concurrency.
- `EventHandle` itself is defined in a file of `src/event/` that is not part
  of this model. Two consequences:
  - A handle is modelled as the identity of its event.
  - The panic of `inner.lock().unwrap().inner.unwrap()` on a handle without
    an event is not modelled.
- LibeventSys.EventBase.NewEvent: does not model `event_new` returning
  null. Every call yields a new event.
- `src/event/mod.rs` only re-exports modules and declares an empty trait.
- The numeric values of the `EV_*` and `EVLOOP_*` constants, and their
  widths. They are not written in the source.
- Reactor.Base.Loop: the `flags.bits() as i32` cast is a bit-for-bit
  reinterpretation, so the log records the flags' bit pattern rather than a
  signed integer.
- Time.ToTimeval: takes `time_t` and `suseconds_t` to be 64-bit, as on
  64-bit Linux. On a platform with a 32-bit `time_t` the wrap happens at
  2^31 seconds instead.
- Wall-clock behaviour, such as when a timer fires or how long a loop
  blocks. It depends on the operating system and libevent.
