/** The graceful-shutdown coordinator: a process-wide singleton holding a
    counter of in-flight jobs, the caller's cancellation context, its cancel
    function and a logger, with the drain loop that waits for the counter to
    reach zero once the context is cancelled. */
module Shutdown {
  import opened Int64Arith

  datatype Option<T> = None | Some(value: T)

  /** Identity of a collaborator the caller supplies: a context, its cancel
      function or a logger. A missing (nil) collaborator is None. */
  type Handle = nat

  /** The errors the coordinator returns. */
  datatype Error = CtxRequired | CancelRequired | LoggerRequired | NotInitialized

  /** The text each error carries. */
  function Message(e: Error): string
  {
    match e
    case CtxRequired => "ctx required"
    case CancelRequired => "cancel required"
    case LoggerRequired => "logger required"
    case NotInitialized => "please call shudown.Init(ctx, cancel) firstly"
  }

  /** Every error carries its own text, so a caller can tell them apart by message. */
  lemma MessagesDistinct(e1: Error, e2: Error)
    ensures Message(e1) == Message(e2) <==> e1 == e2
  {
  }

  /** The warnings the drain loop sends to the installed logger. */
  datatype Warning =
    | Waiting(remaining: int)   // a progress line carrying the observed job count
    | Graceful                  // the final ">>>>  graceful shutdown  <<<<" notice

  /** The argument checks of Init, in their order: ctx, then cancel, then logger. */
  function Validate(ctx: Option<Handle>, cancel: Option<Handle>, logger: Option<Handle>): (r: Option<Error>)
    ensures r == None <==> ctx.Some? && cancel.Some? && logger.Some?
    ensures r == Some(CtxRequired) <==> ctx.None?
    ensures r == Some(CancelRequired) <==> ctx.Some? && cancel.None?
    ensures r == Some(LoggerRequired) <==> ctx.Some? && cancel.Some? && logger.None?
    ensures r != Some(NotInitialized)
  {
    if ctx.None? then Some(CtxRequired)
    else if cancel.None? then Some(CancelRequired)
    else if logger.None? then Some(LoggerRequired)
    else None
  }

  /** Some observed count lets the drain loop exit. */
  ghost predicate Drains(observed: seq<int>)
  {
    exists i :: 0 <= i < |observed| && observed[i] <= 0
  }

  /** The poll at which the drain loop exits: the first observed count that is
      zero or negative. */
  function FirstDrained(observed: seq<int>): (k: nat)
    requires Drains(observed)
    ensures k < |observed| && observed[k] <= 0
    ensures forall j :: 0 <= j < k ==> observed[j] > 0
    decreases |observed|
  {
    if observed[0] <= 0 then 0
    else
      var i :| 0 <= i < |observed| && observed[i] <= 0;
      assert 0 <= i - 1 < |observed[1..]| && observed[1..][i - 1] <= 0;
      1 + FirstDrained(observed[1..])
  }

  /** One progress warning per observation, in order. */
  function Progress(counts: seq<int>): (ws: seq<Warning>)
    ensures |ws| == |counts|
    ensures forall j :: 0 <= j < |counts| ==> ws[j] == Waiting(counts[j])
  {
    seq(|counts|, j requires 0 <= j < |counts| => Waiting(counts[j]))
  }

  /** What the drain loop logs: a progress warning for every observed count
      before the first one that is zero or negative, then the final notice. */
  function DrainLog(observed: seq<int>): (ws: seq<Warning>)
    requires Drains(observed)
    ensures |ws| == FirstDrained(observed) + 1
    ensures forall j :: 0 <= j < |ws| - 1 ==> ws[j] == Waiting(observed[j]) && observed[j] > 0
    ensures ws[|ws| - 1] == Graceful
  {
    Progress(observed[..FirstDrained(observed)]) + [Graceful]
  }

  /** The drain cannot finish early. The counter stood at k >= 0 when the
      drain began, and by poll i some number done[i] <= k of DoneJob calls
      have completed (any number, none included). Then the loop exits at the
      first poll by which all k jobs are done, and never before. */
  lemma DrainWaitsForEveryJob(k: Int64, done: seq<nat>, observed: seq<int>)
    requires |done| == |observed|
    requires forall i :: 0 <= i < |done| ==> done[i] <= k && observed[i] == AfterDones(k, done[i])
    requires exists i :: 0 <= i < |done| && done[i] == k
    ensures Drains(observed)
    ensures done[FirstDrained(observed)] == k
    ensures forall j :: 0 <= j < FirstDrained(observed) ==> done[j] < k
  {
    forall i | 0 <= i < |done|
      ensures observed[i] == k - done[i]
    {
      AfterDonesExact(k, done[i]);
    }
  }

  /** With exactly one DoneJob between polls on a counter that stood at k >= 0,
      the loop exits at poll k, after logging the counts k, k-1, ..., 1. */
  lemma DrainLogOneDonePerPoll(k: Int64, observed: seq<int>)
    requires 0 <= k < |observed|
    requires forall i :: 0 <= i <= k ==> observed[i] == AfterDones(k, i)
    ensures Drains(observed)
    ensures FirstDrained(observed) == k
    ensures DrainLog(observed) == Progress(seq(k, j requires 0 <= j < k => k - j)) + [Graceful]
  {
    forall i | 0 <= i <= k
      ensures observed[i] == k - i
    {
      AfterDonesExact(k, i);
    }
    assert observed[k] <= 0;
  }

  /** The state behind a successful Init: the job counter, updated in place,
      and the three collaborators, fixed at construction. */
  class Watchdog {
    var jobs: Int64
    const ctx: Handle
    const cancel: Handle
    const logger: Handle

    /** A watchdog holding the given collaborators; the counter starts at its zero value. */
    constructor (ctx: Handle, cancel: Handle, logger: Handle)
      ensures jobs == 0
      ensures this.ctx == ctx && this.cancel == cancel && this.logger == logger
    {
      jobs := 0;
      this.ctx := ctx;
      this.cancel := cancel;
      this.logger := logger;
    }
  }

  /** The package-level state: the one-time guard, the installed instance,
      the contexts whose Done channel has been closed, and the warnings
      the installed logger has received. The process's cancel functions are
      fixed: cancels maps each to the context it closes, as
      context.WithCancel paired them. */
  class Coordinator {
    const cancels: map<Handle, Handle>
    var once: bool
    var instance: Watchdog?
    var done: set<Handle>
    var log: seq<Warning>

    /** The one-time guard has fired exactly when an instance is installed. */
    ghost predicate Valid()
      reads this
    {
      once <==> instance != null
    }

    /** The state of a process before any call: nothing installed, nothing cancelled, nothing logged. */
    constructor (cancels: map<Handle, Handle>)
      ensures Valid()
      ensures this.cancels == cancels
      ensures !once && instance == null && done == {} && log == []
    {
      this.cancels := cancels;
      once := false;
      instance := null;
      done := {};
      log := [];
    }

    /** The guard every operation but Init runs first. */
    function Initialized(): (r: Option<Error>)
      reads this
      ensures r.None? <==> instance != null
      ensures r.Some? ==> r.value == NotInitialized
    {
      if instance == null then Some(NotInitialized) else None
    }

    /** Init: validates its arguments, then installs a watchdog unless the
        one-time guard has already fired. */
    method Init(ctx: Option<Handle>, cancel: Option<Handle>, logger: Option<Handle>)
      returns (err: Option<Error>)
      requires Valid()
      modifies this`once, this`instance
      ensures Valid()
      ensures err == Validate(ctx, cancel, logger)
      ensures err.None? ==> instance != null
      // a rejected call does not touch the guard or the instance
      ensures err.Some? ==> once == old(once) && instance == old(instance)
      // the first accepted call installs a fresh watchdog with a zero counter
      ensures err.None? && !old(once) ==>
                instance != null && fresh(instance) && instance.jobs == 0 &&
                instance.ctx == ctx.value && instance.cancel == cancel.value &&
                instance.logger == logger.value
      // later accepted calls change nothing: the first writer wins
      ensures old(once) ==> instance == old(instance) && instance.jobs == old(instance.jobs)
    {
      err := Validate(ctx, cancel, logger);
      if err.Some? {
        return;
      }
      if !once {
        once := true;
        instance := new Watchdog(ctx.value, cancel.value, logger.value);
      }
    }

    /** AddJob: registers one more in-flight job. */
    method AddJob() returns (err: Option<Error>)
      requires Valid()
      modifies instance
      ensures err == Initialized()
      ensures instance != null ==> instance.jobs == AtomicAdd(old(instance.jobs), 1)
      ensures instance != null && old(instance.jobs) < MaxInt64 ==> instance.jobs == old(instance.jobs) + 1
    {
      err := Initialized();
      if err.Some? {
        return;
      }
      instance.jobs := AtomicAdd(instance.jobs, 1);
    }

    /** DoneJob: deregisters one job; nothing keeps the counter from going negative. */
    method DoneJob() returns (err: Option<Error>)
      requires Valid()
      modifies instance
      ensures err == Initialized()
      ensures instance != null ==> instance.jobs == AtomicAdd(old(instance.jobs), -1)
      ensures instance != null && old(instance.jobs) > MinInt64 ==> instance.jobs == old(instance.jobs) - 1
    {
      err := Initialized();
      if err.Some? {
        return;
      }
      instance.jobs := AtomicAdd(instance.jobs, -1);
    }

    /** Calling cancel function f, as the caller or the signal listener
        (instance.cancel()) does: closes the Done channel of the context f
        belongs to, and of no other. Firing it again has no further effect. */
    method Cancel(f: Handle)
      modifies this`done
      ensures f in cancels ==> done == old(done) + {cancels[f]}
      ensures f !in cancels ==> done == old(done)
    {
      if f in cancels {
        done := done + {cancels[f]};
      }
    }

    /** StandBy, from the point where the installed context is cancelled: the
        drain loop polls the job counter, reading the successive values in
        observed, until one is zero or negative, then logs the final notice. */
    method StandBy(observed: seq<Int64>) returns (err: Option<Error>)
      requires Valid()
      requires instance != null ==> instance.ctx in done
      requires instance != null ==> Drains(observed)
      modifies this`log
      ensures err == Initialized()
      ensures instance == null ==> log == old(log)
      ensures instance != null ==> log == old(log) + DrainLog(observed)
    {
      err := Initialized();
      if err.Some? {
        return;
      }
      var polls := 0;
      while true
        invariant polls <= FirstDrained(observed)
        invariant log == old(log) + Progress(observed[..polls])
        decreases FirstDrained(observed) - polls
      {
        var remaining := observed[polls];
        if remaining <= 0 {
          break;
        }
        assert observed[..polls + 1] == observed[..polls] + [remaining];
        log := log + [Waiting(remaining)];
        polls := polls + 1;
      }
      log := log + [Graceful];
    }
  }
}
