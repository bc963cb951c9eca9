/**
  The per-session command throttle of the playing state. A recognised
  command runs at once when the session is ready and is queued otherwise;
  every run arms one timer of the command's tick length, which either
  carries the next queued command or, when the queue was empty, just makes
  the session ready again. Timer expiry is modelled as an explicit event.
*/
module Throttle {
  import opened Options

  /** The result of the command lookup: the command's name and its tick length in milliseconds. */
  datatype CommandInfo = CommandInfo(name: string, tick: nat)

  /** A `SpammedCommand`: the input line (the command context) and the command it resolved to. */
  datatype Job = Job(input: string, info: CommandInfo)

  /** The armed timer: none, a plain delay, or a delay carrying the next command. */
  datatype Timer = NoTimer | Plain(tick: nat) | WithCommand(job: Job, tick: nat)

  /** The throttle's fields, with `ran` the commands executed so far, in order. */
  datatype State = State(ready: bool, queue: seq<Job>, timer: Timer, ran: seq<Job>)

  /** What the session writes back for one line of input. */
  datatype Echo = PromptOnly | NotRecognized | Queued | Ran

  /** A fresh session: ready, nothing queued, no timer, nothing run. */
  function Idle(): State { State(true, [], NoTimer, []) }

  /** Between events the session is ready exactly when no timer is armed, and a ready session queues nothing. */
  predicate Inv(s: State) {
    (s.ready <==> s.timer == NoTimer) && (s.ready ==> s.queue == [])
  }

  /** The commands still to run, in the order they will run: the one a timer carries, then the queue. */
  function Pending(s: State): (p: seq<Job>)
    ensures |p| == |s.queue| + (if s.timer.WithCommand? then 1 else 0)
  {
    (if s.timer.WithCommand? then [s.timer.job] else []) + s.queue
  }

  // ------------------------------------------------------------ behaviour

  /**
    `TryExecuteCommand` for a recognised command: queue it when not ready;
    otherwise run it and arm a timer of its tick length, carrying the queue
    head when there is one.
  */
  function Try(s: State, j: Job): (r: State)
    ensures s.ready ==> !r.ready && r.timer != NoTimer && r.ran == s.ran + [j]
    ensures !s.ready ==> r == s.(queue := s.queue + [j])
    ensures Inv(s) ==> Inv(r)
  {
    if !s.ready then s.(queue := s.queue + [j])
    else
      var ran := s.ran + [j];
      if s.queue != [] then State(false, s.queue[1..], WithCommand(s.queue[0], j.info.tick), ran)
      else State(false, [], Plain(j.info.tick), ran)
  }

  /**
    Timer expiry. A plain timer (`makeReady`) makes the session ready and
    runs the queue head if there is one; a timer carrying a command
    (`nextCommand`) makes the session ready and runs that command.
  */
  function Fire(s: State): (r: State)
    ensures s.timer == NoTimer ==> r == s
    ensures Inv(s) ==> Inv(r)
  {
    match s.timer
    case NoTimer => s
    case Plain(_) =>
      var t := s.(ready := true, timer := NoTimer);
      if t.queue == [] then t else Try(t.(queue := t.queue[1..]), t.queue[0])
    case WithCommand(j, _) => Try(s.(ready := true, timer := NoTimer), j)
  }

  /** `TryExecuteCommand(input)`: `info` is what the command lookup found for the input's command name. */
  function TryExecute(s: State, input: string, info: Option<CommandInfo>): (r: (State, Echo))
    ensures info.None? ==> r == (s, NotRecognized)
    ensures info.Some? ==> r.0 == Try(s, Job(input, info.value)) && r.1 == (if s.ready then Ran else Queued)
  {
    match info
    case None => (s, NotRecognized)
    case Some(ci) => (Try(s, Job(input, ci)), if s.ready then Ran else Queued)
  }

  /** `OnInput`: blank input only rewrites the prompt; anything else goes through the throttle. */
  function Input(s: State, input: string, info: Option<CommandInfo>): (r: (State, Echo))
    ensures IsNullOrWhiteSpace(input) ==> r == (s, PromptOnly)
    ensures !IsNullOrWhiteSpace(input) ==> r == TryExecute(s, input, info)
    ensures Inv(s) ==> Inv(r.0)
  {
    if IsNullOrWhiteSpace(input) then (s, PromptOnly) else TryExecute(s, input, info)
  }

  /** `OnStateEnter`: issue `look` through the same path as typed input. */
  function Enter(s: State, info: Option<CommandInfo>): (r: (State, Echo))
    ensures r == Input(s, "look", info)
  {
    LookIsNotBlank();
    TryExecute(s, "look", info)
  }

  /** The characters `char.IsWhiteSpace` accepts (the Unicode separators and the control whitespace). */
  predicate IsWhiteSpace(c: char) {
    || ('\U{0009}' <= c <= '\U{000D}') || c == ' ' || c == '\U{0085}' || c == '\U{00A0}'
    || c == '\U{1680}' || ('\U{2000}' <= c <= '\U{200A}') || c == '\U{2028}' || c == '\U{2029}'
    || c == '\U{202F}' || c == '\U{205F}' || c == '\U{3000}'
  }

  /** `string.IsNullOrWhiteSpace` on a non-null string: empty or only whitespace. */
  predicate IsNullOrWhiteSpace(s: string) {
    forall i | 0 <= i < |s| :: IsWhiteSpace(s[i])
  }

  lemma LookIsNotBlank()
    ensures !IsNullOrWhiteSpace("look")
  {
    assert !IsWhiteSpace("look"[0]);
  }

  // ------------------------------------------------------------ laws

  /**
    A recognised command joins the end of the pending commands when the
    session is busy, and runs at once when it is ready; nothing pending is
    lost or reordered.
  */
  lemma InputAppends(s: State, input: string, ci: CommandInfo)
    requires Inv(s) && !IsNullOrWhiteSpace(input)
    ensures var r := Input(s, input, Some(ci)).0;
      r.ran + Pending(r) == s.ran + Pending(s) + [Job(input, ci)]
    ensures var r := Input(s, input, Some(ci));
      (s.ready ==> r.1 == Ran && r.0.ran == s.ran + [Job(input, ci)])
      && (!s.ready ==> r.1 == Queued && r.0.ran == s.ran)
  {
    var j := Job(input, ci);
    if !s.ready {
      assert Pending(Try(s, j)) == Pending(s) + [j];
    }
  }

  /**
    A timer expiry with something pending runs exactly the first pending
    command; with nothing pending it runs nothing. Either way no pending
    command is lost or reordered.
  */
  lemma FireRunsHead(s: State)
    requires Inv(s)
    ensures var r := Fire(s);
      r.ran + Pending(r) == s.ran + Pending(s)
    ensures Pending(s) != [] ==> Fire(s).ran == s.ran + [Pending(s)[0]]
    ensures Pending(s) == [] ==> Fire(s).ran == s.ran
  {
    match s.timer
    case NoTimer =>
    case Plain(_) => PlainRunsHead(s);
    case WithCommand(j, _) => CarriedRunsHead(s);
  }

  /** `makeReady` runs the queue head, and the timer it arms carries the next one. */
  lemma PlainRunsHead(s: State)
    requires s.timer.Plain? && !s.ready
    ensures var r := Fire(s);
      r.ran + Pending(r) == s.ran + s.queue
    ensures s.queue != [] ==> Fire(s).ran == s.ran + [s.queue[0]]
    ensures s.queue == [] ==> Fire(s).ran == s.ran
  {
    var q := s.queue;
    if q != [] {
      var r := Fire(s);
      assert q == [q[0]] + q[1..];
      if q[1..] != [] {
        assert Pending(r) == q[1..];
      } else {
        assert Pending(r) == [];
      }
    }
  }

  /** `nextCommand` runs the carried command, and the timer it arms carries the queue head. */
  lemma CarriedRunsHead(s: State)
    requires s.timer.WithCommand? && !s.ready
    ensures var r := Fire(s);
      r.ran + Pending(r) == s.ran + [s.timer.job] + s.queue
    ensures Fire(s).ran == s.ran + [s.timer.job]
  {
    var q := s.queue;
    var r := Fire(s);
    if q != [] {
      assert q == [q[0]] + q[1..];
      assert Pending(r) == q;
    } else {
      assert Pending(r) == [];
    }
  }

  /** `n` timer expiries in a row. */
  function FireTimes(s: State, n: nat): (r: State)
    requires Inv(s)
    ensures Inv(r)
    decreases n
  {
    if n == 0 then s else FireTimes(Fire(s), n - 1)
  }

  /**
    Every pending command is eventually executed, in arrival order, and
    none is dropped: after one expiry per pending command everything
    pending has run, and one more leaves the session ready.
  */
  lemma {:induction false} PendingAllRun(s: State)
    requires Inv(s)
    ensures var r := FireTimes(s, |Pending(s)|);
      r.ran == s.ran + Pending(s) && Pending(r) == []
    ensures var r := FireTimes(s, |Pending(s)| + 1);
      r.ran == s.ran + Pending(s) && r.ready && r.queue == []
    decreases |Pending(s)|
  {
    var p := Pending(s);
    FireRunsHead(s);
    if p == [] {
      var f := Fire(s);
      assert FireTimes(s, 1) == FireTimes(f, 0);
      assert f.ready && f.queue == [] && f.ran == s.ran;
    } else {
      var f := Fire(s);
      assert Pending(f) == p[1..] by {
        assert f.ran + Pending(f) == s.ran + [p[0]] + p[1..];
      }
      PendingAllRun(f);
      assert FireTimes(s, |p|) == FireTimes(f, |p| - 1);
      assert FireTimes(s, |p| + 1) == FireTimes(f, |p[1..]| + 1);
      assert s.ran + [p[0]] + p[1..] == s.ran + p;
    }
  }

  /**
    Three commands typed in quick succession are all executed, in order:
    the second and third are queued behind the first rather than the third
    replacing the second.
  */
  lemma ThreeQuickCommands(x: CommandInfo, y: CommandInfo, z: CommandInfo)
    ensures var s1 := Input(Idle(), "x", Some(x)).0;
      var s2 := Input(s1, "y", Some(y)).0;
      var s3 := Input(s2, "z", Some(z)).0;
      s3.ran == [Job("x", x)] && s3.queue == [Job("y", y), Job("z", z)]
      && FireTimes(s3, 3).ran == [Job("x", x), Job("y", y), Job("z", z)] && FireTimes(s3, 3).ready
  {
    var s1 := Input(Idle(), "x", Some(x)).0;
    var s2 := Input(s1, "y", Some(y)).0;
    var s3 := Input(s2, "z", Some(z)).0;
    assert !IsWhiteSpace("x"[0]) && !IsWhiteSpace("y"[0]) && !IsWhiteSpace("z"[0]);
    assert s3 == State(false, [Job("y", y), Job("z", z)], Plain(x.tick), [Job("x", x)]);
    assert Pending(s3) == [Job("y", y), Job("z", z)];
    PendingAllRun(s3);
  }

  // ------------------------------------------------------------ raising commands

  /**
    `TryExecuteCommand` as written when the command's `Execute` may raise:
    `ready` is cleared before the call, and a raised exception leaves before
    any timer is armed.
  */
  function TryRaising(s: State, j: Job, raises: bool): (r: State)
    ensures !raises ==> r == Try(s, j)
  {
    if s.ready && raises then s.(ready := false, ran := s.ran + [j]) else Try(s, j)
  }

  /** One event of a session: a recognised command arriving (and whether it raises when run), or a timer expiry. */
  datatype Event = Arrive(job: Job, raises: bool) | Expire

  /** The session as written, driven by a sequence of events. */
  function Replay(s: State, evs: seq<Event>): State
    decreases |evs|
  {
    if evs == [] then s
    else
      var t := match evs[0]
        case Arrive(j, raises) => TryRaising(s, j, raises)
        case Expire => Fire(s);
      Replay(t, evs[1..])
  }

  /** A session that is busy with no timer armed: nothing will ever make it ready again. */
  predicate Stalled(s: State) {
    !s.ready && s.timer == NoTimer
  }

  /** Once stalled, a session as written never runs another command, whatever happens next. */
  lemma {:induction false} StalledStaysStalled(s: State, evs: seq<Event>)
    requires Stalled(s)
    ensures Stalled(Replay(s, evs)) && Replay(s, evs).ran == s.ran
    decreases |evs|
  {
    if evs != [] {
      var t := match evs[0]
        case Arrive(j, raises) => TryRaising(s, j, raises)
        case Expire => Fire(s);
      StalledStaysStalled(t, evs[1..]);
    }
  }

  /**
    As written, a command that raises on a ready session stalls it: the
    invariant is broken and no later command ever runs.
  */
  lemma RaiseStallsSession(s: State, j: Job, evs: seq<Event>)
    requires Inv(s) && s.ready
    ensures !Inv(TryRaising(s, j, true))
    ensures Replay(TryRaising(s, j, true), evs).ran == s.ran + [j]
  {
    StalledStaysStalled(TryRaising(s, j, true), evs);
  }

  /**
    The evident intent, that an error stops only the current command:
    arming the timer whether or not `Execute` raises (a `finally`), which is
    `Try`. Then every event keeps the invariant, so a session with commands
    pending always has a timer armed.
  */
  lemma {:induction false} ThrottleNeverStalls(s: State, evs: seq<Event>)
    requires Inv(s)
    ensures Inv(ReplayGuarded(s, evs))
    ensures Pending(ReplayGuarded(s, evs)) != [] ==> ReplayGuarded(s, evs).timer != NoTimer
    decreases |evs|
  {
    if evs != [] {
      var t := match evs[0]
        case Arrive(j, _) => Try(s, j)
        case Expire => Fire(s);
      ThrottleNeverStalls(t, evs[1..]);
    }
  }

  /** The session with the timer armed even when a command raises. */
  function ReplayGuarded(s: State, evs: seq<Event>): State
    decreases |evs|
  {
    if evs == [] then s
    else
      var t := match evs[0]
        case Arrive(j, _) => Try(s, j)
        case Expire => Fire(s);
      ReplayGuarded(t, evs[1..])
  }

  // ------------------------------------------------------------ the state class

  /** `PlayingState`'s throttle fields; `ran` records each command it executes. */
  class PlayingState {
    var ready: bool
    var queue: seq<Job>
    var timer: Timer
    ghost var ran: seq<Job>

    ghost function StateOf(): State
      reads this
    {
      State(ready, queue, timer, ran)
    }

    constructor()
      ensures StateOf() == Idle()
    {
      ready := true;
      queue := [];
      timer := NoTimer;
      ran := [];
    }

    /** `TryExecuteCommand(context, info)` for a recognised command. */
    method TryExecuteCommand(j: Job)
      modifies this
      ensures StateOf() == Try(old(StateOf()), j)
    {
      if !ready {
        queue := queue + [j];
        return;
      }
      ready := false;
      ran := ran + [j];
      if |queue| > 0 {
        var next := queue[0];
        queue := queue[1..];
        SetTimeoutWith(next, j.info.tick);
      } else {
        SetTimeout(j.info.tick);
      }
    }

    /** `setTimeout(tick)`: arm a plain timer. */
    method SetTimeout(tick: nat)
      modifies this
      ensures StateOf() == old(StateOf()).(timer := Plain(tick))
    {
      timer := Plain(tick);
    }

    /** `setTimeout(command, tick)`: arm a timer carrying the next command. */
    method SetTimeoutWith(j: Job, tick: nat)
      modifies this
      ensures StateOf() == old(StateOf()).(timer := WithCommand(j, tick))
    {
      timer := WithCommand(j, tick);
    }

    /** `makeReady`: the plain timer's callback. */
    method MakeReady()
      requires timer.Plain?
      modifies this
      ensures StateOf() == Fire(old(StateOf()))
    {
      timer := NoTimer;
      ready := true;
      if |queue| <= 0 {
        return;
      }
      var command := queue[0];
      queue := queue[1..];
      TryExecuteCommand(command);
    }

    /** `nextCommand`: the callback of a timer carrying `command`. */
    method NextCommand()
      requires timer.WithCommand?
      modifies this
      ensures StateOf() == Fire(old(StateOf()))
    {
      var command := timer.job;
      timer := NoTimer;
      ready := true;
      TryExecuteCommand(command);
    }

    /** The armed timer's expiry, dispatched to its callback. */
    method TimerFires()
      modifies this
      ensures StateOf() == Fire(old(StateOf()))
    {
      match timer
      case NoTimer =>
      case Plain(_) => MakeReady();
      case WithCommand(_, _) => NextCommand();
    }

    /** `OnInput(input)`, with `info` what the command lookup finds for it. */
    method OnInput(input: string, info: Option<CommandInfo>) returns (echo: Echo)
      modifies this
      ensures (StateOf(), echo) == Input(old(StateOf()), input, info)
    {
      var blank := IsBlank(input);
      if blank {
        return PromptOnly;
      }
      echo := TryExecuteInput(input, info);
    }

    /** `TryExecuteCommand(input)`. */
    method TryExecuteInput(input: string, info: Option<CommandInfo>) returns (echo: Echo)
      modifies this
      ensures (StateOf(), echo) == TryExecute(old(StateOf()), input, info)
    {
      if info.None? {
        return NotRecognized;
      }
      echo := if ready then Ran else Queued;
      TryExecuteCommand(Job(input, info.value));
    }

    /** `OnStateEnter`: run `look`. */
    method OnStateEnter(info: Option<CommandInfo>) returns (echo: Echo)
      modifies this
      ensures (StateOf(), echo) == Enter(old(StateOf()), info)
    {
      echo := TryExecuteInput("look", info);
    }
  }

  /** `string.IsNullOrWhiteSpace`, scanning the characters in order. */
  method IsBlank(s: string) returns (b: bool)
    ensures b <==> IsNullOrWhiteSpace(s)
  {
    var i := 0;
    while i < |s|
      invariant 0 <= i <= |s|
      invariant forall k | 0 <= k < i :: IsWhiteSpace(s[k])
    {
      if !IsWhiteSpace(s[i]) {
        return false;
      }
      i := i + 1;
    }
    return true;
  }
}
