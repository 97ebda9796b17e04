/**
 * The command handler: executes commands, keeps one undo/redo stack and
 * notifies observers. Its observable state is a `Config`: the stack's lists,
 * the notifications fired so far (the `OperationExecuted` channel as an
 * append-only log) and the application log of command behaviour. `ExecuteStep`,
 * `UndoLoop` and `RedoLoop` say what `Execute`, `Undo(n)` and `Redo(n)` do,
 * including the effects that remain when an exception ends the call.
 */
module Handler {
  import opened Wrappers
  import opened ListOps
  import opened Commands
  import opened UndoRedo

  datatype CommandOperation = Execute | Undo | Redo | Cleanup

  /** `OperationExecutionEventArgs`. */
  datatype Event = Event(currentItem: Option<Command>, action: CommandOperation, hasUndoItems: bool, hasRedoItems: bool)

  datatype Config = Config(lists: Stacks<UndoableCommandBase>, events: seq<Event>, log: seq<Invocation>)

  /** The payload `RaiseOperationExecuted` builds: the stack's raw `CanUndo`/`CanRedo` at that moment. */
  function Notice(lists: Stacks<UndoableCommandBase>, item: Option<Command>, operation: CommandOperation): (e: Event)
    ensures e.currentItem == item && e.action == operation
    ensures e.hasUndoItems <==> AfterUndo(lists).0.Some?
    ensures e.hasRedoItems <==> AfterRedo(lists).0.Some?
  {
    Event(item, operation, lists.undo != [], lists.redo != [])
  }

  /** `RaiseOperationExecuted` on a configuration: one event is appended, built from the current lists; nothing else changes. */
  function Raise(c: Config, item: Option<Command>, operation: CommandOperation): (r: Config)
    ensures r.lists == c.lists && r.log == c.log
    ensures c.events <= r.events && |r.events| == |c.events| + 1
    ensures Last(r.events) == Notice(c.lists, item, operation)
  {
    c.(events := c.events + [Notice(c.lists, item, operation)])
  }

  /** Some item of the list is not implicit: what the handler's `CanUndo()`/`CanRedo()` answer. */
  predicate HasExplicit(items: seq<UndoableCommandBase>) {
    exists i :: 0 <= i < |items| && !items[i].isImplicit
  }

  /**
   * `Execute(command)`: an undoable command is added to the stack before it runs,
   * so it stays there when it throws; the command's exception propagates
   * unchanged and no event fires; otherwise one Execute event fires.
   */
  function ExecuteStep(c: Config, command: Command): (r: (Config, Outcome<Exception>))
    requires command.Undoable? ==> CanAdd(c.lists)
    ensures command.Undoable? ==> r.0.lists == AfterAdd(c.lists, command.cmd)
    ensures command.Plain? ==> r.0.lists == c.lists
    ensures r.0.log == c.log + [Invocation(command.Id(), Forward, ExecuteActionOf(command))]
    ensures r.1.Fail? <==> ExecuteActionOf(command).failure.Some?
    ensures r.1.Fail? ==> r.1.error == ExecuteActionOf(command).failure.value && r.0.events == c.events
    ensures r.1.Pass? ==> r.0.events == c.events + [Notice(r.0.lists, Some(command), CommandOperation.Execute)]
  {
    var lists := if command.Undoable? then AfterAdd(c.lists, command.cmd) else c.lists;
    var (log, out) := Invoke(c.log, command.Id(), Forward, ExecuteActionOf(command));
    var ran := Config(lists, c.events, log);
    if out.Fail? then (ran, out) else (Raise(ran, Some(command), CommandOperation.Execute), Pass)
  }

  /** The end of one iteration of the `Undo(n)` or `Redo(n)` loop body. */
  datatype Iteration =
    | Stopped(config: Config, outcome: Outcome<Exception>)
    | Continued(config: Config, command: UndoableCommandBase)

  /**
   * One iteration of `Undo(n)`: pop the undo stack; throw `ApplicationException`
   * when it was empty; run the command's undo action, whose exception ends the
   * call with the item already moved; otherwise fire an Undo event for it.
   */
  function UndoOnce(c: Config): (it: Iteration)
    ensures |it.config.lists.undo| + |it.config.lists.redo| == |c.lists.undo| + |c.lists.redo|
    ensures it.config.lists.maxStackSize == c.lists.maxStackSize
    ensures it.Stopped? ==> it.outcome.Fail? && it.config.events == c.events
    ensures it.Stopped? ==> c.log <= it.config.log && |it.config.log| <= |c.log| + 1
    ensures c.lists.undo == [] ==> it == Stopped(c, Fail(ApplicationException(None)))
    ensures c.lists.undo != [] ==> it.config.lists == AfterUndo(c.lists).1
    ensures c.lists.undo != [] ==> it.config.log == c.log + [Invocation(Last(c.lists.undo).id, Backward, Last(c.lists.undo).undoAction)]
    ensures c.lists.undo != [] ==> (it.Continued? <==> Last(c.lists.undo).undoAction.failure.None?)
    ensures c.lists.undo != [] && it.Stopped? ==> it.outcome == Fail(Last(c.lists.undo).undoAction.failure.value)
    ensures it.Continued? ==> |it.config.lists.undo| == |c.lists.undo| - 1 && it.command == Last(c.lists.undo)
    ensures it.Continued? ==> it.config.log == c.log + [Invocation(it.command.id, Backward, it.command.undoAction)]
    ensures it.Continued? ==> it.config.events == c.events + [Notice(it.config.lists, Some(Undoable(it.command)), CommandOperation.Undo)]
  {
    var (item, lists) := AfterUndo(c.lists);
    if item.None? then Stopped(c, Fail(ApplicationException(None)))
    else
      var command := item.value;
      var (log, out) := Invoke(c.log, command.id, Backward, command.undoAction);
      var ran := Config(lists, c.events, log);
      if out.Fail? then Stopped(ran, out)
      else Continued(Raise(ran, Some(Undoable(command)), CommandOperation.Undo), command)
  }

  /**
   * `Undo(n)` with `remaining` iterations still to count. An iteration counts
   * only when the command it undid is not implicit; each one pops an item, so
   * the length of the undo list bounds the loop.
   */
  function UndoLoop(c: Config, remaining: int): (r: (Config, Outcome<Exception>))
    decreases |c.lists.undo|
  {
    if remaining <= 0 then (c, Pass)
    else
      var it := UndoOnce(c);
      if it.Stopped? then (it.config, it.outcome)
      else UndoLoop(it.config, if it.command.isImplicit then remaining else remaining - 1)
  }

  /**
   * One iteration of `Redo(n)`: pop the redo stack; throw when it was empty;
   * run the command's execute action; otherwise fire a Redo event for it.
   */
  function RedoOnce(c: Config): (it: Iteration)
    ensures |it.config.lists.undo| + |it.config.lists.redo| == |c.lists.undo| + |c.lists.redo|
    ensures it.config.lists.maxStackSize == c.lists.maxStackSize
    ensures it.Stopped? ==> it.outcome.Fail? && it.config.events == c.events
    ensures it.Stopped? ==> c.log <= it.config.log && |it.config.log| <= |c.log| + 1
    ensures c.lists.redo == [] ==> it == Stopped(c, Fail(ApplicationException(None)))
    ensures c.lists.redo != [] ==> it.config.lists == AfterRedo(c.lists).1
    ensures c.lists.redo != [] ==> it.config.log == c.log + [Invocation(Last(c.lists.redo).id, Forward, Last(c.lists.redo).executeAction)]
    ensures c.lists.redo != [] ==> (it.Continued? <==> Last(c.lists.redo).executeAction.failure.None?)
    ensures c.lists.redo != [] && it.Stopped? ==> it.outcome == Fail(Last(c.lists.redo).executeAction.failure.value)
    ensures it.Continued? ==> |it.config.lists.redo| == |c.lists.redo| - 1 && it.command == Last(c.lists.redo)
    ensures it.Continued? ==> it.config.lists.undo == c.lists.undo + [it.command]
    ensures it.Continued? ==> it.config.log == c.log + [Invocation(it.command.id, Forward, it.command.executeAction)]
    ensures it.Continued? ==> it.config.events == c.events + [Notice(it.config.lists, Some(Undoable(it.command)), CommandOperation.Redo)]
  {
    var (item, lists) := AfterRedo(c.lists);
    if item.None? then Stopped(c, Fail(ApplicationException(None)))
    else
      var command := item.value;
      var (log, out) := Invoke(c.log, command.id, Forward, command.executeAction);
      var ran := Config(lists, c.events, log);
      if out.Fail? then Stopped(ran, out)
      else Continued(Raise(ran, Some(Undoable(command)), CommandOperation.Redo), command)
  }

  /** The redo counter is not advanced when the redo list's element at index 0 is implicit. */
  predicate RedoIsFree(lists: Stacks<UndoableCommandBase>) {
    lists.redo != [] && lists.redo[0].isImplicit
  }

  /**
   * `Redo(n)` with `remaining` iterations still to count. After each redo the
   * iteration does not count when the redo list is non-empty and its element
   * at index 0 (`First()`, the OLDEST entry, not the next one popped) is implicit.
   */
  function RedoLoop(c: Config, remaining: int): (r: (Config, Outcome<Exception>))
    decreases |c.lists.redo|
  {
    if remaining <= 0 then (c, Pass)
    else
      match RedoOnce(c)
      case Stopped(d, out) => (d, out)
      case Continued(d, _) => RedoLoop(d, if RedoIsFree(d.lists) then remaining else remaining - 1)
  }

  /** `Undo(n)` keeps the total number of items and the capacity, and only ever adds to the events and the log. */
  lemma {:induction false} UndoLoopPreserves(c: Config, remaining: int)
    ensures var r := UndoLoop(c, remaining);
      |r.0.lists.undo| + |r.0.lists.redo| == |c.lists.undo| + |c.lists.redo| &&
      r.0.lists.maxStackSize == c.lists.maxStackSize &&
      c.events <= r.0.events && c.log <= r.0.log
    decreases |c.lists.undo|
  {
    if remaining > 0 {
      var it := UndoOnce(c);
      if it.Continued? {
        UndoLoopPreserves(it.config, if it.command.isImplicit then remaining else remaining - 1);
      }
    }
  }

  /** The same for `Redo(n)`. */
  lemma {:induction false} RedoLoopPreserves(c: Config, remaining: int)
    ensures var r := RedoLoop(c, remaining);
      |r.0.lists.undo| + |r.0.lists.redo| == |c.lists.undo| + |c.lists.redo| &&
      r.0.lists.maxStackSize == c.lists.maxStackSize &&
      c.events <= r.0.events && c.log <= r.0.log
    decreases |c.lists.redo|
  {
    if remaining > 0 {
      var it := RedoOnce(c);
      if it.Continued? {
        RedoLoopPreserves(it.config, if RedoIsFree(it.config.lists) then remaining else remaining - 1);
      }
    }
  }

  /** One counted or uncounted iteration of `Undo(n)`, unfolded. */
  lemma UndoLoopContinues(c: Config, remaining: int, it: Iteration)
    requires remaining > 0 && it == UndoOnce(c) && it.Continued?
    ensures UndoLoop(c, remaining) == UndoLoop(it.config, if it.command.isImplicit then remaining else remaining - 1)
  {
  }

  /** One counted or uncounted iteration of `Redo(n)`, unfolded. */
  lemma RedoLoopContinues(c: Config, remaining: int, it: Iteration)
    requires remaining > 0 && it == RedoOnce(c) && it.Continued?
    ensures RedoLoop(c, remaining) == RedoLoop(it.config, if RedoIsFree(it.config.lists) then remaining else remaining - 1)
  {
  }

  /** `Undo(n)` ends with the iteration that throws. */
  lemma UndoLoopStops(c: Config, remaining: int, it: Iteration)
    requires remaining > 0 && it == UndoOnce(c) && it.Stopped?
    ensures UndoLoop(c, remaining) == (it.config, it.outcome)
  {
  }

  /** `Redo(n)` ends with the iteration that throws. */
  lemma RedoLoopStops(c: Config, remaining: int, it: Iteration)
    requires remaining > 0 && it == RedoOnce(c) && it.Stopped?
    ensures RedoLoop(c, remaining) == (it.config, it.outcome)
  {
  }

  /** The `Where(x is UndoableCommandBase).Select(x as UndoableCommandBase)` filter of `CleanUp`. */
  function UndoablesOf(commands: seq<Command>): (r: seq<UndoableCommandBase>)
    ensures forall u :: u in r <==> Undoable(u) in commands
    ensures |r| <= |commands|
  {
    if commands == [] then []
    else
      var rest := UndoablesOf(commands[1..]);
      assert forall x :: x in commands <==> x == commands[0] || x in commands[1..] by {
        assert commands == [commands[0]] + commands[1..];
      }
      match AsUndoable(commands[0])
      case Some(u) => [u] + rest
      case None => rest
  }

  /** Filtering one command keeps its undoable command, if it is one. */
  lemma UndoablesOfOne(x: Command)
    ensures UndoablesOf([x]) == if x.Undoable? then [x.cmd] else []
  {
    assert [x][1..] == [];
  }

  /** The filter distributes over concatenation, so it keeps the order of the commands. */
  lemma {:induction false} UndoablesOfAppend(a: seq<Command>, b: seq<Command>)
    ensures UndoablesOf(a + b) == UndoablesOf(a) + UndoablesOf(b)
  {
    if a == [] {
      assert a + b == b;
    } else {
      assert (a + b)[0] == a[0] && (a + b)[1..] == a[1..] + b;
      UndoablesOfAppend(a[1..], b);
    }
  }

  /** The filter keeps each undoable command as many times as it occurs. */
  lemma {:induction false} UndoablesOfCounts(commands: seq<Command>, u: UndoableCommandBase)
    ensures multiset(UndoablesOf(commands))[u] == multiset(commands)[Undoable(u)]
  {
    if commands != [] {
      assert commands == [commands[0]] + commands[1..];
      UndoablesOfCounts(commands[1..], u);
    }
  }

  predicate CarriesUndoable(e: Event, operation: CommandOperation) {
    e.action == operation && e.currentItem.Some? && e.currentItem.value.Undoable?
  }

  predicate ExplicitEvent(e: Event) {
    e.currentItem.Some? && e.currentItem.value.Undoable? && !e.currentItem.value.cmd.isImplicit
  }

  /** The number of fired events whose command is not implicit. */
  function ExplicitCount(events: seq<Event>): nat {
    if events == [] then 0
    else (if ExplicitEvent(events[0]) then 1 else 0) + ExplicitCount(events[1..])
  }

  /** What an Undo or Redo pass over `u` leaves in the log: its undo body run backward, or its execute body run forward. */
  function Replay(u: UndoableCommandBase, operation: CommandOperation): Invocation {
    if operation == CommandOperation.Redo then Invocation(u.id, Forward, u.executeAction)
    else Invocation(u.id, Backward, u.undoAction)
  }

  /**
   * The events fired between `c` and `d` are `operation` events carrying
   * undoable commands, matched in order by those commands' `Replay` in the log;
   * the log holds nothing else, except one more entry when `failed`.
   */
  predicate EventsMatchLog(c: Config, d: Config, failed: bool, operation: CommandOperation) {
    c.events <= d.events && c.log <= d.log &&
    var fired := d.events[|c.events|..];
    (forall i :: 0 <= i < |fired| ==> CarriesUndoable(fired[i], operation)) &&
    |c.log| + |fired| <= |d.log| <= |c.log| + |fired| + (if failed then 1 else 0) &&
    (forall i :: 0 <= i < |fired| ==> d.log[|c.log| + i] == Replay(fired[i].currentItem.value.cmd, operation))
  }

  lemma EventsMatchLogTransitive(c: Config, b: Config, d: Config, failed: bool, operation: CommandOperation)
    requires EventsMatchLog(c, b, false, operation) && EventsMatchLog(b, d, failed, operation)
    ensures EventsMatchLog(c, d, failed, operation)
  {
    var first := b.events[|c.events|..];
    var second := d.events[|b.events|..];
    var fired := d.events[|c.events|..];
    assert fired == first + second;
    assert d.log[..|b.log|] == b.log;
    forall i | 0 <= i < |fired|
      ensures d.log[|c.log| + i] == Replay(fired[i].currentItem.value.cmd, operation)
    {
      if i < |first| {
        assert fired[i] == first[i];
        assert d.log[|c.log| + i] == b.log[|c.log| + i];
      } else {
        assert fired[i] == second[i - |first|];
        assert |c.log| + i == |b.log| + (i - |first|);
      }
    }
  }

  /** An iteration that completes fires one event and logs the action it matches. */
  lemma UndoOnceMatchesLog(c: Config)
    requires UndoOnce(c).Continued?
    ensures EventsMatchLog(c, UndoOnce(c).config, false, CommandOperation.Undo)
  {
    var d := UndoOnce(c).config;
    assert d.events[|c.events|..] == [Last(d.events)];
  }

  /** An iteration that throws fires nothing and logs at most the failing action. */
  lemma UndoOnceStopMatchesLog(c: Config)
    requires UndoOnce(c).Stopped?
    ensures EventsMatchLog(c, UndoOnce(c).config, true, CommandOperation.Undo)
  {
    var d := UndoOnce(c).config;
    assert d.events[|c.events|..] == [];
  }

  /**
   * Every event an `Undo(n)` fires is an Undo event, matched, in order, by the
   * undo action of its command in the application log; a call that completes
   * logs nothing else, and one that throws at most the failing action.
   */
  lemma {:induction false} UndoEventsMatchLog(c: Config, n: int)
    ensures EventsMatchLog(c, UndoLoop(c, n).0, UndoLoop(c, n).1.Fail?, CommandOperation.Undo)
    decreases |c.lists.undo|
  {
    if n > 0 {
      var it := UndoOnce(c);
      if it.Continued? {
        var m := if it.command.isImplicit then n else n - 1;
        UndoLoopContinues(c, n, it);
        UndoEventsMatchLog(it.config, m);
        UndoOnceMatchesLog(c);
        EventsMatchLogTransitive(c, it.config, UndoLoop(it.config, m).0, UndoLoop(it.config, m).1.Fail?, CommandOperation.Undo);
      } else {
        UndoLoopStops(c, n, it);
        UndoOnceStopMatchesLog(c);
      }
    } else {
      assert c.events[|c.events|..] == [];
    }
  }

  /** A Redo pass that completes fires one event and logs the execute body it matches. */
  lemma RedoOnceMatchesLog(c: Config)
    requires RedoOnce(c).Continued?
    ensures EventsMatchLog(c, RedoOnce(c).config, false, CommandOperation.Redo)
  {
    var d := RedoOnce(c).config;
    assert d.events[|c.events|..] == [Last(d.events)];
  }

  /** A Redo pass that throws fires nothing and logs at most the failing execute body. */
  lemma RedoOnceStopMatchesLog(c: Config)
    requires RedoOnce(c).Stopped?
    ensures EventsMatchLog(c, RedoOnce(c).config, true, CommandOperation.Redo)
  {
    var d := RedoOnce(c).config;
    assert d.events[|c.events|..] == [];
  }

  /**
   * Every event a `Redo(n)` fires is a Redo event, matched, in order, by the
   * execute body of its command in the application log; a call that completes
   * logs nothing else, and one that throws at most the failing body.
   */
  lemma {:induction false} RedoEventsMatchLog(c: Config, n: int)
    ensures EventsMatchLog(c, RedoLoop(c, n).0, RedoLoop(c, n).1.Fail?, CommandOperation.Redo)
    decreases |c.lists.redo|
  {
    if n > 0 {
      var it := RedoOnce(c);
      if it.Continued? {
        var m := if RedoIsFree(it.config.lists) then n else n - 1;
        RedoLoopContinues(c, n, it);
        RedoEventsMatchLog(it.config, m);
        RedoOnceMatchesLog(c);
        EventsMatchLogTransitive(c, it.config, RedoLoop(it.config, m).0, RedoLoop(it.config, m).1.Fail?, CommandOperation.Redo);
      } else {
        RedoLoopStops(c, n, it);
        RedoOnceStopMatchesLog(c);
      }
    } else {
      assert c.events[|c.events|..] == [];
    }
  }

  lemma {:induction false} ExplicitCountAppend(a: seq<Event>, b: seq<Event>)
    ensures ExplicitCount(a + b) == ExplicitCount(a) + ExplicitCount(b)
  {
    if a == [] {
      assert a + b == b;
    } else {
      assert (a + b)[1..] == a[1..] + b;
      ExplicitCountAppend(a[1..], b);
    }
  }

  /**
   * Between `c` and `d` an `Undo(n)` fired events of which the first `n` not
   * implicit end the call (nothing for `n <= 0`); when it throws, fewer than
   * `n` had been counted.
   */
  predicate CountsExplicit(c: Config, d: Config, r: Outcome<Exception>, n: int) {
    c.events <= d.events &&
    var fired := d.events[|c.events|..];
    (n <= 0 ==> fired == [] && r.Pass?) &&
    (r.Pass? ==> ExplicitCount(fired) == (if n > 0 then n else 0)) &&
    (r.Pass? && n > 0 ==> fired != [] && ExplicitEvent(Last(fired))) &&
    (r.Fail? ==> ExplicitCount(fired) < n)
  }

  lemma CountsExplicitStep(c: Config, next: Config, d: Config, r: Outcome<Exception>, n: int, m: int, e: Event)
    requires n > 0 && c.events <= next.events && next.events[|c.events|..] == [e]
    requires m == if ExplicitEvent(e) then n - 1 else n
    requires CountsExplicit(next, d, r, m)
    ensures CountsExplicit(c, d, r, n)
  {
    var later := d.events[|next.events|..];
    assert d.events[|c.events|..] == [e] + later;
    ExplicitCountAppend([e], later);
    assert ExplicitCount([e]) == if ExplicitEvent(e) then 1 else 0 by {
      assert [e][1..] == [];
    }
    if r.Pass? && later != [] {
      assert Last([e] + later) == Last(later);
    } else if r.Pass? {
      assert m <= 0 && ExplicitEvent(e);
      assert [e] + later == [e];
    }
  }

  /** An iteration that completes fires one event, explicit exactly when its command is. */
  lemma UndoOnceFiresOne(c: Config)
    requires UndoOnce(c).Continued?
    ensures var it := UndoOnce(c);
      c.events <= it.config.events &&
      it.config.events[|c.events|..] == [Last(it.config.events)] &&
      (ExplicitEvent(Last(it.config.events)) <==> !it.command.isImplicit)
  {
    var d := UndoOnce(c).config;
    assert d.events[|c.events|..] == [Last(d.events)];
  }

  /**
   * `Undo(n)` stops right after the n-th command that is not implicit: when the
   * call completes, exactly `n` of the commands it undid (none for `n <= 0`) are
   * not implicit and the last one undone is not implicit, so implicit commands
   * ride along with the explicit one beneath them. When it throws, fewer than
   * `n` had been counted.
   */
  lemma {:induction false} UndoCountsExplicitCommands(c: Config, n: int)
    ensures CountsExplicit(c, UndoLoop(c, n).0, UndoLoop(c, n).1, n)
    decreases |c.lists.undo|
  {
    if n > 0 {
      var it := UndoOnce(c);
      if it.Continued? {
        var m := if it.command.isImplicit then n else n - 1;
        UndoLoopContinues(c, n, it);
        UndoCountsExplicitCommands(it.config, m);
        UndoOnceFiresOne(c);
        CountsExplicitStep(c, it.config, UndoLoop(it.config, m).0, UndoLoop(it.config, m).1, n, m, Last(it.config.events));
      } else {
        UndoLoopStops(c, n, it);
        assert it.config.events[|c.events|..] == [];
      }
    } else {
      assert c.events[|c.events|..] == [];
    }
  }

  /** `Undo(n)` with nothing to undo throws at once and changes nothing. */
  lemma UndoOnEmptyThrows(c: Config, n: int)
    requires n > 0 && c.lists.undo == []
    ensures UndoLoop(c, n) == (c, Fail(ApplicationException(None)))
  {
    var it := UndoOnce(c);
    UndoLoopStops(c, n, it);
  }

  /** `Redo(n)` with nothing to redo throws at once and changes nothing. */
  lemma RedoOnEmptyThrows(c: Config, n: int)
    requires n > 0 && c.lists.redo == []
    ensures RedoLoop(c, n) == (c, Fail(ApplicationException(None)))
  {
    var it := RedoOnce(c);
    RedoLoopStops(c, n, it);
  }

  /**
   * Asking `Undo(n)` for more than the one command on the list: the command is
   * undone, moved to the redo list and announced, and then the call throws;
   * none of that is rolled back.
   */
  lemma UndoPastTheEndKeepsEffects(c: Config, n: int, u: UndoableCommandBase)
    requires n >= 2 && c.lists.undo == [u] && u.undoAction.failure.None?
    ensures var (d, r) := UndoLoop(c, n);
      r == Fail(ApplicationException(None)) &&
      d.lists == Stacks([], c.lists.redo + [u], c.lists.maxStackSize) &&
      d.log == c.log + [Invocation(u.id, Backward, u.undoAction)] &&
      d.events == c.events + [Notice(d.lists, Some(Undoable(u)), CommandOperation.Undo)]
  {
    var it := UndoOnce(c);
    assert AfterUndo(c.lists).0 == Some(u);
    var m := if u.isImplicit then n else n - 1;
    UndoLoopContinues(c, n, it);
    UndoOnEmptyThrows(it.config, m);
  }

  /** `Undo()` with an explicit command on top that undoes cleanly: exactly that command is undone. */
  lemma UndoOneExplicit(c: Config)
    requires c.lists.undo != [] && !Last(c.lists.undo).isImplicit && Last(c.lists.undo).undoAction.failure.None?
    ensures UndoOnce(c).Continued? && UndoOnce(c).config.lists == AfterUndo(c.lists).1
    ensures UndoLoop(c, 1) == (UndoOnce(c).config, Pass)
  {
    var it := UndoOnce(c);
    UndoLoopContinues(c, 1, it);
    assert UndoLoop(it.config, 0) == (it.config, Pass);
  }

  /**
   * `Redo()` whose redone command runs cleanly and leaves a redo list that is
   * empty or has an explicit command at index 0: exactly that command is redone.
   */
  lemma RedoOneCounted(c: Config)
    requires c.lists.redo != [] && Last(c.lists.redo).executeAction.failure.None?
    requires !RedoIsFree(AfterRedo(c.lists).1)
    ensures RedoOnce(c).Continued? && RedoOnce(c).config.lists == AfterRedo(c.lists).1
    ensures RedoLoop(c, 1) == (RedoOnce(c).config, Pass)
  {
    var it := RedoOnce(c);
    RedoLoopContinues(c, 1, it);
    assert RedoLoop(it.config, 0) == (it.config, Pass);
  }

  /** Every item is one of the tests' `AddOneCommand`s. */
  predicate AllAddOne(items: seq<UndoableCommandBase>) {
    forall i :: 0 <= i < |items| ==> items[i] == AddOne(items[i].id)
  }

  lemma AllAddOneSub(s: seq<UndoableCommandBase>, t: seq<UndoableCommandBase>)
    requires AllAddOne(s) && multiset(t) <= multiset(s)
    ensures AllAddOne(t)
  {
    forall i | 0 <= i < |t| ensures t[i] == AddOne(t[i].id) {
      assert t[i] in multiset(t);
      assert t[i] in s;
    }
  }

  /** One iteration of `Undo(n)` over counter commands: it completes and takes one off. */
  lemma UndoOnceAddOne(c: Config)
    requires c.lists.undo != [] && AllAddOne(c.lists.undo)
    ensures var it := UndoOnce(c);
      it.Continued? && !it.command.isImplicit &&
      NetEffect(it.config.log) == NetEffect(c.log) - 1 &&
      |it.config.lists.undo| == |c.lists.undo| - 1 && |it.config.lists.redo| == |c.lists.redo| + 1 &&
      AllAddOne(it.config.lists.undo) && (AllAddOne(c.lists.redo) ==> AllAddOne(it.config.lists.redo))
  {
    var u := Last(c.lists.undo);
    assert u == c.lists.undo[|c.lists.undo| - 1];
    NetEffectSnoc(c.log, Invocation(u.id, Backward, u.undoAction));
    var next := UndoOnce(c).config;
    AllAddOneSub(c.lists.undo, next.lists.undo);
    if AllAddOne(c.lists.redo) {
      assert next.lists.redo == c.lists.redo + [u];
    }
  }

  /**
   * Undoing `n` of the tests' counter commands, with at least `n` on the list,
   * completes, moves `n` items to the redo list and takes `n` off the counter.
   */
  lemma {:induction false} UndoAddOnes(c: Config, n: int)
    requires 0 <= n <= |c.lists.undo| && AllAddOne(c.lists.undo)
    ensures UndoLoop(c, n).1 == Pass
    ensures NetEffect(UndoLoop(c, n).0.log) == NetEffect(c.log) - n
    ensures |UndoLoop(c, n).0.lists.undo| == |c.lists.undo| - n
    ensures |UndoLoop(c, n).0.lists.redo| == |c.lists.redo| + n
    ensures AllAddOne(UndoLoop(c, n).0.lists.undo)
    ensures AllAddOne(c.lists.redo) ==> AllAddOne(UndoLoop(c, n).0.lists.redo)
    decreases |c.lists.undo|
  {
    if n > 0 {
      var it := UndoOnce(c);
      UndoOnceAddOne(c);
      var m := if it.command.isImplicit then n else n - 1;
      assert m == n - 1;
      UndoLoopContinues(c, n, it);
      UndoAddOnes(it.config, m);
    } else {
      assert UndoLoop(c, n) == (c, Pass);
    }
  }

  /** One iteration of `Redo(n)` over counter commands: it completes, adds one and counts. */
  lemma RedoOnceAddOne(c: Config)
    requires c.lists.redo != [] && AllAddOne(c.lists.redo)
    ensures var it := RedoOnce(c);
      it.Continued? && !RedoIsFree(it.config.lists) &&
      NetEffect(it.config.log) == NetEffect(c.log) + 1 &&
      |it.config.lists.redo| == |c.lists.redo| - 1 && |it.config.lists.undo| == |c.lists.undo| + 1 &&
      AllAddOne(it.config.lists.redo) && (AllAddOne(c.lists.undo) ==> AllAddOne(it.config.lists.undo))
  {
    var u := Last(c.lists.redo);
    assert u == c.lists.redo[|c.lists.redo| - 1];
    NetEffectSnoc(c.log, Invocation(u.id, Forward, u.executeAction));
    var next := RedoOnce(c).config;
    AllAddOneSub(c.lists.redo, next.lists.redo);
    if next.lists.redo != [] {
      assert next.lists.redo[0] == AddOne(next.lists.redo[0].id);
    }
    if AllAddOne(c.lists.undo) {
      AllAddOneSnoc(c.lists.undo, u);
    }
  }

  lemma AllAddOneSnoc(s: seq<UndoableCommandBase>, u: UndoableCommandBase)
    requires AllAddOne(s) && u == AddOne(u.id)
    ensures AllAddOne(s + [u])
  {
    forall i | 0 <= i < |s + [u]| ensures (s + [u])[i] == AddOne((s + [u])[i].id) {
      if i < |s| {
        assert (s + [u])[i] == s[i];
      }
    }
  }

  /** The same for `Redo(n)`: no counter command is implicit, so every iteration counts. */
  lemma {:induction false} RedoAddOnes(c: Config, n: int)
    requires 0 <= n <= |c.lists.redo| && AllAddOne(c.lists.redo)
    ensures RedoLoop(c, n).1 == Pass
    ensures NetEffect(RedoLoop(c, n).0.log) == NetEffect(c.log) + n
    ensures |RedoLoop(c, n).0.lists.redo| == |c.lists.redo| - n
    ensures |RedoLoop(c, n).0.lists.undo| == |c.lists.undo| + n
    ensures AllAddOne(RedoLoop(c, n).0.lists.redo)
    ensures AllAddOne(c.lists.undo) ==> AllAddOne(RedoLoop(c, n).0.lists.undo)
    decreases |c.lists.redo|
  {
    if n > 0 {
      var it := RedoOnce(c);
      RedoOnceAddOne(c);
      var m := if RedoIsFree(it.config.lists) then n else n - 1;
      assert m == n - 1;
      RedoLoopContinues(c, n, it);
      RedoAddOnes(it.config, m);
    } else {
      assert RedoLoop(c, n) == (c, Pass);
    }
  }

  /** A `Redo` pass over a top that occurs nowhere else and runs cleanly completes and drops just that top. */
  lemma RedoOnceUniqueTop(c: Config)
    requires c.lists.redo != [] && Last(c.lists.redo) !in c.lists.redo[..|c.lists.redo| - 1]
    requires Last(c.lists.redo).executeAction.failure.None?
    ensures RedoOnce(c).Continued? && RedoOnce(c).config.lists.redo == c.lists.redo[..|c.lists.redo| - 1]
  {
    assert AfterRedo(c.lists).1.redo == c.lists.redo[..|c.lists.redo| - 1];
  }

  /** Every command on the list re-executes without throwing. */
  predicate AllRunCleanly(items: seq<UndoableCommandBase>) {
    forall i :: 0 <= i < |items| ==> items[i].executeAction.failure.None?
  }

  /**
   * `Redo()` over an implicit command at index 0 below a top that occurs
   * nowhere else: the pass completes, drops the top and does not count.
   */
  lemma RedoFreeStep(c: Config) returns (next: Config)
    requires |c.lists.redo| > 1 && c.lists.redo[0].isImplicit && Distinct(c.lists.redo)
    requires AllRunCleanly(c.lists.redo)
    ensures RedoLoop(c, 1) == RedoLoop(next, 1) && |next.events| == |c.events| + 1
    ensures |next.lists.redo| == |c.lists.redo| - 1
    ensures next.lists.redo[0].isImplicit && Distinct(next.lists.redo) && AllRunCleanly(next.lists.redo)
  {
    var redo := c.lists.redo;
    DistinctInit(redo);
    assert Last(redo).executeAction.failure.None?;
    RedoOnceUniqueTop(c);
    var it := RedoOnce(c);
    next := it.config;
    assert next.lists.redo[0] == redo[0];
    RedoLoopContinues(c, 1, it);
    forall i | 0 <= i < |next.lists.redo| ensures next.lists.redo[i].executeAction.failure.None? {
      assert next.lists.redo[i] == redo[i];
    }
  }

  /** `Redo()` over a single command that runs cleanly redoes it and empties the redo list. */
  lemma RedoLastStep(c: Config)
    requires |c.lists.redo| == 1 && AllRunCleanly(c.lists.redo)
    ensures RedoLoop(c, 1).1 == Pass && RedoLoop(c, 1).0.lists.redo == []
    ensures |RedoLoop(c, 1).0.events| == |c.events| + 1
  {
    assert Last(c.lists.redo).executeAction.failure.None?;
    RedoOnceUniqueTop(c);
    var it := RedoOnce(c);
    RedoLoopContinues(c, 1, it);
    assert RedoLoop(it.config, 0) == (it.config, Pass);
  }

  /**
   * Because `Redo` tests the element at index 0 and not the next one popped, an
   * implicit command at the bottom of a redo list of distinct commands that all
   * run makes `Redo(1)` redo the whole list, firing one event per command.
   */
  lemma {:induction false} RedoWithImplicitFirstRedoesAll(c: Config)
    requires c.lists.redo != [] && c.lists.redo[0].isImplicit && Distinct(c.lists.redo)
    requires AllRunCleanly(c.lists.redo)
    ensures RedoLoop(c, 1).1 == Pass && RedoLoop(c, 1).0.lists.redo == []
    ensures |RedoLoop(c, 1).0.events| == |c.events| + |c.lists.redo|
    decreases |c.lists.redo|
  {
    if |c.lists.redo| == 1 {
      RedoLastStep(c);
    } else {
      var next := RedoFreeStep(c);
      RedoWithImplicitFirstRedoesAll(next);
    }
  }

  /**
   * `Undo(n)` whose top item's undo body throws: the item has moved to the
   * redo list, its undo body is logged, no event fires, and the call rethrows
   * that body's exception.
   */
  lemma UndoThrowsFromTop(c: Config, n: int)
    requires n > 0 && c.lists.undo != [] && Last(c.lists.undo).undoAction.failure.Some?
    ensures var u := Last(c.lists.undo);
      UndoLoop(c, n) == (Config(AfterUndo(c.lists).1, c.events, c.log + [Invocation(u.id, Backward, u.undoAction)]),
                         Fail(u.undoAction.failure.value))
  {
    UndoLoopStops(c, n, UndoOnce(c));
  }

  /**
   * `Redo(n)` whose next item's execute body throws: the item has moved to the
   * undo list, its execute body is logged, no event fires, and the call
   * rethrows that body's exception.
   */
  lemma RedoThrowsFromTop(c: Config, n: int)
    requires n > 0 && c.lists.redo != [] && Last(c.lists.redo).executeAction.failure.Some?
    ensures var u := Last(c.lists.redo);
      RedoLoop(c, n) == (Config(AfterRedo(c.lists).1, c.events, c.log + [Invocation(u.id, Forward, u.executeAction)]),
                         Fail(u.executeAction.failure.value))
  {
    RedoLoopStops(c, n, RedoOnce(c));
  }

  /**
   * Where an exception out of `Undo(n)` comes from: either the undo list ran
   * out (a bare `ApplicationException`, the undo list empty), or it is the
   * exception of the undo body logged last.
   */
  lemma {:induction false} UndoFailureOrigin(c: Config, n: int)
    ensures var (d, r) := UndoLoop(c, n);
      r.Fail? ==>
        (r.error == ApplicationException(None) && d.lists.undo == []) ||
        (|d.log| > |c.log| && Last(d.log).phase == Backward && Last(d.log).action.failure == Some(r.error))
    decreases |c.lists.undo|
  {
    if n > 0 {
      var it := UndoOnce(c);
      if it.Continued? {
        UndoLoopContinues(c, n, it);
        UndoFailureOrigin(it.config, if it.command.isImplicit then n else n - 1);
      } else {
        UndoLoopStops(c, n, it);
      }
    }
  }

  /** Where an exception out of `Redo(n)` comes from: an empty redo list, or the execute body logged last. */
  lemma {:induction false} RedoFailureOrigin(c: Config, n: int)
    ensures var (d, r) := RedoLoop(c, n);
      r.Fail? ==>
        (r.error == ApplicationException(None) && d.lists.redo == []) ||
        (|d.log| > |c.log| && Last(d.log).phase == Forward && Last(d.log).action.failure == Some(r.error))
    decreases |c.lists.redo|
  {
    if n > 0 {
      var it := RedoOnce(c);
      if it.Continued? {
        RedoLoopContinues(c, n, it);
        RedoFailureOrigin(it.config, if RedoIsFree(it.config.lists) then n else n - 1);
      } else {
        RedoLoopStops(c, n, it);
      }
    }
  }

  /** A run of completed Redo passes: each configuration is the one the previous pass left. */
  ghost predicate RedoTrace(trace: seq<Config>) {
    trace != [] &&
    forall i :: 0 <= i < |trace| - 1 ==> RedoOnce(trace[i]).Continued? && RedoOnce(trace[i]).config == trace[i + 1]
  }

  /** The passes of a trace that advance the redo counter: those after which the redo list's index 0 is not implicit. */
  function CountedPasses(trace: seq<Config>): nat {
    if |trace| <= 1 then 0
    else (if RedoIsFree(trace[1].lists) then 0 else 1) + CountedPasses(trace[1..])
  }

  /**
   * The passes `Redo(n)` makes, as a trace from `c`: one event per pass; a call
   * that completes has made exactly `n` counted passes, the last of them
   * counted; a call that throws stops on the pass after the trace, fewer than
   * `n` passes having counted.
   */
  lemma {:induction false} RedoCountsPasses(c: Config, n: int) returns (trace: seq<Config>)
    ensures RedoTrace(trace) && trace[0] == c
    ensures n <= 0 ==> trace == [c] && RedoLoop(c, n) == (c, Pass)
    ensures n > 0 && RedoLoop(c, n).1.Pass? ==>
      |trace| >= 2 && RedoLoop(c, n).0 == Last(trace) && CountedPasses(trace) == n && !RedoIsFree(Last(trace).lists)
    ensures RedoLoop(c, n).1.Fail? ==>
      RedoOnce(Last(trace)).Stopped? && CountedPasses(trace) < n &&
      RedoLoop(c, n) == (RedoOnce(Last(trace)).config, RedoOnce(Last(trace)).outcome)
    ensures |RedoLoop(c, n).0.events| == |c.events| + |trace| - 1
    decreases |c.lists.redo|
  {
    if n <= 0 {
      trace := [c];
    } else {
      var it := RedoOnce(c);
      if it.Stopped? {
        RedoLoopStops(c, n, it);
        trace := [c];
      } else {
        var d := it.config;
        var m := if RedoIsFree(d.lists) then n else n - 1;
        RedoLoopContinues(c, n, it);
        var rest := RedoCountsPasses(d, m);
        trace := [c] + rest;
        assert trace[1..] == rest;
        assert Last(trace) == Last(rest);
        assert CountedPasses(trace) == (if RedoIsFree(d.lists) then 0 else 1) + CountedPasses(rest);
        forall i | 0 <= i < |trace| - 1
          ensures RedoOnce(trace[i]).Continued? && RedoOnce(trace[i]).config == trace[i + 1]
        {
          if i > 0 {
            assert trace[i] == rest[i - 1] && trace[i + 1] == rest[i];
          }
        }
      }
    }
  }

  /** The handler over one shared undo/redo stack. */
  class CommandHandler {
    const stack: UndoRedoStack<UndoableCommandBase>
    var events: seq<Event>

    constructor (undoRedoHandler: UndoRedoStack<UndoableCommandBase>)
      ensures stack == undoRedoHandler && events == []
    {
      stack := undoRedoHandler;
      events := [];
    }

    function View(world: World): Config
      reads this, stack, world
    {
      Config(stack.View(), events, world.log)
    }

    method RaiseOperationExecuted(item: Option<Command>, operation: CommandOperation)
      modifies this
      ensures events == old(events) + [Notice(stack.View(), item, operation)]
    {
      events := events + [Event(item, operation, stack.CanUndo(), stack.CanRedo())];
    }

    method Execute(command: Command, world: World) returns (r: Outcome<Exception>)
      requires command.Undoable? ==> CanAdd(stack.View())
      modifies this, stack, world
      ensures (View(world), r) == ExecuteStep(old(View(world)), command)
    {
      var undoable := AsUndoable(command);
      if undoable.Some? {
        stack.AddItem(undoable.value);
      }
      r := ExecuteCommand(command, Null, world);
      if r.Fail? {
        return;
      }
      RaiseOperationExecuted(Some(command), CommandOperation.Execute);
    }

    /** One pass of the `Redo(n)` loop body, up to the point where the counter is adjusted. */
    method RedoOne(world: World) returns (it: Iteration)
      modifies this, stack, world
      ensures it == RedoOnce(old(View(world))) && View(world) == it.config
    {
      var command := stack.Redo();
      if command.None? {
        return Stopped(View(world), Fail(ApplicationException(None)));
      }
      var out := world.Run(command.value.id, Forward, command.value.executeAction);
      if out.Fail? {
        return Stopped(View(world), out);
      }
      RaiseOperationExecuted(Some(Undoable(command.value)), CommandOperation.Redo);
      return Continued(View(world), command.value);
    }

    method Redo(numberOfRedos: int, world: World) returns (r: Outcome<Exception>)
      modifies this, stack, world
      ensures (View(world), r) == RedoLoop(old(View(world)), numberOfRedos)
    {
      ghost var cur := View(world);
      ghost var target := RedoLoop(cur, numberOfRedos);
      var i := 0;
      ghost var rem := numberOfRedos;
      while i < numberOfRedos
        invariant cur == View(world) && rem == numberOfRedos - i
        invariant RedoLoop(cur, rem) == target
        decreases |stack.redo|
      {
        var it := RedoOne(world);
        if it.Stopped? {
          RedoLoopStops(cur, rem, it);
          return it.outcome;
        }
        RedoLoopContinues(cur, rem, it);
        if |stack.RedoItems()| > 0 && stack.RedoItems()[0].isImplicit {
          i := i - 1;
        }
        i := i + 1;
        cur := it.config;
        rem := if RedoIsFree(it.config.lists) then rem else rem - 1;
      }
      return Pass;
    }

    /** `CanRedo()`: scans the redo list from the top for an item that is not implicit. */
    method CanRedo() returns (b: bool)
      ensures b <==> HasExplicit(stack.redo)
    {
      var redoItems := stack.RedoItems();
      var i := |redoItems| - 1;
      while i >= 0
        invariant -1 <= i < |redoItems|
        invariant forall j :: i < j < |redoItems| ==> redoItems[j].isImplicit
      {
        if !redoItems[i].isImplicit {
          return true;
        }
        i := i - 1;
      }
      return false;
    }

    /** One pass of the `Undo(n)` loop body, up to the point where the counter is adjusted. */
    method UndoOne(world: World) returns (it: Iteration)
      modifies this, stack, world
      ensures it == UndoOnce(old(View(world))) && View(world) == it.config
    {
      var command := stack.Undo();
      if command.None? {
        return Stopped(View(world), Fail(ApplicationException(None)));
      }
      var out := world.Run(command.value.id, Backward, command.value.undoAction);
      if out.Fail? {
        return Stopped(View(world), out);
      }
      RaiseOperationExecuted(Some(Undoable(command.value)), CommandOperation.Undo);
      return Continued(View(world), command.value);
    }

    method Undo(numberOfUndos: int, world: World) returns (r: Outcome<Exception>)
      modifies this, stack, world
      ensures (View(world), r) == UndoLoop(old(View(world)), numberOfUndos)
    {
      ghost var cur := View(world);
      ghost var target := UndoLoop(cur, numberOfUndos);
      var i := 0;
      ghost var rem := numberOfUndos;
      while i < numberOfUndos
        invariant cur == View(world) && rem == numberOfUndos - i
        invariant UndoLoop(cur, rem) == target
        decreases |stack.undo|
      {
        var it := UndoOne(world);
        if it.Stopped? {
          UndoLoopStops(cur, rem, it);
          return it.outcome;
        }
        UndoLoopContinues(cur, rem, it);
        if it.command.isImplicit {
          i := i - 1;
        }
        i := i + 1;
        cur := it.config;
        rem := if it.command.isImplicit then rem else rem - 1;
      }
      return Pass;
    }

    /** `CanUndo()`: scans the undo list from the top for an item that is not implicit. */
    method CanUndo() returns (b: bool)
      ensures b <==> HasExplicit(stack.undo)
    {
      var undoItems := stack.UndoItems();
      var i := |undoItems| - 1;
      while i >= 0
        invariant -1 <= i < |undoItems|
        invariant forall j :: i < j < |undoItems| ==> undoItems[j].isImplicit
      {
        if !undoItems[i].isImplicit {
          return true;
        }
        i := i - 1;
      }
      return false;
    }

    /** The stack's own undo list, the one `CanUndo()` scans. */
    function UndoItems(): (items: seq<UndoableCommandBase>)
      reads this, stack
      ensures items == stack.View().undo
      ensures HasExplicit(items) ==> stack.CanUndo()
    {
      stack.UndoItems()
    }

    /** The stack's own redo list, the one `CanRedo()` scans. */
    function RedoItems(): (items: seq<UndoableCommandBase>)
      reads this, stack
      ensures items == stack.View().redo
      ensures HasExplicit(items) ==> stack.CanRedo()
    {
      stack.RedoItems()
    }

    /** `CleanUp`: only the undoable commands are passed on; one Cleanup event with no item. */
    method CleanUp(executedCommands: seq<Command>)
      modifies this, stack
      ensures stack.View() == AfterCleanUp(old(stack.View()), UndoablesOf(executedCommands))
      ensures events == old(events) + [Notice(stack.View(), None, CommandOperation.Cleanup)]
    {
      var undoableCommands := UndoablesOf(executedCommands);
      stack.CleanUp(undoableCommands);
      RaiseOperationExecuted(None, CommandOperation.Cleanup);
    }

    /** `Reset`: both lists emptied; one Cleanup event with no item. */
    method Reset()
      modifies this, stack
      ensures stack.View() == AfterReset(old(stack.View()))
      ensures events == old(events) + [Notice(stack.View(), None, CommandOperation.Cleanup)]
    {
      stack.Reset();
      RaiseOperationExecuted(None, CommandOperation.Cleanup);
    }
  }
}
