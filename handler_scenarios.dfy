/**
 * The handler's unit and acceptance tests, replayed on the model: each method
 * builds a fresh stack, handler and application world, drives them through
 * the handler's own methods and states the values the tests observe.
 */
module HandlerScenarios {
  import opened Wrappers
  import opened ListOps
  import opened Commands
  import opened UndoRedo
  import opened Handler

  /** The tests' `MyTestCommand`: records that it ran, and throws on execute when asked to. */
  function MyTestCommand(id: nat, throwExceptionOnExecuting: bool): (c: UndoableCommandBase)
    ensures !c.isImplicit && c.id == id && c.undoAction.failure.None?
    ensures c.executeAction.failure.Some? <==> throwExceptionOnExecuting
  {
    var failure := if throwExceptionOnExecuting then Some(ApplicationException(Some("Something went wrong"))) else None;
    NewCommandBase(id, Action("Execute", 0, failure), Action("Undo", 0, None))
  }

  /** The first `k` counter commands, in the order executed. */
  function AddOnes(k: nat): (s: seq<UndoableCommandBase>)
    ensures |s| == k && AllAddOne(s)
  {
    if k == 0 then [] else AddOnes(k - 1) + [AddOne(k - 1)]
  }

  /** The tests' `for` loop executing `n` fresh counter commands on an empty stack of the default capacity. */
  method ExecuteAddOnes(handler: CommandHandler, world: World, n: nat)
    requires n <= DefaultMaxStackSize
    requires handler.stack.View() == Stacks([], [], DefaultMaxStackSize) && world.log == []
    modifies handler, handler.stack, world
    ensures handler.stack.View() == Stacks(AddOnes(n), [], DefaultMaxStackSize)
    ensures NetEffect(world.log) == n
  {
    var k := 0;
    while k < n
      invariant 0 <= k <= n
      invariant handler.stack.View() == Stacks(AddOnes(k), [], DefaultMaxStackSize)
      invariant NetEffect(world.log) == k
    {
      ghost var before := world.log;
      var _ := handler.Execute(Undoable(AddOne(k)), world);
      NetEffectSnoc(before, Invocation(k, Forward, AddOne(k).executeAction));
      k := k + 1;
    }
  }

  /** Ten counter commands more than the default capacity: the undo list holds exactly the capacity. */
  method ExecuteBeyondCapacity() returns (undoCount: nat)
    ensures undoCount == DefaultMaxStackSize
  {
    var stack := new UndoRedoStack<UndoableCommandBase>();
    var handler := new CommandHandler(stack);
    var world := new World();
    var empty := Stacks([], [], DefaultMaxStackSize);
    var k := 0;
    while k < DefaultMaxStackSize + 10
      invariant 0 <= k <= DefaultMaxStackSize + 10
      invariant handler.stack == stack
      invariant stack.View() == AddAll(empty, AddOnes(k))
    {
      var _ := handler.Execute(Undoable(AddOne(k)), world);
      assert AddOnes(k + 1)[..k] == AddOnes(k);
      k := k + 1;
    }
    AddAllKeepsNewest(empty, AddOnes(k));
    undoCount := |handler.UndoItems()|;
  }

  /** `Undo(3)` then `Redo(2)` after five counter commands, on the handler's configurations. */
  lemma UndoThreeRedoTwo(c: Config)
    requires c.lists == Stacks(AddOnes(5), [], DefaultMaxStackSize) && NetEffect(c.log) == 5
    ensures NetEffect(UndoLoop(c, 3).0.log) == 2
    ensures NetEffect(RedoLoop(UndoLoop(c, 3).0, 2).0.log) == 4
  {
    UndoAddOnes(c, 3);
    RedoAddOnes(UndoLoop(c, 3).0, 2);
  }

  /** `Undo()` then `Redo()` after one counter command, on the handler's configurations. */
  lemma UndoOnceRedoOnce(c: Config)
    requires c.lists == Stacks(AddOnes(1), [], DefaultMaxStackSize) && NetEffect(c.log) == 1
    ensures NetEffect(UndoLoop(c, 1).0.log) == 0
    ensures NetEffect(RedoLoop(UndoLoop(c, 1).0, 1).0.log) == 1
  {
    UndoAddOnes(c, 1);
    RedoAddOnes(UndoLoop(c, 1).0, 1);
  }

  /** Five counter commands, then `Undo(3)`, then `Redo(2)`: the counter reads 5, 2 and 4. */
  method UndoAndRedoMultipleLevels() returns (afterExecutes: int, afterUndo: int, afterRedo: int)
    ensures afterExecutes == 5 && afterUndo == 2 && afterRedo == 4
  {
    var stack := new UndoRedoStack<UndoableCommandBase>();
    var handler := new CommandHandler(stack);
    var world := new World();
    ExecuteAddOnes(handler, world, 5);
    afterExecutes := NetEffect(world.log);
    UndoThreeRedoTwo(handler.View(world));
    var _ := handler.Undo(3, world);
    afterUndo := NetEffect(world.log);
    var _ := handler.Redo(2, world);
    afterRedo := NetEffect(world.log);
  }

  /** Start at 1; one counter command, `Undo()`, `Redo()`: the counter reads 2, 1 and 2. */
  method UndoAndRedoActions() returns (afterExecute: int, afterUndo: int, afterRedo: int)
    ensures afterExecute == 2 && afterUndo == 1 && afterRedo == 2
  {
    var stack := new UndoRedoStack<UndoableCommandBase>();
    var handler := new CommandHandler(stack);
    var world := new World();
    ExecuteAddOnes(handler, world, 1);
    afterExecute := 1 + NetEffect(world.log);
    UndoOnceRedoOnce(handler.View(world));
    var _ := handler.Undo(1, world);
    afterUndo := 1 + NetEffect(world.log);
    var _ := handler.Redo(1, world);
    afterRedo := 1 + NetEffect(world.log);
  }

  /** One counter command undone; a second `Undo()` throws `ApplicationException` and the counter stays 0. */
  method UndoingTwiceThrows() returns (number: int, second: Outcome<Exception>)
    ensures number == 0 && second == Fail(ApplicationException(None))
  {
    var stack := new UndoRedoStack<UndoableCommandBase>();
    var handler := new CommandHandler(stack);
    var world := new World();
    ExecuteAddOnes(handler, world, 1);
    UndoAddOnes(handler.View(world), 1);
    var _ := handler.Undo(1, world);
    UndoOnEmptyThrows(handler.View(world), 1);
    second := handler.Undo(1, world);
    number := NetEffect(world.log);
  }

  /** A command that throws on execute: the exception comes back, the command stays on the undo list, no event fires. */
  method ExecuteRethrows() returns (r: Outcome<Exception>, undoItems: seq<UndoableCommandBase>, fired: nat, ran: bool)
    ensures r == Fail(ApplicationException(Some("Something went wrong")))
    ensures undoItems == [MyTestCommand(1, true)] && fired == 0 && ran
  {
    var stack := new UndoRedoStack<UndoableCommandBase>();
    var handler := new CommandHandler(stack);
    var world := new World();
    r := handler.Execute(Undoable(MyTestCommand(1, true)), world);
    undoItems := handler.UndoItems();
    fired := |handler.events|;
    ran := world.log == [Invocation(1, Forward, MyTestCommand(1, true).executeAction)];
  }

  /** A command that is not undoable runs but is not added to the stack. */
  method NonUndoableIsNotAdded() returns (undoItems: seq<UndoableCommandBase>, ran: bool, fired: seq<Event>)
    ensures undoItems == [] && ran
    ensures fired == [Event(Some(Plain(1, Action("Execute", 0, None))), CommandOperation.Execute, false, false)]
  {
    var stack := new UndoRedoStack<UndoableCommandBase>();
    var handler := new CommandHandler(stack);
    var world := new World();
    var command := Plain(1, Action("Execute", 0, None));
    var _ := handler.Execute(command, world);
    undoItems := handler.UndoItems();
    ran := world.log == [Invocation(1, Forward, command.action)];
    fired := handler.events;
  }

  /** `Undo()` over `[t1, t2, t3]` with `t3` explicit, distinct from the others and undoing cleanly leaves `[t1, t2]`. */
  lemma UndoTopOfThree(c: Config, t1: UndoableCommandBase, t2: UndoableCommandBase, t3: UndoableCommandBase)
    requires c.lists.undo == [t1, t2, t3] && t3 != t1 && t3 != t2
    requires !t3.isImplicit && t3.undoAction.failure.None?
    ensures UndoLoop(c, 1).0.lists.undo == [t1, t2]
    ensures |UndoLoop(c, 1).0.lists.redo| == |c.lists.redo| + 1
    ensures UndoLoop(c, 1).0.log == c.log + [Invocation(t3.id, Backward, t3.undoAction)]
  {
    var s := c.lists.undo;
    assert Last(s) == t3;
    assert s[..|s| - 1] == [t1, t2];
    assert Pop(s).1 == [t1, t2];
    assert AfterUndo(c.lists).1.undo == [t1, t2];
    UndoOneExplicit(c);
  }

  /** `Undo()` twice over three of the tests' commands leaves two items to redo. */
  lemma UndoTwiceOverThree(c: Config)
    requires c.lists == Stacks([MyTestCommand(1, false), MyTestCommand(2, false), MyTestCommand(3, false)], [], DefaultMaxStackSize)
    ensures |UndoLoop(UndoLoop(c, 1).0, 1).0.lists.redo| == 2
  {
    UndoTopOfThree(c, MyTestCommand(1, false), MyTestCommand(2, false), MyTestCommand(3, false));
    var d := UndoLoop(c, 1).0;
    assert Last(d.lists.undo) == MyTestCommand(2, false);
    UndoOneExplicit(d);
  }

  /** One undoable command executed on a stack of the default capacity with room left and nothing to redo. */
  method ExecuteOne(handler: CommandHandler, world: World, u: UndoableCommandBase)
    requires handler.stack.View() == Stacks(handler.stack.undo, [], DefaultMaxStackSize)
    requires |handler.stack.undo| < DefaultMaxStackSize
    modifies handler, handler.stack, world
    ensures handler.stack.View() == Stacks(old(handler.stack.undo) + [u], [], DefaultMaxStackSize)
  {
    var _ := handler.Execute(Undoable(u), world);
  }

  /** Executes undoable commands one after the other on an empty stack of the default capacity. */
  method ExecuteAll(handler: CommandHandler, world: World, commands: seq<UndoableCommandBase>)
    requires |commands| <= DefaultMaxStackSize
    requires handler.stack.View() == Stacks([], [], DefaultMaxStackSize)
    modifies handler, handler.stack, world
    ensures handler.stack.View() == Stacks(commands, [], DefaultMaxStackSize)
  {
    var k := 0;
    while k < |commands|
      invariant 0 <= k <= |commands|
      invariant handler.stack.View() == Stacks(commands[..k], [], DefaultMaxStackSize)
    {
      ExecuteOne(handler, world, commands[k]);
      assert commands[..k + 1] == commands[..k] + [commands[k]];
      k := k + 1;
    }
    assert commands[..k] == commands;
  }

  /** Two of the tests' commands executed: two undo items. */
  method AvailableUndoItems() returns (undoCount: nat)
    ensures undoCount == 2
  {
    var stack := new UndoRedoStack<UndoableCommandBase>();
    var handler := new CommandHandler(stack);
    var world := new World();
    ExecuteAll(handler, world, [MyTestCommand(1, false), MyTestCommand(2, false)]);
    undoCount := |handler.UndoItems()|;
  }

  /** Three of the tests' commands executed and two undone: two redo items. */
  method AvailableRedoItems() returns (redoCount: nat)
    ensures redoCount == 2
  {
    var stack := new UndoRedoStack<UndoableCommandBase>();
    var handler := new CommandHandler(stack);
    var world := new World();
    ExecuteAll(handler, world, [MyTestCommand(1, false), MyTestCommand(2, false), MyTestCommand(3, false)]);
    UndoTwiceOverThree(handler.View(world));
    var _ := handler.Undo(1, world);
    var _ := handler.Undo(1, world);
    redoCount := |handler.RedoItems()|;
  }

  /** A command that is only implicit: the tests' commands with the flag set and no effect. */
  function ImplicitCommand(id: nat): (c: UndoableCommandBase)
    ensures c.isImplicit && c.id == id && c.executeAction.failure.None? && c.undoAction.failure.None?
  {
    NewImplicitCommandBase(id, true, Action("Execute", 0, None), Action("Undo", 0, None))
  }

  /** The configuration after one `Undo` iteration that pops `t` off `s + [t]` and undoes it cleanly. */
  function UndoneTop(c: Config, s: seq<UndoableCommandBase>, t: UndoableCommandBase): Config {
    var lists := Stacks(s, c.lists.redo + [t], c.lists.maxStackSize);
    Config(lists, c.events + [Notice(lists, Some(Undoable(t)), CommandOperation.Undo)], c.log + [Invocation(t.id, Backward, t.undoAction)])
  }

  /** The configuration after one `Redo` iteration that pops `t` off `s + [t]` and re-executes it cleanly. */
  function RedoneTop(c: Config, s: seq<UndoableCommandBase>, t: UndoableCommandBase): Config {
    var lists := Stacks(c.lists.undo + [t], s, c.lists.maxStackSize);
    Config(lists, c.events + [Notice(lists, Some(Undoable(t)), CommandOperation.Redo)], c.log + [Invocation(t.id, Forward, t.executeAction)])
  }

  /** `Undo(n)` from `s + [t]` is `Undo` from `UndoneTop`, with `n` counted down unless `t` is implicit. */
  lemma UndoLoopTopOf(c: Config, s: seq<UndoableCommandBase>, t: UndoableCommandBase, n: int)
    requires c.lists.undo == s + [t] && t !in s && t.undoAction.failure.None? && n > 0
    ensures UndoLoop(c, n) == UndoLoop(UndoneTop(c, s, t), if t.isImplicit then n else n - 1)
  {
    var u := c.lists.undo;
    assert Last(u) == t;
    assert u[..|u| - 1] == s;
    var it := UndoOnce(c);
    assert it == Continued(UndoneTop(c, s, t), t);
    UndoLoopContinues(c, n, it);
  }

  /** `Redo(n)` from `s + [t]` is `Redo` from `RedoneTop`, with `n` counted down unless the rest starts implicit. */
  lemma RedoLoopTopOf(c: Config, s: seq<UndoableCommandBase>, t: UndoableCommandBase, n: int)
    requires c.lists.redo == s + [t] && t !in s && t.executeAction.failure.None? && n > 0
    ensures RedoLoop(c, n) == RedoLoop(RedoneTop(c, s, t), if RedoIsFree(RedoneTop(c, s, t).lists) then n else n - 1)
  {
    var u := c.lists.redo;
    assert Last(u) == t;
    assert u[..|u| - 1] == s;
    var it := RedoOnce(c);
    assert it == Continued(RedoneTop(c, s, t), t);
    RedoLoopContinues(c, n, it);
  }

  /**
   * An explicit command with an implicit one executed after it: `Undo()` undoes
   * both, the implicit one first, and the count of one is met by the explicit one.
   */
  lemma ImplicitRidesAlong(c: Config, x: UndoableCommandBase, y: UndoableCommandBase)
    requires c.lists.undo == [x, y] && !x.isImplicit && y.isImplicit && x != y
    requires x.undoAction.failure.None? && y.undoAction.failure.None?
    ensures UndoLoop(c, 1) == (UndoneTop(UndoneTop(c, [x], y), [], x), Pass)
    ensures UndoLoop(c, 1).0.lists == Stacks([], c.lists.redo + [y, x], c.lists.maxStackSize)
  {
    var c1 := UndoneTop(c, [x], y);
    var c2 := UndoneTop(c1, [], x);
    assert UndoLoop(c2, 0) == (c2, Pass);
    assert c1.lists.undo == [] + [x];
    UndoLoopTopOf(c1, [], x, 1);
    UndoLoopTopOf(c, [x], y, 1);
    AppendTwo(c.lists.redo, y, x);
  }

  /**
   * The redo loop's test looks at index 0: with `x1`, implicit `y` and `x2`
   * executed and all undone, the redo list is `[x2, y, x1]` and `Redo()`
   * redoes `x1` alone, since the element left at index 0, `x2`, is explicit,
   * and leaves `y`, the implicit command executed right after `x1`, on the
   * redo list.
   */
  lemma RedoLeavesImplicitBehind(c: Config, x1: UndoableCommandBase, y: UndoableCommandBase, x2: UndoableCommandBase)
    requires c.lists.undo == [] && c.lists.redo == [x2, y, x1]
    requires y.isImplicit && !x2.isImplicit && x1 != x2 && x1 != y
    requires x1.executeAction.failure.None?
    ensures RedoLoop(c, 1).1 == Pass
    ensures RedoLoop(c, 1).0.lists == Stacks([x1], [x2, y], c.lists.maxStackSize)
  {
    var d := RedoneTop(c, [x2, y], x1);
    assert d.lists.undo == [x1];
    assert !RedoIsFree(d.lists);
    assert RedoLoop(d, 0) == (d, Pass);
    assert c.lists.redo == [x2, y] + [x1];
    RedoLoopTopOf(c, [x2, y], x1, 1);
  }

  /** Only an implicit command executed: the handler cannot undo, although the stack can. */
  method OnlyImplicitCannotUndo() returns (handlerCanUndo: bool, stackCanUndo: bool)
    ensures !handlerCanUndo && stackCanUndo
  {
    var stack := new UndoRedoStack<UndoableCommandBase>();
    var handler := new CommandHandler(stack);
    var world := new World();
    var _ := handler.Execute(Undoable(ImplicitCommand(1)), world);
    handlerCanUndo := handler.CanUndo();
    stackCanUndo := stack.CanUndo();
  }

  /** An implicit command executed over one counter command, then `Undo()`, on the handler's configurations. */
  lemma UndoCounterAndImplicit(c: Config)
    requires c.lists == Stacks(AddOnes(1), [], DefaultMaxStackSize) && NetEffect(c.log) == 1
    ensures CanAdd(c.lists)
    ensures NetEffect(ExecuteStep(c, Undoable(ImplicitCommand(1))).0.log) == 1
    ensures UndoLoop(ExecuteStep(c, Undoable(ImplicitCommand(1))).0, 1).0.lists.undo == []
    ensures NetEffect(UndoLoop(ExecuteStep(c, Undoable(ImplicitCommand(1))).0, 1).0.log) == 0
  {
    var x, y := AddOne(0), ImplicitCommand(1);
    assert AddOnes(1) == [x];
    var d := ExecuteStep(c, Undoable(y)).0;
    assert d.lists.undo == [x, y];
    NetEffectSnoc(c.log, Invocation(y.id, Forward, y.executeAction));
    ImplicitRidesAlong(d, x, y);
    var d1 := UndoneTop(d, [x], y);
    NetEffectSnoc(d.log, Invocation(y.id, Backward, y.undoAction));
    NetEffectSnoc(d1.log, Invocation(x.id, Backward, x.undoAction));
  }

  /** A counter command, then an implicit command, then `Undo()`: both are undone and the counter is back at 0. */
  method UndoTakesImplicitAlong() returns (afterExecute: int, undoItems: seq<UndoableCommandBase>, number: int)
    ensures afterExecute == 1 && undoItems == [] && number == 0
  {
    var stack := new UndoRedoStack<UndoableCommandBase>();
    var handler := new CommandHandler(stack);
    var world := new World();
    ExecuteAddOnes(handler, world, 1);
    UndoCounterAndImplicit(handler.View(world));
    var _ := handler.Execute(Undoable(ImplicitCommand(1)), world);
    afterExecute := NetEffect(world.log);
    var _ := handler.Undo(1, world);
    undoItems := handler.UndoItems();
    number := NetEffect(world.log);
  }
}
