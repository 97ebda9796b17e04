/**
 * `DelegateUndoableCommand`: an undoable command built from an execute and an
 * undo delegate, either of which the caller may pass as null, and an optional
 * display header. The delegates are the command's `Action`s.
 */
module DelegateCommands {
  import opened Wrappers
  import opened Commands

  /**
   * The four-argument constructor. The base constructor sets the flag; then
   * a null `executeAction` is rejected first, a null `undoAction` second.
   */
  function NewDelegateCommand(id: nat, executeAction: Option<Action>, undoAction: Option<Action>, isImplicit: bool, header: Option<string>): (r: Result<UndoableCommandBase, Exception>)
    ensures executeAction.None? ==> r == Failure(ArgumentNullException("executeAction"))
    ensures executeAction.Some? && undoAction.None? ==> r == Failure(ArgumentNullException("undoAction"))
    ensures r.Success? <==> executeAction.Some? && undoAction.Some?
    ensures r.Success? ==> r.value.Delegate? && r.value.id == id && r.value.isImplicit == isImplicit
    ensures r.Success? ==> r.value.executeAction == executeAction.value && r.value.undoAction == undoAction.value
    ensures r.Success? ==> r.value.header == header
  {
    if executeAction.None? then Failure(ArgumentNullException("executeAction"))
    else if undoAction.None? then Failure(ArgumentNullException("undoAction"))
    else Success(Delegate(id, isImplicit, executeAction.value, undoAction.value, header))
  }

  /** The three-argument constructor: no header. */
  function NewDelegateCommandWithFlag(id: nat, executeAction: Option<Action>, undoAction: Option<Action>, isImplicit: bool): (r: Result<UndoableCommandBase, Exception>)
    ensures executeAction.None? ==> r == Failure(ArgumentNullException("executeAction"))
    ensures executeAction.Some? && undoAction.None? ==> r == Failure(ArgumentNullException("undoAction"))
    ensures r.Success? <==> executeAction.Some? && undoAction.Some?
    ensures r.Success? ==> r.value.Delegate? && r.value.isImplicit == isImplicit && r.value.header.None?
  {
    NewDelegateCommand(id, executeAction, undoAction, isImplicit, None)
  }

  /** The two-argument constructor: an explicit command with no header. */
  function NewExplicitDelegateCommand(id: nat, executeAction: Option<Action>, undoAction: Option<Action>): (r: Result<UndoableCommandBase, Exception>)
    ensures executeAction.None? ==> r == Failure(ArgumentNullException("executeAction"))
    ensures executeAction.Some? && undoAction.None? ==> r == Failure(ArgumentNullException("undoAction"))
    ensures r.Success? <==> executeAction.Some? && undoAction.Some?
    ensures r.Success? ==> r.value.Delegate? && !r.value.isImplicit && r.value.header.None?
  {
    NewDelegateCommandWithFlag(id, executeAction, undoAction, false)
  }

  /**
   * `ToString()`: the header unless it is null or empty, otherwise the name of
   * the method behind the execute delegate.
   */
  function ToString(c: UndoableCommandBase): string
    requires c.Delegate?
  {
    if c.header.None? || c.header.value == "" then c.executeAction.name else c.header.value
  }

  /** A command given a non-empty header displays it; one without a header displays its execute method's name. */
  lemma ToStringOfNew(id: nat, e: Action, u: Action, isImplicit: bool, header: Option<string>)
    ensures NewDelegateCommand(id, Some(e), Some(u), isImplicit, header).Success?
    ensures var s := ToString(NewDelegateCommand(id, Some(e), Some(u), isImplicit, header).value);
      (header.Some? && header.value != "" ==> s == header.value) &&
      (header.None? || header.value == "" ==> s == e.name)
  {
  }

  /** The two- and three-argument constructors display the execute method's name. */
  lemma ToStringWithoutHeader(id: nat, e: Action, u: Action, isImplicit: bool)
    ensures NewDelegateCommandWithFlag(id, Some(e), Some(u), isImplicit).Success?
    ensures ToString(NewDelegateCommandWithFlag(id, Some(e), Some(u), isImplicit).value) == e.name
    ensures ToString(NewExplicitDelegateCommand(id, Some(e), Some(u)).value) == e.name
  {
  }

  /** `Execute()`: invokes the execute delegate once. */
  method Execute(c: UndoableCommandBase, world: World) returns (r: Outcome<Exception>)
    requires c.Delegate?
    modifies world
    ensures (world.log, r) == Invoke(old(world.log), c.id, Forward, c.executeAction)
  {
    r := world.Run(c.id, Forward, c.executeAction);
  }

  /** `Undo()`: invokes the undo delegate once. */
  method Undo(c: UndoableCommandBase, world: World) returns (r: Outcome<Exception>)
    requires c.Delegate?
    modifies world
    ensures (world.log, r) == Invoke(old(world.log), c.id, Backward, c.undoAction)
  {
    r := world.Run(c.id, Backward, c.undoAction);
  }

  /** The test's command over a local `number`: `number++` to execute, `number--` to undo. */
  function CounterDelegates(id: nat): (r: Result<UndoableCommandBase, Exception>)
    ensures r.Success? && r.value.Delegate? && !r.value.isImplicit
    ensures r.value.executeAction.delta == 1 && r.value.undoAction.delta == -1
    ensures r.value.executeAction.failure.None? && r.value.undoAction.failure.None?
  {
    NewExplicitDelegateCommand(id, Some(Action("<lambda>", 1, None)), Some(Action("<lambda>", -1, None)))
  }

  /** Build the counter command, execute it twice and undo it once: the number reads 2, then 1. */
  method ExecuteTwiceUndoOnce() returns (afterExecutes: int, afterUndo: int)
    ensures afterExecutes == 2 && afterUndo == 1
  {
    var world := new World();
    var command := CounterDelegates(1).value;
    var _ := Execute(command, world);
    NetEffectSnoc([], world.log[0]);
    ghost var once := world.log;
    var _ := Execute(command, world);
    NetEffectSnoc(once, world.log[1]);
    afterExecutes := NetEffect(world.log);
    ghost var twice := world.log;
    var _ := Undo(command, world);
    NetEffectSnoc(twice, world.log[2]);
    afterUndo := NetEffect(world.log);
  }
}
