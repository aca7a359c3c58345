/**
 * Client programs of the change-scope guard, written the way the templating
 * code is meant to use it: every opened scope is closed, in LIFO order, by
 * `commit` or `abort`.
 */
module Nesting {
  import opened Host
  import opened ChangeScope

  /** Which of the two closing operations ends a scope. */
  datatype Close = ByCommit | ByAbort

  /**
   * A properly nested unit of work: open a scope for `saveable` under
   * `context`, run the nested units of `body`, then close the scope.
   */
  datatype Block = Block(saveable: Saveable?, context: object?, body: seq<Block>, close: Close)

  /**
   * Running one nested unit of work closes every scope it opens and leaves
   * the current slot and the stack as they were; no close fails.
   */
  method RunBlock(registry: Registry, block: Block) returns (o: Outcome)
    requires registry.Valid()
    modifies registry
    ensures registry.Valid() && o == Ok
    ensures registry.current == old(registry.current) && registry.stack == old(registry.stack)
    decreases block, 1
  {
    var scope := new Scope(registry, block.saveable, block.context);
    var inner := RunBlocks(registry, block.body);
    match block.close
    case ByCommit => o := scope.Commit();
    case ByAbort => o := scope.Abort();
  }

  /** Running a sequence of nested units one after another also restores the slot and the stack. */
  method RunBlocks(registry: Registry, blocks: seq<Block>) returns (o: Outcome)
    requires registry.Valid()
    modifies registry
    ensures registry.Valid() && o == Ok
    ensures registry.current == old(registry.current) && registry.stack == old(registry.stack)
    decreases blocks, 0
  {
    o := Ok;
    for i := 0 to |blocks|
      invariant registry.Valid() && o == Ok
      invariant registry.current == old(registry.current) && registry.stack == old(registry.stack)
    {
      o := RunBlock(registry, blocks[i]);
    }
  }

  /**
   * Two scopes under one context, the inner one for another job: the outer
   * job stays covered while the inner scope is open (the walk follows the
   * parent link), is never covered under another context, and is no longer
   * covered once both scopes are committed, when no scope is current.
   * Contexts are arbitrary objects; fresh saveables serve as contexts here.
   */
  method NestedScopes() returns (outer: bool, otherContext: bool, outerWhileNested: bool, afterClose: bool, none: bool)
    ensures outer && !otherContext && outerWhileNested && !afterClose && none
  {
    var registry := new Registry();
    var job1 := new Saveable();
    var job2 := new Saveable();
    var ctx1 := new Saveable();
    var ctx2 := new Saveable();
    var a := new Scope(registry, job1, ctx1);
    outer := registry.Contains(job1, ctx1);
    otherContext := registry.Contains(job1, ctx2);
    var b := new Scope(registry, job2, ctx1);
    assert Matches(registry.stack[0], registry.all, job1, ctx1);
    outerWhileNested := registry.Contains(job1, ctx1);
    var closedB := b.Commit();
    var closedA := a.Commit();
    afterClose := registry.Contains(job1, ctx1);
    none := registry.Current() == null;
  }

  /** A scope for the sentinel vetoes the save of a job it never names, under its own context only. */
  method SentinelScope() returns (vetoed: bool, otherContext: bool)
    ensures vetoed && !otherContext
  {
    var registry := new Registry();
    var ctx1 := new Saveable();
    var ctx2 := new Saveable();
    var veto := new Scope(registry, registry.all, ctx1);
    var anyJob := new Saveable();
    vetoed := registry.Contains(anyJob, ctx1);
    otherContext := registry.Contains(anyJob, ctx2);
  }

  /**
   * The try/finally idiom: `abort` after `commit` does nothing, and the slot
   * is back to empty.
   */
  method CommitThenAbort() returns (committed: Outcome, aborted: Outcome, none: bool)
    ensures committed == Ok && aborted == Ok && none
  {
    var registry := new Registry();
    var job := new Saveable();
    var ctx := new Saveable();
    var scope := new Scope(registry, job, ctx);
    committed := scope.Commit();
    aborted := scope.Abort();
    none := registry.Current() == null;
  }

  /**
   * Committing the outer of two open scopes first fails with the assertion
   * error and leaves the inner scope current; but the outer scope is already
   * marked completed, so after the inner one is closed the outer one can no
   * longer be popped: it stays current and keeps covering its job.
   */
  method MisorderedClose() returns (first: Outcome, inner: Outcome, retry: Outcome, stuck: bool, stillCovered: bool)
    ensures first == AssertionError(NotInScopeMessage) && inner == Ok && retry == Ok && stuck && stillCovered
  {
    var registry := new Registry();
    var job1 := new Saveable();
    var job2 := new Saveable();
    var ctx := new Saveable();
    var a := new Scope(registry, job1, ctx);
    var b := new Scope(registry, job2, ctx);
    first := a.Commit();
    inner := b.Commit();
    retry := a.Commit();
    stuck := registry.Current() == a;
    assert Matches(registry.stack[0], registry.all, job1, ctx);
    stillCovered := registry.Contains(job1, ctx);
  }
}
