/**
 * The change-scope guard of the templating plugin (`EzTemplateChange`): a stack
 * of "in scope" records, linked by `parent` references, that tells the save
 * path whether a (saveable, context) pair is already being handled further up
 * the call stack.
 *
 * The thread-local slot `INSCOPE` and the static sentinel `ALL` become the
 * fields `current` and `all` of one `Registry` object, which stands for the
 * state of a single thread. The registry also carries a ghost `stack` of the
 * open records, bottom first; its invariant is that the `parent` links,
 * followed from `current`, spell out exactly that stack.
 */
module ChangeScope {
  import opened Host

  /** The message of the assertion error raised by a mis-ordered close. */
  const NotInScopeMessage := "Trying to save BulkChange that's not in scope"

  /** How closing a scope ends: normally, or with the source's `AssertionError`. */
  datatype Outcome = Ok | AssertionError(message: string)

  /** The top of a stack of scopes, or `null` when it is empty. */
  function Top(stack: seq<Scope>): (top: Scope?) {
    if stack == [] then null else stack[|stack| - 1]
  }

  /**
   * Following `parent` links from `b` visits the elements of `stack` from the
   * last to the first and then reaches `null`.
   */
  ghost predicate ChainFrom(b: Scope?, stack: seq<Scope>)
    decreases |stack|
  {
    if stack == [] then b == null
    else b == stack[|stack| - 1] && ChainFrom(b.parent, stack[..|stack| - 1])
  }

  /** The parent chain of a scope determines its stack: there is only one. */
  lemma {:induction false} ChainUnique(b: Scope?, s1: seq<Scope>, s2: seq<Scope>)
    requires ChainFrom(b, s1) && ChainFrom(b, s2)
    ensures s1 == s2
    decreases |s1|
  {
    if s1 != [] {
      assert s2 != [];
      ChainUnique(b.parent, s1[..|s1| - 1], s2[..|s2| - 1]);
      assert s1 == s1[..|s1| - 1] + [b];
      assert s2 == s2[..|s2| - 1] + [b];
    }
  }

  /** Every prefix of a chained stack is itself chained from its own top. */
  lemma {:induction false} ChainPrefix(b: Scope?, stack: seq<Scope>, k: nat)
    requires ChainFrom(b, stack) && k <= |stack|
    ensures ChainFrom(Top(stack[..k]), stack[..k])
    decreases |stack|
  {
    if k < |stack| {
      var rest := stack[..|stack| - 1];
      assert rest[..k] == stack[..k];
      ChainPrefix(b.parent, rest, k);
    } else {
      assert stack[..k] == stack;
    }
  }

  /**
   * A chained stack holds no scope twice, so the parent chain from its top is
   * acyclic and the walk in `Contains` reaches `null`.
   */
  lemma {:induction false} ChainAcyclic(b: Scope?, stack: seq<Scope>)
    requires ChainFrom(b, stack)
    ensures forall i, j :: 0 <= i < j < |stack| ==> stack[i] != stack[j]
  {
    forall i, j | 0 <= i < j < |stack|
      ensures stack[i] != stack[j]
    {
      ChainPrefix(b, stack, i + 1);
      ChainPrefix(b, stack, j + 1);
      if stack[i] == stack[j] {
        ChainUnique(stack[i], stack[..i + 1], stack[..j + 1]);
      }
    }
  }

  /**
   * The test in `contains`: scope `b` covers saveable `s` under context `c`
   * when it has that very context and either that very saveable or the
   * sentinel `all`. Both comparisons are by identity.
   */
  predicate Matches(b: Scope, all: Saveable, s: Saveable?, c: object?) {
    b.context == c && (b.saveable == s || b.saveable == all)
  }

  /** Some scope of `stack` covers `s` under `c`. */
  ghost predicate Covered(stack: seq<Scope>, all: Saveable, s: Saveable?, c: object?) {
    exists i :: 0 <= i < |stack| && Matches(stack[i], all, s, c)
  }

  /** Pushing a scope adds exactly what that scope covers. */
  lemma CoveredPush(stack: seq<Scope>, b: Scope, all: Saveable, s: Saveable?, c: object?)
    ensures Covered(stack + [b], all, s, c) <==> Covered(stack, all, s, c) || Matches(b, all, s, c)
  {
    var pushed := stack + [b];
    if Covered(pushed, all, s, c) {
      var i :| 0 <= i < |pushed| && Matches(pushed[i], all, s, c);
      if i < |stack| {
        assert Matches(stack[i], all, s, c);
      }
    }
    if Covered(stack, all, s, c) {
      var i :| 0 <= i < |stack| && Matches(stack[i], all, s, c);
      assert pushed[i] == stack[i];
    }
    if Matches(b, all, s, c) {
      assert pushed[|stack|] == b;
    }
  }

  /** Scopes under other contexts never cover anything under `c`, whatever their saveable. */
  lemma ContextSeparation(stack: seq<Scope>, all: Saveable, s: Saveable?, c: object?)
    requires forall i :: 0 <= i < |stack| ==> stack[i].context != c
    ensures !Covered(stack, all, s, c)
  {
  }

  /** A scope whose saveable is the sentinel covers every saveable under its context. */
  lemma SentinelCoversAll(stack: seq<Scope>, all: Saveable, k: nat, c: object?)
    requires k < |stack| && stack[k].saveable == all && stack[k].context == c
    ensures forall s: Saveable? :: Covered(stack, all, s, c)
  {
    forall s: Saveable? ensures Covered(stack, all, s, c) {
      assert Matches(stack[k], all, s, c);
    }
  }

  /**
   * The per-thread state of the guard: the slot `INSCOPE`, the sentinel `ALL`
   * and, as ghost state, the stack of scopes the slot's parent chain spells.
   */
  class Registry {
    /** The sentinel saveable that vetoes every save within its context. */
    const all: Saveable
    /** The scope in effect, `INSCOPE.get()`; `null` when none is open. */
    var current: Scope?
    /** The open scopes, outermost first. */
    ghost var stack: seq<Scope>

    ghost predicate Valid()
      reads this
    {
      ChainFrom(current, stack)
    }

    /** A thread's slot starts empty. */
    constructor ()
      ensures Valid() && current == null && stack == [] && fresh(all)
    {
      all := new Saveable();
      current := null;
      stack := [];
    }

    /** `current()`: the innermost open scope, or `null` when none is open. */
    function Current(): (r: Scope?)
      reads this
      requires Valid()
      ensures r == Top(stack)
      ensures r == null <==> stack == []
    {
      current
    }

    /** What `contains(s, c)` reports, stated over the open scopes. */
    ghost predicate InScope(s: Saveable?, c: object?)
      reads this
    {
      Covered(stack, all, s, c)
    }

    /**
     * `contains(s, c)`: walks the parent chain from the current scope and
     * reports whether some open scope covers `s` under `c`.
     */
    method Contains(s: Saveable?, c: object?) returns (found: bool)
      requires Valid()
      ensures found <==> InScope(s, c)
    {
      var b := current;
      ghost var k: nat := |stack|;
      assert stack[..k] == stack;
      while b != null
        invariant k <= |stack|
        invariant ChainFrom(b, stack[..k])
        invariant forall i :: k <= i < |stack| ==> !Matches(stack[i], all, s, c)
        decreases k
      {
        assert b == stack[k - 1];
        if Matches(b, all, s, c) {
          return true;
        }
        assert stack[..k][..k - 1] == stack[..k - 1];
        b := b.parent;
        k := k - 1;
      }
      return false;
    }
  }

  /**
   * One record of the guard (`EzTemplateChange`): the saveable and context it
   * tracks, the scope that was current when it was opened, and whether it has
   * been committed or aborted. The allocation stack trace is not kept.
   */
  class Scope {
    const registry: Registry
    const saveable: Saveable?
    const context: object?
    const parent: Scope?
    var completed: bool

    /** Opening a scope pushes it: it becomes current, with the old current as its parent. */
    constructor (registry: Registry, saveable: Saveable?, context: object?)
      requires registry.Valid()
      modifies registry
      ensures registry.Valid()
      ensures this.registry == registry && this.saveable == saveable && this.context == context
      ensures parent == old(registry.current) && !completed
      ensures registry.current == this
      ensures registry.stack == old(registry.stack) + [this]
      ensures forall s, c :: registry.InScope(s, c) <==> Covered(old(registry.stack), registry.all, s, c) || Matches(this, registry.all, s, c)
    {
      this.registry := registry;
      this.parent := registry.current;
      this.saveable := saveable;
      this.context := context;
      this.completed := false;
      new;
      ghost var below := registry.stack;
      registry.current := this;
      registry.stack := registry.stack + [this];
      assert registry.stack[..|registry.stack| - 1] == below;
      forall s, c ensures registry.InScope(s, c) <==> Covered(below, registry.all, s, c) || Matches(this, registry.all, s, c) {
        CoveredPush(below, this, registry.all, s, c);
      }
    }

    /**
     * `pop`: when this scope is current, the slot goes back to its parent and
     * the stack loses exactly its top; otherwise the close is refused with the
     * assertion error and the slot is left as it was.
     */
    method Pop() returns (o: Outcome)
      requires registry.Valid()
      modifies registry
      ensures registry.Valid()
      ensures old(registry.current) == this ==>
        o == Ok && registry.current == parent && registry.stack + [this] == old(registry.stack)
      ensures old(registry.current) != this ==> o == AssertionError(NotInScopeMessage) && unchanged(registry)
    {
      if registry.current != this {
        return AssertionError(NotInScopeMessage);
      }
      assert registry.stack[..|registry.stack| - 1] + [this] == registry.stack;
      registry.current := parent;
      registry.stack := registry.stack[..|registry.stack| - 1];
      o := Ok;
    }

    /**
     * `commit`: a no-op on a completed scope; otherwise marks it completed and
     * pops it. The flag is set before the pop, so a mis-ordered commit leaves
     * the scope completed although it stays on the stack.
     */
    method Commit() returns (o: Outcome)
      requires registry.Valid()
      modifies this, registry
      ensures registry.Valid() && completed
      ensures old(completed) ==> o == Ok && unchanged(registry)
      ensures !old(completed) && old(registry.current) == this ==>
        o == Ok && registry.current == parent && registry.stack + [this] == old(registry.stack)
      ensures !old(completed) && old(registry.current) != this ==> o == AssertionError(NotInScopeMessage) && unchanged(registry)
    {
      if completed {
        return Ok;
      }
      completed := true;
      o := Pop();
    }

    /**
     * `abort`: leaves the scope without saving; it pops exactly as `commit`
     * does, and is a no-op after `commit` or a previous `abort`.
     */
    method Abort() returns (o: Outcome)
      requires registry.Valid()
      modifies this, registry
      ensures registry.Valid() && completed
      ensures old(completed) ==> o == Ok && unchanged(registry)
      ensures !old(completed) && old(registry.current) == this ==>
        o == Ok && registry.current == parent && registry.stack + [this] == old(registry.stack)
      ensures !old(completed) && old(registry.current) != this ==> o == AssertionError(NotInScopeMessage) && unchanged(registry)
    {
      if completed {
        return Ok;
      }
      completed := true;
      o := Pop();
    }
  }
}
