# Change-scope guard and disabled-flag exclusion of ez-templates

This project models two pieces of the ez-templates Jenkins plugin and proves
properties about them in Dafny.

The plugin copies the configuration of a template job onto its implementation
jobs every time the template is saved. Two pieces of its core make that safe:

- **The change-scope guard** (`EzTemplateChange`). It is a per-thread stack of
  "in scope" records. Each record names a saveable (a job) and a context, and
  links to its parent record. Opening a record pushes it. `commit` and `abort`
  mark it completed and pop it. A close that is not LIFO raises an assertion
  error. `contains(s, c)` walks the parent chain and tells the save path whether
  some open record already covers job `s` under context `c`. A record covers a
  job when its saveable is that job or the sentinel `ALL`.
- **The disabled-flag exclusion** (`DisabledExclusion`). `preClone` captures
  the implementation project's `disabled` flag before the clone. `postClone`
  force-writes the flag back after the clone.

Modules:

- `Host` (`host.dfy`): minimal stand-ins for the host's `Saveable` and
  `AbstractProject`.
- `ChangeScope` (`change_scope.dfy`): the guard. `Registry` holds one thread's
  state. Its fields are the slot `current` (the source's `INSCOPE`), the
  sentinel `all` (the source's `ALL`), and a ghost `stack` of the open scopes.
  `Registry.Valid()` says that the `parent` links, followed from `current`,
  spell out exactly `stack` and then reach `null`. `Scope` is the record. Its
  constructor, `Commit`, `Abort` and `Pop` update the registry in place.
- `Nesting` (`nesting.dfy`): client programs of the guard. These are a
  properly nested run of scopes and usage scenarios of the guard.
- `Exclusion` (`disabled_exclusion.dfy`): the exclusion class and the
  capture/clone/restore round trip.

## Model

| member | source | states |
|---|---|---|
| ChangeScope.ChainUnique | src/main/java/com/joelj/jenkins/eztemplates/listener/EzTemplateChange.java:27-37 | The parent chain from a scope determines the stack of scopes it spells; two stacks spelled by the same chain are equal. |
| ChangeScope.ChainPrefix | src/main/java/com/joelj/jenkins/eztemplates/listener/EzTemplateChange.java:68-72 | Helper for `ChainAcyclic`: every prefix of a well-linked stack is itself well linked from its own top. |
| ChangeScope.ChainAcyclic | src/main/java/com/joelj/jenkins/eztemplates/listener/EzTemplateChange.java:94 | A well-linked stack holds no scope twice, so the parent chain that `contains` walks is acyclic and reaches `null`. |
| ChangeScope.CoveredPush | src/main/java/com/joelj/jenkins/eztemplates/listener/EzTemplateChange.java:93-98 | After a push, a pair is covered exactly when it was covered before or the pushed scope matches it (both directions). |
| ChangeScope.ContextSeparation | src/main/java/com/joelj/jenkins/eztemplates/listener/EzTemplateChange.java:95 | Scopes under other contexts never cover anything under context `c`, even for an identical saveable. |
| ChangeScope.SentinelCoversAll | src/main/java/com/joelj/jenkins/eztemplates/listener/EzTemplateChange.java:100-108 | An open scope whose saveable is the sentinel covers every saveable under its context. |
| ChangeScope.Registry.constructor | src/main/java/com/joelj/jenkins/eztemplates/listener/EzTemplateChange.java:77 | A thread's slot starts empty, with an empty stack and a fresh sentinel distinct from every other saveable. |
| ChangeScope.Registry.Current | src/main/java/com/joelj/jenkins/eztemplates/listener/EzTemplateChange.java:79-84 | `current()` is the top of the stack of open scopes, and is `null` exactly when no scope is open. |
| ChangeScope.Registry.Contains | src/main/java/com/joelj/jenkins/eztemplates/listener/EzTemplateChange.java:86-98 | `contains(s, c)` is true if and only if some open scope has context `c` and saveable `s` or the sentinel; the walk terminates. |
| ChangeScope.Scope.constructor | src/main/java/com/joelj/jenkins/eztemplates/listener/EzTemplateChange.java:27-37 | Opening a scope makes it current, with the previous current as its parent, not completed. The old stack stays untouched beneath it, and `contains` gains exactly what the new scope covers. |
| ChangeScope.Scope.Pop | src/main/java/com/joelj/jenkins/eztemplates/listener/EzTemplateChange.java:68-72 | When the scope is current, the slot returns to its parent and exactly that one scope leaves the stack. Otherwise the result is the assertion error and the slot and stack are unchanged. |
| ChangeScope.Scope.Commit | src/main/java/com/joelj/jenkins/eztemplates/listener/EzTemplateChange.java:42-49 | `commit` on a completed scope changes nothing. On the current scope it completes the scope and pops exactly it. On any other scope it completes the scope, returns the assertion error and leaves the slot and stack unchanged. |
| ChangeScope.Scope.Abort | src/main/java/com/joelj/jenkins/eztemplates/listener/EzTemplateChange.java:51-66 | `abort` has the same three cases as `commit`, so calling `abort` after `commit` does nothing. |
| Nesting.RunBlock | src/main/java/com/joelj/jenkins/eztemplates/listener/EzTemplateChange.java:27-72 | A scope opened, with a properly nested body run inside it, then closed by `commit` or `abort`, never fails. Afterwards the slot and stack are back to their values before. |
| Nesting.RunBlocks | src/main/java/com/joelj/jenkins/eztemplates/listener/EzTemplateChange.java:27-72 | A sequence of properly nested units of work returns `current()` and the stack to their initial values, and no close fails. |
| Nesting.NestedScopes | src/main/java/com/joelj/jenkins/eztemplates/listener/EzTemplateChange.java:93-98 | Scope A(job1, ctx1), then nested B(job2, ctx1): job1 is covered under ctx1 and not under ctx2. It is still covered inside B. Once B and A are committed it is no longer covered and no scope is current. |
| Nesting.SentinelScope | src/main/java/com/joelj/jenkins/eztemplates/listener/EzTemplateChange.java:100-108 | A sentinel scope under ctx1 makes `contains` true for a job it never names, under ctx1 only. |
| Nesting.CommitThenAbort | src/main/java/com/joelj/jenkins/eztemplates/listener/EzTemplateChange.java:59-66 | The try/finally idiom: `commit` then `abort` both succeed, and the slot is empty again. |
| Nesting.MisorderedClose | src/main/java/com/joelj/jenkins/eztemplates/listener/EzTemplateChange.java:42-47 | Committing the outer of two scopes first yields the assertion error. Because `completed` was already set, the outer scope can never be popped afterwards: it stays current and keeps covering its job. |
| Exclusion.DisabledExclusion.constructor | src/main/java/com/joelj/jenkins/eztemplates/exclusion/DisabledExclusion.java:7 | Before any capture, the stored flag holds Java's default `false`. |
| Exclusion.Labels | src/main/java/com/joelj/jenkins/eztemplates/exclusion/DisabledExclusion.java:9-17 | Stands for both `GetId` and `GetDescription`: `getId` is `"disabled"` and `getDescription` is `"Retain local disabled setting"`. |
| Exclusion.DisabledExclusion.PreClone | src/main/java/com/joelj/jenkins/eztemplates/exclusion/DisabledExclusion.java:19-22 | `preClone` stores the project's `isDisabled()` value and leaves the project unchanged. |
| Exclusion.DisabledExclusion.PostClone | src/main/java/com/joelj/jenkins/eztemplates/exclusion/DisabledExclusion.java:24-27 | `postClone` sets the project's `disabled` field to the stored flag. It changes no other project field and not the stored flag. |
| Exclusion.CloneRetainingDisabled | src/main/java/com/joelj/jenkins/eztemplates/exclusion/DisabledExclusion.java:19-27 | Capture, then a clone that overwrites the flag and the configuration, then restore. The project keeps the cloned configuration and its own earlier `disabled` value, for either flag value the clone writes. |

## Left out

- The per-thread nature of `INSCOPE` (a `ThreadLocal`) is not modelled. One `Registry` object stands for one thread's slot, and concurrency is not modelled.
- The `allocator` exception, which records the stack trace at creation, is not modelled. It is diagnostic only.
- `Saveable.save()` is not modelled. The call in `commit` is commented out in the source, and the sentinel's `save()` is empty. Saveables are opaque references compared by identity.
- The `AssertionError` thrown by `pop` is returned as `Outcome.AssertionError` with the source's message. The model does not capture the unwinding of the caller's stack that a throw causes.
- Jenkins' `AbstractProject`, the `HardCodedExclusion` base class and `ReflectionUtils.setFieldValue` are not part of this model. The project is a class with a `disabled` flag and a stand-in `configuration`. The reflective write is a direct field assignment, and reflection failures are not modelled.
- Java allows a `null` saveable or context. The model allows them too (`Saveable?`, `object?`) and compares them by identity, as `==` does.
- `commit`/`abort` set `completed` before `pop` checks the order (`EzTemplateChange.java:43-44, 69-70`), so a scope closed out of order can never be popped later; the model follows the code and `Nesting.MisorderedClose` shows it.
